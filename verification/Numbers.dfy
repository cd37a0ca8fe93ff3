// Printing and parsing numbers (lib_str.c) with 32-bit integers: unsigned arithmetic wraps,
// and signed overflow is taken to wrap as on the machine.
module Numbers {
  import opened Words

  const DIGITS := "0123456789ABCDEF"

  function Pow(b: nat, k: nat): nat { if k == 0 then 1 else b * Pow(b, k - 1) }

  // The numeral of n, from its last digit.
  function Digits(n: nat, b: nat): (s: string)
    requires 2 <= b <= 16
    ensures |s| > 0
  {
    if n < b then [DIGITS[n]] else (DivBack(n, b); Digits(n / b, b) + [DIGITS[n % b]])
  }

  // The numbers printed right: those whose leading power of the base is below 2^31.
  predicate Fits(n: UInt32, b: nat)
    requires 2 <= b <= 16
  {
    Pow(b, |Digits(n, b)| - 1) < TWO_31
  }

  // ---------------------------------------------------------------- powers

  lemma {:induction false} PowGrows(b: nat, i: nat, j: nat)
    requires b >= 2 && i <= j
    ensures 1 <= Pow(b, i) <= Pow(b, j)
    decreases j
  {
    if i < j {
      PowGrows(b, i, j - 1);
      assert b * Pow(b, j - 1) >= Pow(b, j - 1);
    } else if j > 0 {
      PowGrows(b, j - 1, j - 1);
      assert b * Pow(b, j - 1) >= 1;
    }
  }

  // In bases 10 and 16, and below 2^31 in any base, a power that is at most the number, or
  // 1, is below 2^31.
  lemma PowerBound(n: UInt32, b: nat, k: nat)
    requires 2 <= b <= 16 && (b == 10 || b == 16 || n < TWO_31) && (Pow(b, k) <= n || k == 0)
    ensures Pow(b, k) < TWO_31
  {
    if b == 10 && k >= 10 {
      PowGrows(10, 10, k);
      assert Pow(10, 10) == 10_000_000_000 by { PowersOfTen(); }
    } else if b == 10 {
      PowGrows(10, k, 9);
      PowersOfTen();
    } else if b == 16 && k >= 8 {
      PowGrows(16, 8, k);
      PowersOfSixteen();
    } else if b == 16 {
      PowGrows(16, k, 7);
      PowersOfSixteen();
    }
  }

  lemma PowersOfTen()
    ensures Pow(10, 9) == 1_000_000_000 && Pow(10, 10) == 10_000_000_000
  {
    assert Pow(10, 5) == 100_000;
  }

  lemma PowersOfSixteen()
    ensures Pow(16, 7) == 0x1000_0000 && Pow(16, 8) == 0x1_0000_0000
  {
    assert Pow(16, 4) == 0x1_0000;
  }

  // x = q * a + r with r below a leaves no choice.
  lemma DivUnique(x: nat, a: nat, q: nat, r: nat)
    requires a > 0 && x == q * a + r && r < a
    ensures x / a == q && x % a == r
  {
    var p, m := x / a, x % a;
    var e: int := p - q;
    assert e * a == r - m;
    assert e >= 1 ==> e * a >= a;
    assert e <= -1 ==> e * a + a <= 0;
  }

  lemma DivBack(n: nat, b: nat)
    requires b >= 2
    ensures n / b * b + n % b == n && (n > 0 ==> n / b < n)
  {
  }

  lemma AtLeast(x: nat, b: nat)
    requires x > 0
    ensures x * b >= b
  {
  }

  // ---------------------------------------------------------------- numerals

  // A digit as the parser reads it: 0-9, A-F, a-f.
  function DigitOf(c: char): int {
    if '0' <= c <= '9' then c as int - '0' as int
    else if 'A' <= c <= 'F' then c as int - 'A' as int + 10
    else if 'a' <= c <= 'f' then c as int - 'a' as int + 10
    else -1
  }

  predicate Accepted(c: char, b: nat) { 0 <= DigitOf(c) < b }

  predicate Numeral(s: string, b: nat) { forall i | 0 <= i < |s| :: Accepted(s[i], b) }

  // The number a numeral stands for.
  function Value(s: string, b: nat): nat
    requires Numeral(s, b)
  {
    if s == [] then 0 else Value(s[..|s| - 1], b) * b + DigitOf(s[|s| - 1])
  }

  lemma PrintedDigit(d: nat)
    requires d < 16
    ensures DigitOf(DIGITS[d]) == d && (DIGITS[d] == '0' <==> d == 0)
  {
  }

  lemma ValueSnoc(s: string, c: char, b: nat)
    requires Numeral(s, b) && Accepted(c, b)
    ensures Numeral(s + [c], b) && Value(s + [c], b) == Value(s, b) * b + DigitOf(c)
  {
    assert (s + [c])[..|s|] == s;
  }

  // Parsing undoes printing: the numeral of n stands for n.
  lemma {:induction false} ValueOfDigits(n: nat, b: nat)
    requires 2 <= b <= 16
    ensures Numeral(Digits(n, b), b) && Value(Digits(n, b), b) == n
    decreases n
  {
    if n < b {
      PrintedDigit(n);
      ValueSnoc([], DIGITS[n], b);
      assert [] + [DIGITS[n]] == [DIGITS[n]];
    } else {
      DivBack(n, b);
      assert Digits(n, b) == Digits(n / b, b) + [DIGITS[n % b]];
      hide Digits, Value;
      ValueOfDigits(n / b, b);
      PrintedDigit(n % b);
      ValueSnoc(Digits(n / b, b), DIGITS[n % b], b);
    }
  }

  // Every printed digit is one of the sixteen.
  lemma {:induction false} PrintedDigits(n: nat, b: nat, i: nat)
    requires 2 <= b <= 16 && i < |Digits(n, b)|
    ensures var c := Digits(n, b)[i]; 0 <= DigitOf(c) < b && c == DIGITS[DigitOf(c)]
    decreases n
  {
    if n < b {
      PrintedDigit(n);
    } else {
      DivBack(n, b);
      PrintedDigit(n % b);
      if i < |Digits(n / b, b)| { PrintedDigits(n / b, b, i); }
    }
  }

  // A numeral read from the front: its first digit counts for the leading power, and the
  // rest is below that power.
  lemma {:induction false} ValueFront(s: string, b: nat)
    requires b >= 2 && Numeral(s, b) && s != []
    ensures Value(s, b) == DigitOf(s[0]) * Pow(b, |s| - 1) + Value(s[1..], b)
    ensures Value(s[1..], b) < Pow(b, |s| - 1)
    decreases |s|
  {
    var t := s[..|s| - 1];
    if t == [] {
      assert s[1..] == [] && t == [];
      assert Value(t, b) * b == 0;
    } else {
      var p, r, e := Pow(b, |s| - 2), Value(t[1..], b), DigitOf(s[|s| - 1]);
      assert Pow(b, |s| - 1) == b * p && Value(s, b) == Value(t, b) * b + e;
      assert Value(s[1..], b) == r * b + e by { assert s[1..][..|s| - 2] == t[1..]; }
      hide Value, Pow;
      ValueFront(t, b);
      Carry(DigitOf(s[0]), p, r, b, e);
    }
  }

  lemma Carry(d: nat, p: nat, r: nat, b: nat, e: nat)
    requires r < p && e < b
    ensures (d * p + r) * b + e == d * (b * p) + (r * b + e) && r * b + e < b * p
  {
    Distribute(d * p, r, b);
    Associate(d, p, b);
    AtMost(r + 1, p, b);
    Distribute(r, 1, b);
  }

  lemma Distribute(x: nat, y: nat, b: nat)
    ensures (x + y) * b == x * b + y * b
  {}

  lemma Associate(d: nat, p: nat, b: nat)
    ensures d * p * b == d * (b * p)
  {}

  lemma AtMost(x: nat, y: nat, b: nat)
    requires x <= y
    ensures x * b <= y * b == b * y
  {}

  // ---------------------------------------------------------------- num_into_string

  lemma GrowStep(n: nat, a: nat, b: nat)
    requires a > 0 && b > 0
    ensures n / a >= b <==> n >= a * b
  {
    var q := n / a;
    assert n == q * a + n % a;
    assert q >= b ==> q * a >= b * a;
    assert q + 1 <= b ==> (q + 1) * a <= b * a;
  }

  // The number of digits is one more than the exponent of the leading power.
  lemma {:induction false} DigitCount(n: nat, b: nat, k: nat)
    requires 2 <= b <= 16 && n < Pow(b, k + 1) && (k == 0 || Pow(b, k) <= n)
    ensures |Digits(n, b)| == k + 1
    decreases k
  {
    PowNext(b, k);
    if k > 0 {
      PowNext(b, k - 1);
      PowOne(b, k);
      PowGrows(b, k - 1, k);
      DivBack(n, b);
      Between(n, b, Pow(b, k - 1), Pow(b, k));
      hide Pow;
      DigitCount(n / b, b, k - 1);
    }
  }

  lemma PowNext(b: nat, k: nat)
    ensures Pow(b, k + 1) == b * Pow(b, k) && (k == 0 ==> Pow(b, k) == 1)
  {
  }

  lemma Between(n: nat, b: nat, lo: nat, hi: nat)
    requires b >= 2 && 0 < lo <= hi && b * lo <= n < b * hi
    ensures lo <= n / b < hi
  {
    GrowStep(n, b, lo);
    GrowStep(n, b, hi);
  }

  // The number of digits says which power leads.
  lemma DigitBounds(n: nat, b: nat)
    requires 2 <= b <= 16
    ensures var k := |Digits(n, b)| - 1; n < Pow(b, k + 1) && (k == 0 || Pow(b, k) <= n)
    decreases n
  {
    if n < b {
      PowNext(b, 0);
    } else {
      DivBack(n, b);
      var k := |Digits(n / b, b)|;
      assert |Digits(n, b)| == k + 1;
      hide Digits, Pow;
      DigitBounds(n / b, b);
      UpOne(n, b, k);
    }
  }

  lemma UpOne(n: nat, b: nat, k: nat)
    requires 2 <= b <= n && k > 0 && n / b < Pow(b, k) && (k == 1 || Pow(b, k - 1) <= n / b)
    ensures Pow(b, k) <= n < Pow(b, k + 1)
  {
    PowNext(b, k);
    PowNext(b, k - 1);
    PowGrows(b, k - 1, k);
    var lo, hi := Pow(b, k - 1), Pow(b, k);
    hide Pow;
    GrowStep(n, b, lo);
    GrowStep(n, b, hi);
  }

  // An int that holds p modulo 2^32 holds p times b after a multiplication that stays below.
  lemma WrappedTimes(a: Int32, p: nat, b: nat)
    requires ToUInt32(a) == p && p * b < TWO_32
    ensures ToUInt32(ToInt32(a * b)) == p * b
  {
    var k := if a < 0 then 1 else 0;
    assert p == a + k * TWO_32;
    assert p * b == a * b + k * b * TWO_32;
    hide ToUInt32, ToInt32;
    Congruent(p * b, a * b, k * b);
    SignedBack(a * b);
    Small(p * b);
  }

  lemma Small(x: UInt32)
    ensures ToUInt32(x) == x
  {}

  lemma Congruent(x: int, y: int, k: int)
    ensures x == y + k * TWO_32 ==> ToUInt32(x) == ToUInt32(y)
  {}

  // The int with the bits of x has the bits of x.
  lemma SignedBack(x: int)
    ensures ToUInt32(ToInt32(x)) == ToUInt32(x)
  {}

  // Lines 98-100: the leading power of the base, as an int. Its bits never overflow, but
  // from 2^31 on they are those of a negative number.
  method LeadingPower(num: UInt32, base: nat) returns (acum: Int32, ghost k: nat)
    requires 2 <= base <= 16
    ensures Pow(base, k) < TWO_32 && acum == ToInt32(Pow(base, k))
    ensures num < Pow(base, k + 1) && (k == 0 || Pow(base, k) <= num)
  {
    acum, k := 1, 0;
    ghost var p: nat := 1;
    hide Pow, ToUInt32, ToInt32;
    PowNext(base, 0);
    Unwrapped(1);
    while num / ToUInt32(acum) >= base
      invariant ToUInt32(acum) == p == Pow(base, k) > 0 && (k == 0 || p <= num)
      decreases num - p
    {
      LeadStep(num, p, base);
      WrappedTimes(acum, p, base);
      PowNext(base, k);
      acum, k, p := ToInt32(acum * base), k + 1, p * base;
    }
    GrowStep(num, p, base);
    PowNext(base, k);
    SignedIs(acum, p);
  }

  lemma LeadStep(num: UInt32, p: nat, b: nat)
    requires p > 0 && b >= 2 && num / p >= b
    ensures p < p * b <= num
  {
    GrowStep(num, p, b);
    AtLeast(b - 1, p);
    assert p * b == (b - 1) * p + p;
  }

  lemma Unwrapped(x: Int32)
    requires x >= 0
    ensures ToUInt32(x) == x && ToInt32(x) == x
  {}

  lemma SignedIs(a: Int32, p: nat)
    requires ToUInt32(a) == p
    ensures a == ToInt32(p)
  {}

  // A numeral with the digits the printer uses.
  predicate Printable(d: string, b: nat) {
    d != [] && Numeral(d, b) && forall i | 0 <= i < |d| :: DigitOf(d[i]) < 16 && d[i] == DIGITS[DigitOf(d[i])]
  }

  lemma DigitsPrintable(n: nat, b: nat)
    requires 2 <= b <= 16
    ensures Printable(Digits(n, b), b) && Value(Digits(n, b), b) == n
  {
    ValueOfDigits(n, b);
    forall i | 0 <= i < |Digits(n, b)| ensures DigitOf(Digits(n, b)[i]) < 16 && Digits(n, b)[i] == DIGITS[DigitOf(Digits(n, b)[i])] {
      PrintedDigits(n, b, i);
    }
  }

  // With the leading power acum of what is left, the division gives digit i and leaves the
  // digits behind it.
  lemma PrintOne(d: string, b: nat, i: nat, k: nat, num: int, acum: int)
    requires 2 <= b <= 16 && Printable(d, b) && i + k + 1 == |d| && acum == Pow(b, k) >= b && num == Value(d[i..], b)
    ensures k > 0 && acum / b == Pow(b, k - 1)
    ensures 0 <= num / acum < b && DIGITS[num / acum] == d[i]
    ensures num - num / acum * acum == Value(d[i + 1..], b)
  {
    ValueFront(d[i..], b);
    assert d[i..][1..] == d[i + 1..];
    DivUnique(num, acum, DigitOf(d[i]), Value(d[i + 1..], b));
    DivUnique(acum, b, Pow(b, k - 1), 0);
  }

  lemma PrintLast(d: string, b: nat, i: nat, num: int)
    requires 2 <= b <= 16 && Printable(d, b) && i + 1 == |d| && num == Value(d[i..], b)
    ensures 0 <= num < b && DIGITS[num] == d[i]
  {
    ValueFront(d[i..], b);
    assert d[i..][1..] == [];
    assert DigitOf(d[i]) * Pow(b, 0) == DigitOf(d[i]);
  }

  // Lines 103 and 106-107.
  method NextDigit(num: UInt32, acum: Int32, base: nat, ghost d: string, ghost i: nat)
    returns (val: nat, rest: UInt32, lower: Int32)
    requires 2 <= base <= 16 && Printable(d, base) && i < |d| && acum == Pow(base, |d| - 1 - i) >= base
    requires num == Value(d[i..], base)
    ensures i + 1 < |d| && val < base && DIGITS[val] == d[i]
    ensures rest == Value(d[i + 1..], base) && lower == Pow(base, |d| - 2 - i)
  {
    PrintOne(d, base, i, |d| - 1 - i, num, acum);
    val := num / acum;
    rest := num - val * acum;
    lower := acum / base;
  }

  // The text c with s written over it from index on.
  function Overlay(c: string, index: nat, s: string): string
    requires index + |s| <= |c|
  {
    c[..index] + s + c[index + |s|..]
  }

  lemma OverlayOne(c: string, index: nat, d: string, i: nat)
    requires index + |d| <= |c| && i < |d|
    ensures Overlay(c, index, d[..i])[index + i := d[i]] == Overlay(c, index, d[..i + 1])
  {
    assert d[..i + 1] == d[..i] + [d[i]];
  }

  // Lines 102-110, for the numeral d of number with leading power `leading`.
  method PrintDigits(str: array<char>, index: nat, number: UInt32, leading: Int32, base: nat, ghost d: string)
    returns (next: nat)
    requires 2 <= base <= 16 && Printable(d, base) && number == Value(d, base) && leading == Pow(base, |d| - 1)
    requires index + |d| <= str.Length
    modifies str
    ensures next == index + |d| && str[..] == Overlay(old(str[..]), index, d)
  {
    hide Pow, Value;
    var num: UInt32, acum: Int32 := number, leading;
    ghost var i: nat, c := 0, str[..];
    assert d[0..] == d;
    next := index;
    while acum >= base
      invariant i < |d| && acum == Pow(base, |d| - 1 - i) && next == index + i && num == Value(d[i..], base)
      invariant str[..] == Overlay(c, index, d[..i])
      decreases |d| - i
    {
      var val;
      val, num, acum := NextDigit(num, acum, base, d, i);
      OverlayOne(c, index, d, i);
      str[next] := DIGITS[val];
      next := next + 1;
      i := i + 1;
    }
    PowOne(base, |d| - 1 - i);
    PrintLast(d, base, i, num);
    OverlayOne(c, index, d, i);
    str[next] := DIGITS[num];
    next := next + 1;
    assert d[..i + 1] == d;
  }

  // What is written for the number: its numeral, or the one character that memory holds
  // number places behind the start of the table of digits.
  function Printed(number: UInt32, b: nat, beyond: char): string
    requires 2 <= b <= 16
  {
    if Fits(number, b) then Digits(number, b) else [beyond]
  }

  // The number is written into the buffer at index; `beyond` is the character at
  // digits[number] for a number that is no digit.
  method NumIntoString(str: array<char>, index: nat, number: UInt32, base: nat, beyond: char) returns (next: nat)
    requires 2 <= base <= 16
    requires index + |Printed(number, base, beyond)| <= str.Length
    modifies str
    ensures next == index + |Printed(number, base, beyond)|
    ensures str[..] == old(str[..index]) + Printed(number, base, beyond) + old(str[next..])
  {
    hide Pow, Digits, ToInt32, Value, Printable, Fits, Printed;
    ghost var k;
    var acum;
    acum, k := LeadingPower(number, base);
    PrintedCases(number, base, beyond, k);
    if acum > 0 {
      next := PrintDigits(str, index, number, acum, base, Printed(number, base, beyond));
    } else {
      // The second loop does not run.
      str[index] := beyond;
      next := index + 1;
      assert str[..] == Overlay(old(str[..]), index, [beyond]);
    }
  }

  lemma PrintedCases(n: UInt32, b: nat, beyond: char, k: nat)
    requires 2 <= b <= 16 && n < Pow(b, k + 1) && (k == 0 || Pow(b, k) <= n) && Pow(b, k) < TWO_32
    ensures if ToInt32(Pow(b, k)) > 0
      then ToInt32(Pow(b, k)) == Pow(b, k) && Printed(n, b, beyond) == Digits(n, b) && |Digits(n, b)| == k + 1
           && Printable(Digits(n, b), b) && Value(Digits(n, b), b) == n
      else Printed(n, b, beyond) == [beyond]
  {
    DigitCount(n, b, k);
    DigitsPrintable(n, b);
    PowGrows(b, k, k);
    SignTells(Pow(b, k));
    hide Pow, Digits, Value, Printable, ToInt32;
  }

  lemma SignTells(p: nat)
    requires p < TWO_32
    ensures if p < TWO_31 then ToInt32(p) == p else ToInt32(p) < 0
  {}

  // Printing is right exactly for the numbers whose leading power is below 2^31.
  lemma PrintedExactly(n: UInt32, b: nat, beyond: char)
    requires 2 <= b <= 16
    ensures Printed(n, b, beyond) == Digits(n, b) <==> Fits(n, b)
  {
    DigitBounds(n, b);
    if |Digits(n, b)| == 1 { assert Pow(b, 0) == 1; }
  }

  // Those are all numbers in bases 10 and 16, and all numbers below 2^31 in any base.
  lemma FitsInUse(n: UInt32, b: nat)
    requires 2 <= b <= 16 && (b == 10 || b == 16 || n < TWO_31)
    ensures Fits(n, b)
  {
    DigitBounds(n, b);
    PowerBound(n, b, |Digits(n, b)| - 1);
  }

  lemma PowOne(b: nat, k: nat)
    requires b >= 2
    ensures k > 0 ==> Pow(b, k) >= b
  {
    if k > 0 {
      PowGrows(b, 1, k);
      assert Pow(b, 1) == b * Pow(b, 0);
    }
  }

  // ---------------------------------------------------------------- dec_into_string

  function Negative(x: int): UInt32 { ToUInt32(-x) }

  lemma NegativeTwice(x: UInt32)
    ensures Negative(Negative(x)) == x
  {
  }

  lemma SignBack(n: Int32, num: UInt32)
    requires Negative(num) == Magnitude(n) && n < 0
    ensures num == ToUInt32(n)
  {
    NegativeTwice(num);
  }

  function Magnitude(x: int): nat { if x < 0 then -x else x }

  // The text of a signed number.
  function Signed(num: Int32): string { (if num < 0 then "-" else "") + Digits(Magnitude(num), 10) }

  method DecIntoString(str: array<char>, index: nat, num: Int32) returns (next: nat)
    requires index + |Signed(num)| <= str.Length
    modifies str
    ensures next == index + |Signed(num)|
    ensures str[..] == old(str[..index]) + Signed(num) + old(str[next..])
  {
    hide Digits;
    var number := ToUInt32(num);
    next := index;
    if num < 0 {
      str[next] := '-';
      next := next + 1;
      number := Negative(num);
    }
    assert number == Magnitude(num);
    FitsInUse(number, 10);
    next := NumIntoString(str, next, number, 10, ' ');
  }

  // ---------------------------------------------------------------- str_into_num

  // How far the parser reads: the longest run of digits of the base, cut at len unless 0.
  ghost predicate Run(str: string, len: nat, b: nat, count: nat) {
    && count <= |str| && (forall i | 0 <= i < count :: Accepted(str[i], b)) && (len != 0 ==> count <= len)
    && (count == |str| || (len != 0 && count == len) || !Accepted(str[count], b))
  }

  // The digits with weights that start at a and are divided by the base, as the parser
  // adds them up.
  function Weighed(s: string, a: nat, b: nat): nat
    requires b >= 2 && Numeral(s, b)
  {
    if s == [] then 0 else DigitOf(s[0]) * a + Weighed(s[1..], a / b, b)
  }

  // The sum for a numeral: the first weight is the leading power modulo 2^32.
  function Read(s: string, b: nat): UInt32
    requires b >= 2 && Numeral(s, b) && s != []
  {
    ToUInt32(Weighed(s, ToUInt32(Pow(b, |s| - 1)), b))
  }

  // The result of str_into_num: the count of digits and what they are read as, or -1 and 0.
  ghost predicate Parsed(str: string, len: nat, b: nat, ret: int, num: UInt32)
    requires b >= 2
  {
    if ret == -1 then Run(str, len, b, 0) && num == 0
    else ret > 0 && Run(str, len, b, ret) && num == Read(str[..ret], b)
  }

  // The string ends before memory does.
  ghost predicate Readable(str: string, len: nat, b: nat) {
    0 < len <= |str| || exists k :: 0 <= k < |str| && !Accepted(str[k], b)
  }

  // Lines 170-172.
  method ParsePower(count: nat, base: nat) returns (acum: Int32)
    requires 2 <= base <= 16 && count > 0
    ensures ToUInt32(acum) == ToUInt32(Pow(base, count - 1))
  {
    acum := 1;
    for i := 0 to count - 1
      invariant ToUInt32(acum) == ToUInt32(Pow(base, i))
    {
      TimesBase(acum, Pow(base, i), base);
      acum := ToInt32(acum * base);
    }
  }

  lemma TimesBase(a: int, p: int, b: nat)
    requires ToUInt32(a) == ToUInt32(p)
    ensures ToUInt32(ToInt32(a * b)) == ToUInt32(b * p)
  {
    var k := a / TWO_32 - p / TWO_32;
    assert a == p + k * TWO_32;
    assert a * b == b * p + k * b * TWO_32;
    Congruent(a * b, b * p, k * b);
    SignedBack(a * b);
  }

  // *num += digit * acum and acum /= base, in C's unsigned arithmetic.
  function PlusDigit(num: UInt32, digit: int, acum: Int32): UInt32 { ToUInt32(num + digit * acum) }

  function Lowered(acum: Int32, base: nat): Int32
    requires base > 0
  {
    ToInt32(ToUInt32(acum) / base)
  }

  lemma AddDigit(num: UInt32, d: nat, a: Int32, rest: nat)
    ensures ToUInt32(PlusDigit(num, d, a) + rest) == ToUInt32(num + (d * ToUInt32(a) + rest))
  {
    var x, y := PlusDigit(num, d, a) + rest, num + (d * ToUInt32(a) + rest);
    var q, r := (num + d * a) / TWO_32, a / TWO_32;
    assert num + d * a == q * TWO_32 + PlusDigit(num, d, a);
    assert a == r * TWO_32 + ToUInt32(a);
    assert d * a == d * r * TWO_32 + d * ToUInt32(a);
    Congruent(x, y, d * r - q);
  }

  // Lines 175-183 for digit i.
  lemma ParseStep(d: string, b: nat, i: nat, num: UInt32, acum: Int32)
    requires 2 <= b <= 16 && Numeral(d, b) && i < |d|
    ensures ToUInt32(PlusDigit(num, DigitOf(d[i]), acum) + Weighed(d[i + 1..], ToUInt32(Lowered(acum, b)), b))
         == ToUInt32(num + Weighed(d[i..], ToUInt32(acum), b))
  {
    var u := ToUInt32(acum);
    assert d[i..][1..] == d[i + 1..];
    assert Weighed(d[i..], u, b) == DigitOf(d[i]) * u + Weighed(d[i + 1..], u / b, b);
    LoweredIs(acum, b);
    hide Weighed, Numeral, PlusDigit, Lowered, ToUInt32;
    AddDigit(num, DigitOf(d[i]), acum, Weighed(d[i + 1..], u / b, b));
  }

  lemma LoweredIs(acum: Int32, b: nat)
    requires b >= 2
    ensures ToUInt32(Lowered(acum, b)) == ToUInt32(acum) / b
  {
    SignedBack(ToUInt32(acum) / b);
    Small(ToUInt32(acum) / b);
  }

  // Lines 174-184 for the digits d.
  method ParseDigits(d: string, power: Int32, base: nat) returns (num: UInt32)
    requires 2 <= base <= 16 && Numeral(d, base) && d != []
    ensures num == ToUInt32(Weighed(d, ToUInt32(power), base))
  {
    num := 0;
    var acum: Int32 := power;
    assert d[0..] == d;
    for i := 0 to |d|
      invariant ToUInt32(num + Weighed(d[i..], ToUInt32(acum), base)) == ToUInt32(Weighed(d, ToUInt32(power), base))
    {
      ParseStep(d, base, i, num, acum);
      hide Weighed, PlusDigit, Lowered, ToUInt32;
      num := PlusDigit(num, DigitOf(d[i]), acum);
      acum := Lowered(acum, base);
    }
    assert d[|d|..] == [];
  }

  // ---------------------------------------------------------------- what is read

  // With the leading power itself as first weight the sum is the value.
  lemma {:induction false} WeighedIsValue(s: string, b: nat)
    requires 2 <= b && Numeral(s, b) && s != []
    ensures Weighed(s, Pow(b, |s| - 1), b) == Value(s, b)
    decreases |s|
  {
    ValueFront(s, b);
    if |s| > 1 {
      Quotient(Pow(b, |s| - 1), b, Pow(b, |s| - 2));
      WeighedFront(s, Pow(b, |s| - 1), b);
      hide Pow, Value, Weighed;
      WeighedIsValue(s[1..], b);
    } else {
      assert s[1..] == [];
    }
  }

  lemma WeighedFront(s: string, a: nat, b: nat)
    requires 2 <= b && Numeral(s, b) && s != []
    ensures Weighed(s, a, b) == DigitOf(s[0]) * a + Weighed(s[1..], a / b, b)
  {}

  lemma Quotient(p: nat, b: nat, q: nat)
    requires b >= 2 && p == b * q
    ensures p / b == q
  {
    DivUnique(p, b, q, 0);
  }

  lemma ReadIsValue(s: string, b: nat)
    requires 2 <= b && Numeral(s, b) && s != [] && Pow(b, |s| - 1) < TWO_32
    ensures Read(s, b) == ToUInt32(Value(s, b))
  {
    WeighedIsValue(s, b);
    Small(Pow(b, |s| - 1));
    hide Pow, Weighed, Value, ToUInt32;
  }

  // The numeral of 1 with count - 1 zeros before it.
  function ZerosOne(count: nat): string { if count <= 1 then "1" else "0" + ZerosOne(count - 1) }

  lemma {:induction false} ZerosOneRead(count: nat, a: nat, b: nat)
    requires b >= 2 && count > 0 && a < Pow(b, count - 1)
    ensures |ZerosOne(count)| == count && Numeral(ZerosOne(count), b)
    ensures Weighed(ZerosOne(count), a, b) == 0 && Value(ZerosOne(count), b) == 1
  {
    var s := ZerosOne(count);
    if count > 1 {
      Shrinks(a, b, Pow(b, count - 2));
      hide Pow, Value, Weighed;
      ZerosOneRead(count - 1, a / b, b);
      assert s[1..] == ZerosOne(count - 1) && s[0] == '0';
      ZeroFront(s, a, b);
    } else {
      assert s[1..] == [] && s[..0] == [];
    }
  }

  lemma Shrinks(a: nat, b: nat, p: nat)
    requires b >= 2 && a < b * p
    ensures a / b < p
  {
    GrowStep(a, b, p);
  }

  lemma ZeroFront(s: string, a: nat, b: nat)
    requires b >= 2 && Numeral(s, b) && s != [] && s[0] == '0'
    ensures Numeral(s[1..], b) && Weighed(s, a, b) == Weighed(s[1..], a / b, b) && Value(s, b) == Value(s[1..], b)
  {
    ValueFront(s, b);
    assert 0 * a == 0 && 0 * Pow(b, |s| - 1) == 0;
  }

  // All numerals of a length are read as their value modulo 2^32 exactly when the leading
  // power of that length is below 2^32; from there on 0...01 is read as 0.
  lemma ReadExactly(b: nat, count: nat)
    requires 2 <= b <= 16 && count > 0
    ensures (forall s: string | |s| == count && Numeral(s, b) :: Read(s, b) == ToUInt32(Value(s, b))) <==> Pow(b, count - 1) < TWO_32
  {
    if Pow(b, count - 1) < TWO_32 {
      forall s: string | |s| == count && Numeral(s, b) ensures Read(s, b) == ToUInt32(Value(s, b)) { ReadIsValue(s, b); }
    } else {
      ZerosOneRead(count, ToUInt32(Pow(b, count - 1)), b);
      assert Read(ZerosOne(count), b) != ToUInt32(Value(ZerosOne(count), b));
    }
  }

  // ---------------------------------------------------------------- str_into_num, lines 151-186

  method StrIntoNum(str: string, len: UInt32, base: nat) returns (ret: int, num: UInt32)
    requires 2 <= base <= 16 && Readable(str, len, base)
    ensures Parsed(str, len, base, ret, num)
  {
    num := 0;
    var count := 0;
    while (len == 0 || count < len) && Accepted(str[count], base)
      invariant 0 <= count <= |str| && Numeral(str[..count], base) && (len != 0 ==> count <= len)
      invariant len == 0 || count < len ==> count < |str|
      decreases |str| - count
    {
      assert str[..count + 1] == str[..count] + [str[count]];
      count := count + 1;
    }
    if count == 0 { return -1, 0; }
    var power := ParsePower(count, base);
    num := ParseDigits(str[..count], power, base);
    ret := count;
  }

  // str_into_dec and str_into_hex.
  method StrIntoDec(str: string, len: UInt32) returns (ret: int, num: UInt32)
    requires str != [] && Readable(if str[0] == '-' then str[1..] else str, len, 10)
    ensures ParsedDec(str, len, ret, num)
  {
    if str[0] == '-' {
      ret, num := StrIntoNum(str[1..], len, 10);
      hide Pow, Value;
      NegativeTwice(num);
      num := Negative(num);
    } else {
      ret, num := StrIntoNum(str, len, 10);
    }
  }

  ghost predicate ParsedDec(str: string, len: nat, ret: int, num: UInt32)
    requires str != []
  {
    if str[0] == '-' then Parsed(str[1..], len, 10, ret, Negative(num)) else Parsed(str, len, 10, ret, num)
  }

  function AfterPrefix(str: string): string
    requires str != [] && (str[0] == '0' ==> |str| > 1)
  {
    if str[0] == '0' && str[1] == 'x' then str[2..] else str
  }

  method StrIntoHex(str: string, len: UInt32) returns (ret: int, num: UInt32)
    requires str != [] && (str[0] == '0' ==> |str| > 1) && Readable(AfterPrefix(str), len, 16)
    ensures Parsed(AfterPrefix(str), len, 16, ret, num)
  {
    if str[0] == '0' && str[1] == 'x' {
      ret, num := StrIntoNum(str[2..], len, 16);
    } else {
      ret, num := StrIntoNum(str, len, 16);
    }
  }

  // ---------------------------------------------------------------- round trips

  // The first digit of several is not 0.
  lemma {:induction false} Leading(n: nat, b: nat)
    requires 2 <= b <= 16 && n > 0
    ensures DigitOf(Digits(n, b)[0]) > 0
    decreases n
  {
    if n < b {
      PrintedDigit(n);
    } else {
      DivBack(n, b);
      Leading(n / b, b);
    }
  }

  // Parsing the numeral of any number, ended by something that is no digit, gives the
  // number and the count of its digits back.
  lemma RoundTrip(n: UInt32, b: nat, stop: char, rest: string, ret: int, num: UInt32)
    requires 2 <= b <= 16 && !Accepted(stop, b)
    requires Parsed(Digits(n, b) + [stop] + rest, 0, b, ret, num)
    ensures ret == |Digits(n, b)| && num == n
  {
    hide Digits, Value, Weighed, Printable;
    DigitBounds(n, b);
    DigitsPrintable(n, b);
    assert Numeral(Digits(n, b), b);
    assert Pow(b, |Digits(n, b)| - 1) < TWO_32;
    hide Pow;
    Ends(Digits(n, b), stop, rest, b, if ret == -1 then 0 else ret);
    assert (Digits(n, b) + [stop] + rest)[..|Digits(n, b)|] == Digits(n, b);
    ReadIsValue(Digits(n, b), b);
    Small(n);
  }

  // The run of digits ends at the stop.
  lemma Ends(d: string, stop: char, rest: string, b: nat, count: nat)
    requires Numeral(d, b) && !Accepted(stop, b) && Run(d + [stop] + rest, 0, b, count)
    ensures count == |d|
  {
    var str := d + [stop] + rest;
    assert str[|d|] == stop;
  }

  // Signed numbers come back modulo 2^32, with the count of digits without the sign.
  lemma SignedRoundTrip(n: Int32, stop: char, rest: string, ret: int, num: UInt32)
    requires !Accepted(stop, 10) && ParsedDec(Signed(n) + [stop] + rest, 0, ret, num)
    ensures num == ToUInt32(n) && ret == |Signed(n)| - (if n < 0 then 1 else 0)
  {
    hide Digits, Value, Pow, Negative, ToUInt32;
    var d := Digits(Magnitude(n), 10);
    DigitsPrintable(Magnitude(n), 10);
    assert Signed(n) + [stop] + rest == if n < 0 then ['-'] + (d + [stop] + rest) else d + [stop] + rest;
    if n < 0 {
      RoundTrip(Magnitude(n), 10, stop, rest, ret, Negative(num));
      SignBack(n, num);
    } else {
      RoundTrip(n, 10, stop, rest, ret, num);
      Small(n);
    }
  }

  // What stands behind an x is 0 to the parser: one 0 and no further digit.
  predicate LoneZero(rest: string) {
    rest != [] && rest[0] == '0' && (|rest| == 1 || !Accepted(rest[1], 16))
  }

  // Hexadecimal numbers, ended by something that is no digit, come back exactly unless a
  // single 0 is followed by an x that no lone 0 follows.
  lemma HexRoundTrip(n: UInt32, stop: char, rest: string, ret: int, num: UInt32)
    requires !Accepted(stop, 16)
    requires Parsed(AfterPrefix(Digits(n, 16) + [stop] + rest), 0, 16, ret, num)
    ensures (ret == |Digits(n, 16)| && num == n) <==> (n != 0 || stop != 'x' || LoneZero(rest))
  {
    if n != 0 || stop != 'x' {
      NoPrefix(n, stop, rest);
      RoundTrip(n, 16, stop, rest, ret, num);
    } else {
      ZeroBeforeX(rest, ret, num);
      if ret == 1 { OneDigit(rest, num); }
    }
  }

  lemma NoPrefix(n: UInt32, stop: char, rest: string)
    requires !Accepted(stop, 16) && (n != 0 || stop != 'x')
    ensures var str := Digits(n, 16) + [stop] + rest; AfterPrefix(str) == str
  {
    var str := Digits(n, 16) + [stop] + rest;
    DigitsPrintable(n, 16);
    if |Digits(n, 16)| > 1 { assert Accepted(str[1], 16) by { assert str[1] == Digits(n, 16)[1]; } }
    if n > 0 { Leading(n, 16); }
  }

  // A run of one digit.
  lemma OneDigit(rest: string, num: UInt32)
    requires Parsed(rest, 0, 16, 1, num)
    ensures rest != [] && num == DigitOf(rest[0]) && (|rest| == 1 || !Accepted(rest[1], 16))
  {
    assert rest[..1][1..] == [];
    assert Pow(16, 0) == 1;
    assert Weighed(rest[..1], 1, 16) == DigitOf(rest[0]);
  }

  // A printed 0 followed by an x is taken for a prefix: what is read is the number behind
  // the x, or nothing exactly when no digit follows.
  lemma ZeroBeforeX(rest: string, ret: int, num: UInt32)
    requires Parsed(AfterPrefix(Digits(0, 16) + ['x'] + rest), 0, 16, ret, num)
    ensures Parsed(rest, 0, 16, ret, num)
    ensures ret == -1 <==> rest == [] || !Accepted(rest[0], 16)
  {
    var str := Digits(0, 16) + ['x'] + rest;
    assert AfterPrefix(str) == rest;
  }

  // ---------------------------------------------------------------- both cases of a letter

  // mayuscula (lib_str.c:133-144).
  function Upper(c: char): char {
    if 'a' <= c <= 'z' then (c as int - 'a' as int + 'A' as int) as char else c
  }

  function Uppers(s: string): string { seq(|s|, i requires 0 <= i < |s| => Upper(s[i])) }

  // A letter is the same digit, or no digit, in both cases.
  lemma SameDigit(c: char)
    ensures DigitOf(Upper(c)) == DigitOf(c)
  {
  }

  lemma {:induction false} SameWeighed(s: string, a: nat, b: nat)
    requires b >= 2 && Numeral(s, b)
    ensures Numeral(Uppers(s), b) && Weighed(Uppers(s), a, b) == Weighed(s, a, b)
    decreases |s|
  {
    forall i | 0 <= i < |s| ensures Accepted(Uppers(s)[i], b) { SameDigit(s[i]); }
    if s != [] {
      SameDigit(s[0]);
      assert Uppers(s)[1..] == Uppers(s[1..]);
      SameWeighed(s[1..], a / b, b);
    }
  }

  // The parser gives the same answer in both cases, for every string.
  lemma ReadAlike(str: string, len: nat, b: nat, ret: int, num: UInt32)
    requires b >= 2
    ensures Parsed(Uppers(str), len, b, ret, num) <==> Parsed(str, len, b, ret, num)
  {
    forall i | 0 <= i < |str| ensures Accepted(Uppers(str)[i], b) <==> Accepted(str[i], b) { SameDigit(str[i]); }
    var n := if ret == -1 then 0 else ret;
    if 0 <= n <= |str| {
      assert Run(Uppers(str), len, b, n) <==> Run(str, len, b, n);
      assert Uppers(str)[..n] == Uppers(str[..n]);
      if Run(str, len, b, n) && n > 0 { SameWeighed(str[..n], ToUInt32(Pow(b, n - 1)), b); }
    }
  }

  // So a number comes back from its numeral in letters of any case, and behind a 0x.
  lemma AnyCaseRoundTrip(n: UInt32, d: string, stop: char, rest: string, ret: int, num: UInt32)
    requires Uppers(d) == Digits(n, 16) && !Accepted(stop, 16)
    requires Parsed(AfterPrefix("0x" + d + [stop] + rest), 0, 16, ret, num)
    ensures ret == |Digits(n, 16)| && num == n
  {
    var str := "0x" + d + [stop] + rest;
    assert AfterPrefix(str) == d + [stop] + rest;
    ReadAlike(d + [stop] + rest, 0, 16, ret, num);
    assert Uppers(d + [stop] + rest) == Digits(n, 16) + [Upper(stop)] + Uppers(rest);
    SameDigit(stop);
    RoundTrip(n, 16, Upper(stop), Uppers(rest), ret, num);
  }
}
