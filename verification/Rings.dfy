// Circular buffers: cursors that wrap around and the bytes between them. The pipe and the
// console share these.
module Rings {

  // A cursor moved on by i, around a buffer of n bytes.
  function Slot(c: nat, i: nat, n: nat): (x: nat)
    requires c < n
    ensures x < n && (c + i < 2 * n ==> x == if c + i < n then c + i else c + i - n)
  {
    if i == 0 then c else (Bump(Slot(c, i - 1, n), n); (Slot(c, i - 1, n) + 1) % n)
  }

  lemma Bump(x: nat, n: nat)
    requires x < n
    ensures (x + 1) % n == if x + 1 == n then 0 else x + 1
  {
  }

  // The n bytes from cursor c on.
  function Cells(buf: seq<char>, c: nat, n: nat): seq<char>
    requires c < |buf|
  {
    seq(n, i requires 0 <= i < n => buf[Slot(c, i, |buf|)])
  }

  lemma OneMore(buf: seq<char>, c: nat, i: nat)
    requires c < |buf|
    ensures Cells(buf, c, 0) == [] && Slot(c, 0, |buf|) == c
    ensures Cells(buf, c, i + 1) == Cells(buf, c, i) + [buf[Slot(c, i, |buf|)]]
    ensures Slot(c, i + 1, |buf|) == (Slot(c, i, |buf|) + 1) % |buf|
  {
  }

  lemma Around(x: nat, n: nat)
    requires n > 0
    ensures x < 2 * n ==> x % n == if x < n then x else x - n
  {
    if n <= x < 2 * n {
      var q := x / n;
      assert x == q * n + x % n;
      assert q >= 2 ==> q * n >= 2 * n;
      assert q <= 0 ==> q * n <= 0;
    }
  }

  // Putting one byte behind the n bytes from cursor c, and taking k of them.
  lemma CellsPut(buf: seq<char>, c: nat, n: nat, x: char)
    requires c < |buf| && n < |buf|
    ensures Cells(buf[Slot(c, n, |buf|) := x], c, n + 1) == Cells(buf, c, n) + [x]
  {
  }

  lemma CellsTake(buf: seq<char>, c: nat, n: nat, k: nat)
    requires c < |buf| && k <= n <= |buf|
    ensures Cells(buf, c, n) == Cells(buf, c, k) + Cells(buf, Slot(c, k, |buf|), n - k)
    ensures Slot(Slot(c, k, |buf|), n - k, |buf|) == Slot(c, n, |buf|)
  {
  }
}
