// Circular doubly linked lists threaded through an array by index, as values: the links of
// sched.c and loader.c, and the free list of pids.
module LinkedLists {
  import opened Semaphores

  datatype Link = Link(next: int, prev: int)

  const NOWHERE: Link := Link(-1, -1)

  // Element i of r points to its neighbours; r is a circle of such elements in t.
  ghost predicate Joined(t: seq<Link>, r: seq<Pid>, i: nat)
    requires i < |r|
  {
    r[i] < |t| && t[r[i]] == Link(r[if i + 1 == |r| then 0 else i + 1], r[if i == 0 then |r| - 1 else i - 1])
  }

  ghost predicate Circle(t: seq<Link>, r: seq<Pid>) { forall i | 0 <= i < |r| :: Joined(t, r, i) }

  ghost predicate Distinct(r: seq<Pid>) { forall i, j | 0 <= i < j < |r| :: r[i] != r[j] }

  // The value a list head holds: -1 for an empty list.
  function Head(r: seq<Pid>): int { if r == [] then -1 else r[0] }

  // Links and head leave no choice of sequence.
  lemma CircleIsOne(t: seq<Link>, r: seq<Pid>, s: seq<Pid>)
    requires Circle(t, r) && Circle(t, s) && Distinct(r) && Distinct(s) && Head(r) == Head(s)
    ensures r == s
  {
    if r != [] {
      if |r| <= |s| { NotShorter(t, r, s); } else { NotShorter(t, s, r); }
      SamePrefix(t, r, s, |r|);
      assert r[..|r|] == r && s[..|s|] == s;
    }
  }

  lemma NotShorter(t: seq<Link>, r: seq<Pid>, s: seq<Pid>)
    requires Circle(t, r) && Circle(t, s) && Distinct(s) && 0 < |r| <= |s| && r[0] == s[0]
    ensures |r| == |s|
  {
    var m := |r|;
    SamePrefix(t, r, s, m);
    assert r[m - 1] == r[..m][m - 1] == s[m - 1];
    assert Joined(t, r, m - 1) && Joined(t, s, m - 1);
  }

  lemma {:induction false} SamePrefix(t: seq<Link>, r: seq<Pid>, s: seq<Pid>, m: nat)
    requires Circle(t, r) && Circle(t, s) && 0 < m <= |r| && m <= |s| && r[0] == s[0]
    ensures r[..m] == s[..m]
    decreases m
  {
    if m > 1 {
      SamePrefix(t, r, s, m - 1);
      assert r[m - 2] == r[..m - 1][m - 2] == s[m - 2];
      assert Joined(t, r, m - 2) && Joined(t, s, m - 2);
      assert r[..m] == r[..m - 1] + [r[m - 1]] && s[..m] == s[..m - 1] + [s[m - 1]];
    }
  }

  // A circle does not notice changes outside it.
  lemma CircleElsewhere(t: seq<Link>, u: seq<Link>, r: seq<Pid>)
    requires Circle(t, r) && |u| == |t| && forall p | p in r && p < |t| :: u[p] == t[p]
    ensures Circle(u, r)
  {
    forall i | 0 <= i < |r| ensures Joined(u, r, i) { assert Joined(t, r, i) && r[i] in r; }
  }

  // sched.c:38-41 and 57-60: p goes behind c.
  function InsertAfter(t: seq<Link>, c: Pid, p: Pid): seq<Link>
    requires c < |t| && p < |t| && 0 <= t[c].next < |t|
  {
    var a := t[p := Link(t[c].next, c)];
    var b := a[t[c].next := a[t[c].next].(prev := p)];
    b[c := b[c].(next := p)]
  }

  // sched.c:74-77, loader.c:145-151: p leaves its list.
  function Unlink(t: seq<Link>, p: Pid): seq<Link>
    requires p < |t| && 0 <= t[p].next < |t| && 0 <= t[p].prev < |t|
  {
    var a := t[t[p].next := t[t[p].next].(prev := t[p].prev)];
    var b := a[t[p].prev := a[t[p].prev].(next := t[p].next)];
    b[p := NOWHERE]
  }

  lemma UnlinkedHead(t: seq<Link>, r: seq<Pid>)
    requires Circle(t, r) && Distinct(r) && r != []
    ensures r[0] < |t| && t[r[0]] == Link(if |r| == 1 then r[0] else r[1], r[|r| - 1])
    ensures 0 <= t[r[0]].next < |t| && 0 <= t[r[0]].prev < |t|
    ensures Circle(Unlink(t, r[0]), r[1..])
  {
    assert Joined(t, r, 0) && Joined(t, r, |r| - 1);
    if |r| > 1 { assert Joined(t, r, 1); }
    var u, s := Unlink(t, r[0]), r[1..];
    forall i | 0 <= i < |s| ensures Joined(u, s, i) { assert Joined(t, r, i + 1); }
  }

  // loader.c:121-133: c goes to the end of the list whose head is q.
  function Append(t: seq<Link>, q: int, c: Pid): seq<Link>
    requires c < |t| && (q == -1 || (0 <= q < |t| && 0 <= t[q].prev < |t|))
  {
    if q == -1 then t[c := Link(c, c)]
    else
      var a := t[t[q].prev := t[t[q].prev].(next := c)];
      a[q := a[q].(prev := c)][c := Link(q, t[q].prev)]
  }

  lemma Appended(t: seq<Link>, r: seq<Pid>, c: Pid)
    requires Circle(t, r) && Distinct(r) && c < |t| && c !in r
    ensures r != [] ==> r[0] < |t| && t[r[0]].prev == r[|r| - 1] < |t|
    ensures Circle(Append(t, Head(r), c), r + [c])
  {
    var s := r + [c];
    if r == [] {
      assert Joined(Append(t, -1, c), s, 0);
    } else {
      assert Joined(t, r, 0) && Joined(t, r, |r| - 1);
      var u := Append(t, r[0], c);
      forall i | 0 <= i < |s| ensures Joined(u, s, i) {
        if i < |r| { assert Joined(t, r, i); }
      }
    }
  }

  // A circle read from its second element, and from its last.
  lemma FromSecond(t: seq<Link>, r: seq<Pid>)
    requires Circle(t, r) && r != []
    ensures Circle(t, r[1..] + [r[0]]) && r[0] < |t| && t[r[0]].next == (r[1..] + [r[0]])[0]
  {
    var s := r[1..] + [r[0]];
    assert Joined(t, r, 0);
    forall i | 0 <= i < |s| ensures Joined(t, s, i) {
      var j := if i + 1 == |r| then 0 else i + 1;
      assert Joined(t, r, j);
    }
  }

  lemma FromLast(t: seq<Link>, s: seq<Pid>, x: Pid)
    requires Circle(t, s + [x])
    ensures Circle(t, [x] + s)
  {
    var r, u := s + [x], [x] + s;
    forall i | 0 <= i < |u| ensures Joined(t, u, i) {
      var j := if i == 0 then |s| else i - 1;
      assert Joined(t, r, j);
    }
  }

  lemma InsertedAfter(t: seq<Link>, r: seq<Pid>, p: Pid)
    requires Circle(t, r) && Distinct(r) && r != [] && p < |t| && p !in r
    ensures r[0] < |t| && 0 <= t[r[0]].next < |t|
    ensures Circle(InsertAfter(t, r[0], p), [r[0], p] + r[1..])
  {
    var x := r[1..] + [r[0]];
    FromSecond(t, r);
    Appended(t, x, p);
    assert Joined(t, r, 0);
    var u := InsertAfter(t, r[0], p);
    assert u == Append(t, x[0], p);
    FromLast(u, x, p);
    assert [p] + x == ([p] + r[1..]) + [r[0]];
    FromLast(u, [p] + r[1..], r[0]);
    assert [r[0]] + ([p] + r[1..]) == [r[0], p] + r[1..];
  }

  // ---------------------------------------------------------------- the free list

  ghost predicate Chain(next: seq<int>, head: int, r: seq<Pid>) {
    && head == Head(r)
    && (forall i | 0 <= i < |r| :: r[i] < |next|)
    && (forall i {:trigger next[r[i]]} | 0 <= i < |r| :: next[r[i]] == if i + 1 == |r| then -1 else r[i + 1])
  }

  // Taking the first free pid, and putting one back (loader.c:173-182).
  lemma ChainTaken(next: seq<int>, head: int, r: seq<Pid>)
    requires Chain(next, head, r) && r != []
    ensures Chain(next, next[head], r[1..])
  {
    assert next[r[0]] == if 1 == |r| then -1 else r[1];
    var s := r[1..];
    forall i | 0 <= i < |s| ensures s[i] < |next| && next[s[i]] == if i + 1 == |s| then -1 else s[i + 1] {
      assert s[i] == r[i + 1];
    }
  }

  lemma ChainPut(next: seq<int>, head: int, r: seq<Pid>, p: Pid)
    requires Chain(next, head, r) && p < |next| && p !in r
    ensures Chain(next[p := head], p, [p] + r)
  {
  }

  // A chain never comes back: no pid is in it twice.
  lemma {:induction false} ChainAcyclic(next: seq<int>, head: int, r: seq<Pid>, i: nat, j: nat)
    requires Chain(next, head, r) && i < j < |r|
    ensures r[i] != r[j]
    decreases |r| - j
  {
    assert next[r[i]] == r[i + 1] && next[r[j]] == if j + 1 == |r| then -1 else r[j + 1];
    if j + 1 < |r| { ChainAcyclic(next, head, r, i + 1, j + 1); }
  }

  // Head and links leave no choice of chain.
  lemma {:induction false} ChainIsOne(next: seq<int>, head: int, r: seq<Pid>, s: seq<Pid>)
    requires Chain(next, head, r) && Chain(next, head, s)
    ensures r == s
    decreases |r|
  {
    if r != [] && s != [] {
      ChainTaken(next, head, r);
      ChainTaken(next, head, s);
      ChainIsOne(next, next[head], r[1..], s[1..]);
      assert r == [r[0]] + r[1..] && s == [s[0]] + s[1..];
    }
  }
}
