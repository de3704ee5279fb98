/** Options and the few facts about sequences that the models below share. */
module Sequences {

  datatype Option<+T> = None | Some(value: T) {
    function GetOr(default: T): T {
      match this
      case Some(v) => v
      case None => default
    }
  }

  /** No value occurs at two positions. */
  ghost predicate Distinct<T>(s: seq<T>) {
    forall i, j :: 0 <= i < j < |s| ==> s[i] != s[j]
  }

  lemma DistinctSnoc<T>(s: seq<T>, x: T)
    ensures Distinct(s + [x]) <==> Distinct(s) && x !in s
  {
    var all := s + [x];
    assert all[|s|] == x && forall i :: 0 <= i < |s| ==> all[i] == s[i];
  }

  /** JavaScript's `s.slice(-n)` for a positive n. */
  function LastN<T>(s: seq<T>, n: nat): seq<T> {
    if |s| <= n then s else s[|s| - n..]
  }

  /** The window counts from the same end. */
  lemma LastNFromEnd<T>(s: seq<T>, n: nat, t: nat)
    requires t < n && t < |s|
    ensures t < |LastN(s, n)| && LastN(s, n)[|LastN(s, n)| - 1 - t] == s[|s| - 1 - t]
  {
  }

  /** Both sequences have a t-th value from the end, the same one. */
  ghost predicate SameFromEnd<T>(a: seq<T>, b: seq<T>, t: nat) {
    t < |a| && t < |b| && a[|a| - 1 - t] == b[|b| - 1 - t]
  }

  /** Sequences with the same values from the end have the same window. */
  lemma LastNSameEnd<T>(a: seq<T>, b: seq<T>, n: nat)
    requires |a| <= |b| && forall t: nat :: t < n && t < |b| ==> SameFromEnd(a, b, t)
    ensures LastN(a, n) == LastN(b, n)
  {
    var x, y := LastN(a, n), LastN(b, n);
    if n > 0 && |b| > 0 {
      assert SameFromEnd(a, b, (if n < |b| then n else |b|) - 1);
    }
    forall i | 0 <= i < |x|
      ensures x[i] == y[i]
    {
      assert SameFromEnd(a, b, |x| - 1 - i);
      LastNFromEnd(a, n, |x| - 1 - i);
      LastNFromEnd(b, n, |x| - 1 - i);
    }
  }

  /** And conversely. */
  lemma SameWindowSameEnd<T>(a: seq<T>, b: seq<T>, n: nat, t: nat)
    requires LastN(a, n) == LastN(b, n) && t < n && t < |b|
    ensures SameFromEnd(a, b, t)
  {
    LastNFromEnd(b, n, t);
    assert t < |LastN(a, n)| <= |a|;
    LastNFromEnd(a, n, t);
  }

  /** JavaScript's `s.slice(0, n)`. */
  function FirstN<T>(s: seq<T>, n: nat): seq<T> {
    if |s| <= n then s else s[..n]
  }

  /** Capping after every append keeps the same window as capping once at the end. */
  lemma LastNAppend<T>(s: seq<T>, x: T, n: nat)
    ensures LastN(LastN(s, n) + [x], n) == LastN(s + [x], n)
  {
    if |s| > n {
      assert LastN(s, n) + [x] == (s + [x])[|s| - n..];
    }
  }

  /** Capping after every prepend keeps the same window as capping once at the end. */
  lemma FirstNPrepend<T>(s: seq<T>, x: T, n: nat)
    requires 0 < n
    ensures FirstN([x] + FirstN(s, n), n) == FirstN([x] + s, n)
  {
    if |s| > n {
      assert ([x] + FirstN(s, n))[..n] == ([x] + s)[..n];
    }
  }

  function Map<T, U>(f: T -> U, s: seq<T>): (r: seq<U>)
    ensures |r| == |s| && forall i :: 0 <= i < |s| ==> r[i] == f(s[i])
  {
    seq(|s|, i requires 0 <= i < |s| => f(s[i]))
  }

  // ----- what a filter keeps ------------------------------------------------------------------------

  /** `kept` holds the values at exactly these positions, in their order. */
  ghost predicate Keeps<T>(all: seq<T>, kept: seq<T>, at: set<nat>) {
    exists order: seq<nat> :: KeepsInOrder(all, kept, at, order)
  }

  ghost predicate KeepsInOrder<T>(all: seq<T>, kept: seq<T>, at: set<nat>, order: seq<nat>) {
    && |order| == |kept|
    && (forall i, j :: 0 <= i < j < |order| ==> order[i] < order[j])
    && (forall i :: 0 <= i < |order| ==> order[i] < |all| && kept[i] == all[order[i]])
    && (forall k :: k in at <==> k in order)
  }

  lemma KeepsNothing<T>(all: seq<T>, at: set<nat>)
    requires forall k :: k !in at
    ensures Keeps(all, [], at)
  {
    assert KeepsInOrder(all, [], at, []);
  }

  lemma KeepsSnoc<T>(all: seq<T>, kept: seq<T>, at: set<nat>, x: T)
    requires Keeps(all, kept, at)
    ensures Keeps(all + [x], kept, at)
    ensures Keeps(all + [x], kept + [x], at + {|all|})
  {
    var order: seq<nat> :| KeepsInOrder(all, kept, at, order);
    var more := order + [|all|];
    assert KeepsInOrder(all + [x], kept, at, order);
    assert more[|order|] == |all|;
    assert forall k :: k in more <==> k in order || k == |all|;
    assert KeepsInOrder(all + [x], kept + [x], at + {|all|}, more);
  }

  /** What is kept of all values but the last, and that one if it is kept. */
  lemma KeepsLast<T>(all: seq<T>, kept: seq<T>, at: set<nat>)
    requires all != [] && Keeps(all[..|all| - 1], kept, at - {|all| - 1})
    ensures Keeps(all, if |all| - 1 in at then kept + [all[|all| - 1]] else kept, at)
  {
    KeepsSnoc(all[..|all| - 1], kept, at - {|all| - 1}, all[|all| - 1]);
    assert all == all[..|all| - 1] + [all[|all| - 1]];
    assert |all| - 1 in at ==> at == at - {|all| - 1} + {|all| - 1};
    assert |all| - 1 !in at ==> at == at - {|all| - 1};
  }

  /** One position is filled by one value. */
  lemma KeepsValues<T>(all: seq<T>, kept: seq<T>, at: set<nat>)
    requires Keeps(all, kept, at)
    ensures |kept| == |at|
    ensures forall k :: k in at ==> k < |all| && all[k] in kept
    ensures forall x :: x in kept ==> exists k :: k in at && k < |all| && all[k] == x
  {
    var order: seq<nat> :| KeepsInOrder(all, kept, at, order);
    DistinctCardinality(order);
    assert Elements(order) == at;
    forall k | k in at
      ensures k < |all| && all[k] in kept
    {
      var i :| 0 <= i < |order| && order[i] == k;
      assert kept[i] == all[k];
    }
    forall x | x in kept
      ensures exists k :: k in at && k < |all| && all[k] == x
    {
      var i :| 0 <= i < |kept| && kept[i] == x;
      assert order[i] in order;
    }
  }

  /** Where a reordering of `a` holds a's last value; removing both leaves reorderings. */
  lemma SameLast<T>(a: seq<T>, b: seq<T>) returns (k: nat)
    requires a != [] && multiset(a) == multiset(b)
    ensures k < |b| && b[k] == a[|a| - 1]
    ensures multiset(a[..|a| - 1]) == multiset(b[..k] + b[k + 1..])
  {
    var front, last := a[..|a| - 1], a[|a| - 1];
    assert a == front + [last];
    assert last in multiset(b);
    k :| 0 <= k < |b| && b[k] == last;
    assert b == b[..k] + [last] + b[k + 1..];
    assert multiset(front) == multiset(a) - multiset{last};
    assert multiset(b[..k] + b[k + 1..]) == multiset(b) - multiset{last};
  }

  function Elements<T>(s: seq<T>): set<T> {
    set x | x in s
  }

  /** Distinct values fill a set of exactly their number. */
  lemma {:induction false} DistinctCardinality<T>(s: seq<T>)
    requires Distinct(s)
    ensures |Elements(s)| == |s|
  {
    if s == [] {
      assert Elements(s) == {};
    } else {
      var front, last := s[..|s| - 1], s[|s| - 1];
      DistinctCardinality(front);
      assert s == front + [last];
      assert Elements(s) == Elements(front) + {last};
      assert last !in front;
    }
  }

  /** So many applications of f. */
  function Iterate<S>(f: S -> S, s: S, n: nat): S {
    if n == 0 then s else f(Iterate(f, s, n - 1))
  }

  /** Applications before the first. */
  lemma {:induction false} IterateFirst<S>(f: S -> S, s: S, n: nat)
    ensures Iterate(f, f(s), n) == Iterate(f, s, n + 1)
  {
    if n > 0 {
      IterateFirst(f, s, n - 1);
    }
  }

  lemma IterateTwice<S>(f: S -> S, s: S, n: nat)
    ensures Iterate(f, s, n + 2) == f(f(Iterate(f, s, n)))
  {
    assert Iterate(f, s, n + 2) == f(Iterate(f, s, n + 1));
  }

  /** Applications before the first and after the last. */
  lemma IterateAround<S>(f: S -> S, s: S, n: nat)
    ensures Iterate(f, s, n + 3) == f(f(Iterate(f, f(s), n)))
  {
    IterateFirst(f, s, n + 2);
    IterateTwice(f, f(s), n);
  }

  /** A property that two applications carry from each number to the next holds of the last one. */
  lemma {:induction false} IterateCarries<S(!new)>(f: S -> S, s: S, p: (nat, S) -> bool, from: nat, upTo: nat)
    requires from <= upTo && p(from, s)
    requires forall i, t :: from <= i < upTo && p(i, t) ==> p(i + 1, f(f(t)))
    ensures p(upTo, Iterate(f, s, 2 * (upTo - from)))
    decreases upTo
  {
    if from < upTo {
      IterateCarries(f, s, p, from, upTo - 1);
    }
  }
}
