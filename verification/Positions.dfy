/** Parts of a history given by positions in it, and what popping, filtering and capping leave in these terms. */
module Positions {
  import opened Common
  import opened Expiry
  import opened Tally

  /** The items at the given positions, in order. */
  function Sub<T>(h: seq<T>, at: set<nat>): seq<T> {
    if h == [] then []
    else Sub(h[..|h| - 1], at) + if |h| - 1 in at then [h[|h| - 1]] else []
  }

  /** The positions below n. */
  function Below(at: set<nat>, n: nat): set<nat> {
    set i | i in at && i < n
  }

  lemma BelowNext(at: set<nat>, n: nat)
    ensures Below(at, n + 1) == Below(at, n) + if n in at then {n} else {}
  {
  }

  lemma {:induction false} SubLength<T>(h: seq<T>, at: set<nat>)
    ensures |Sub(h, at)| == |Below(at, |h|)|
  {
    if h == [] {
      assert Below(at, 0) == {};
    } else {
      SubLength(h[..|h| - 1], at);
      BelowNext(at, |h| - 1);
    }
  }

  lemma {:induction false} SubMembers<T>(h: seq<T>, at: set<nat>, x: T)
    ensures x in Sub(h, at) <==> exists i :: i in at && i < |h| && h[i] == x
  {
    if h != [] {
      var n := |h| - 1;
      SubMembers(h[..n], at, x);
      assert forall i :: 0 <= i < n ==> h[..n][i] == h[i];
      if i :| i in at && i < |h| && h[i] == x {
        if i < n { assert h[..n][i] == x; }
      }
    }
  }

  lemma {:induction false} SameSub<T>(h: seq<T>, a: set<nat>, b: set<nat>)
    requires Below(a, |h|) == Below(b, |h|)
    ensures Sub(h, a) == Sub(h, b)
  {
    if h != [] {
      var n := |h| - 1;
      assert n in a <==> n in Below(a, |h|);
      assert n in b <==> n in Below(b, |h|);
      assert forall i :: i in Below(a, n) <==> i in Below(a, |h|) && i < n;
      assert forall i :: i in Below(b, n) <==> i in Below(b, |h|) && i < n;
      assert Below(a, n) == Below(b, n);
      SameSub(h[..n], a, b);
    }
  }

  /** The positions of the items that have the key. */
  function Having<T, K(==)>(h: seq<T>, at: set<nat>, key: T -> Option<K>, k: K): set<nat> {
    set i | i in at && i < |h| && key(h[i]) == Some(k)
  }

  lemma HavingNext<T, K>(h: seq<T>, at: set<nat>, key: T -> Option<K>, k: K)
    requires h != []
    ensures var n := |h| - 1;
      Having(h, at, key, k) == Having(h[..n], at, key, k) + if n in at && key(h[n]) == Some(k) then {n} else {}
  {
    var n := |h| - 1;
    assert forall i :: 0 <= i < n ==> h[..n][i] == h[i];
  }

  lemma {:induction false} SubOccurs<T, K>(h: seq<T>, at: set<nat>, key: T -> Option<K>, k: K)
    ensures Occurs(Sub(h, at), key, k) == |Having(h, at, key, k)|
  {
    if h == [] {
      assert Having(h, at, key, k) == {};
    } else {
      var n := |h| - 1;
      SubOccurs(h[..n], at, key, k);
      HavingNext(h, at, key, k);
      if n in at { OccursAppend(Sub(h[..n], at), key, k, h[n]); }
      assert Sub(h[..n], at) + [] == Sub(h[..n], at);
    }
  }

  /** The positions of the items that are not stale. */
  function FreshAt<T>(h: seq<T>, at: set<nat>, ts: T -> int, cutoff: int): set<nat> {
    set i | i in at && i < |h| && ts(h[i]) >= cutoff
  }

  lemma FreshOfFront<T>(h: seq<T>, at: set<nat>, ts: T -> int, cutoff: int)
    requires h != []
    ensures var n := |h| - 1;
      Sub(h[..n], FreshAt(h[..n], at, ts, cutoff)) == Sub(h[..n], FreshAt(h, at, ts, cutoff))
  {
    var n := |h| - 1;
    assert forall i :: 0 <= i < n ==> h[..n][i] == h[i];
    assert Below(FreshAt(h[..n], at, ts, cutoff), n) == Below(FreshAt(h, at, ts, cutoff), n);
    SameSub(h[..n], FreshAt(h[..n], at, ts, cutoff), FreshAt(h, at, ts, cutoff));
  }

  lemma {:induction false} FreshIsSub<T>(h: seq<T>, at: set<nat>, ts: T -> int, cutoff: int)
    ensures Fresh(Sub(h, at), ts, cutoff) == Sub(h, FreshAt(h, at, ts, cutoff))
  {
    if h != [] {
      var n := |h| - 1;
      var front := Sub(h[..n], at);
      FreshIsSub(h[..n], at, ts, cutoff);
      FreshOfFront(h, at, ts, cutoff);
      assert (front + [h[n]])[..|front|] == front;
      assert front + [] == front;
    }
  }

  /** All positions of a history of length n. */
  function All(n: nat): (at: set<nat>)
    ensures forall i: nat :: i in at <==> i < n
  {
    if n == 0 then {} else All(n - 1) + {n - 1}
  }

  lemma {:induction false} SubOfAll<T>(h: seq<T>, n: nat)
    requires |h| <= n
    ensures Sub(h, All(n)) == h
  {
    if h != [] {
      SubOfAll(h[..|h| - 1], n);
      assert h == h[..|h| - 1] + [h[|h| - 1]];
    }
  }

  function Where<T, K(==)>(h: seq<T>, key: T -> Option<K>, k: K): set<nat> {
    set i: nat | i < |h| && key(h[i]) == Some(k)
  }

  /** The count of a key is the number of positions where it stands. */
  lemma OccursAt<T, K>(h: seq<T>, key: T -> Option<K>, k: K)
    ensures Occurs(h, key, k) == |Where(h, key, k)|
  {
    SubOfAll(h, |h|);
    SubOccurs(h, All(|h|), key, k);
    assert Having(h, All(|h|), key, k) == Where(h, key, k);
  }

  lemma FreshOfAll<T>(h: seq<T>, ts: T -> int, cutoff: int)
    ensures Fresh(h, ts, cutoff) == Sub(h, FreshAt(h, All(|h|), ts, cutoff))
  {
    SubOfAll(h, |h|);
    FreshIsSub(h, All(|h|), ts, cutoff);
  }

  /** How many of the positions lie behind i. */
  function BehindIn(at: set<nat>, n: nat, i: nat): nat {
    |set j | j in at && i < j < n|
  }

  /** The positions of the last `cap` items. */
  function LastAt(at: set<nat>, n: nat, cap: int): set<nat> {
    set i | i in at && i < n && BehindIn(at, n, i) < cap
  }

  lemma BehindNext(at: set<nat>, n: nat, i: nat)
    requires i < n
    ensures BehindIn(at, n + 1, i) == BehindIn(at, n, i) + if n in at then 1 else 0
  {
    var before, after := set j | j in at && i < j < n, set j | j in at && i < j < n + 1;
    assert after == before + if n in at then {n} else {};
  }

  lemma BehindNothing(at: set<nat>, n: nat)
    ensures BehindIn(at, n + 1, n) == 0
  {
    assert (set j | j in at && n < j < n + 1) == {};
  }

  lemma LastAtNext(at: set<nat>, n: nat, cap: int)
    ensures LastAt(at, n + 1, cap) ==
      if n !in at then LastAt(at, n, cap)
      else if cap <= 0 then {}
      else LastAt(at, n, cap - 1) + {n}
  {
    hide BehindIn;
    BehindNothing(at, n);
    forall i | i in at && i < n
      ensures BehindIn(at, n + 1, i) == BehindIn(at, n, i) + if n in at then 1 else 0
    {
      BehindNext(at, n, i);
    }
  }
}
