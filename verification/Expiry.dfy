/** Queues in arrival order from whose front stale items are popped. `ts` gives an item its time stamp;
  an item is stale when it is older than the cutoff. */
module Expiry {

  /** Where popping from the front stops. */
  function FirstFresh<T>(q: seq<T>, ts: T -> int, cutoff: int): (k: nat)
    ensures k <= |q|
    ensures forall i :: 0 <= i < k ==> ts(q[i]) < cutoff
    ensures k < |q| ==> ts(q[k]) >= cutoff
  {
    if q == [] || ts(q[0]) >= cutoff then 0 else
      var k := FirstFresh(q[1..], ts, cutoff);
      assert forall i :: 0 < i < k + 1 ==> q[i] == q[1..][i - 1];
      k + 1
  }

  function DropStale<T>(q: seq<T>, ts: T -> int, cutoff: int): seq<T> {
    q[FirstFresh(q, ts, cutoff)..]
  }

  ghost predicate Sorted<T>(q: seq<T>, ts: T -> int) {
    forall i, j :: 0 <= i < j < |q| ==> ts(q[i]) <= ts(q[j])
  }

  /** All items that are not stale, wherever they stand. */
  function Fresh<T>(q: seq<T>, ts: T -> int, cutoff: int): seq<T> {
    if q == [] then []
    else Fresh(q[..|q| - 1], ts, cutoff) + if ts(q[|q| - 1]) >= cutoff then [q[|q| - 1]] else []
  }

  lemma FirstFreshUnique<T>(q: seq<T>, ts: T -> int, cutoff: int, k: nat)
    requires k <= |q| && forall i :: 0 <= i < k ==> ts(q[i]) < cutoff
    requires k < |q| ==> ts(q[k]) >= cutoff
    ensures FirstFresh(q, ts, cutoff) == k && DropStale(q, ts, cutoff) == q[k..]
  {
  }

  /** Popping with an older cutoff first makes no difference. */
  lemma DropTwice<T>(q: seq<T>, ts: T -> int, c1: int, c2: int, tail: seq<T>)
    requires c1 <= c2
    ensures DropStale(DropStale(q, ts, c1) + tail, ts, c2) == DropStale(q + tail, ts, c2)
  {
    hide FirstFresh;
    var k := FirstFresh(q, ts, c1);
    var rest := q[k..] + tail;
    var j := FirstFresh(rest, ts, c2);
    var all := q + tail;
    assert forall i :: 0 <= i < |rest| ==> rest[i] == all[k + i];
    forall i | 0 <= i < k + j ensures ts(all[i]) < c2 {
      if i >= k { assert all[i] == rest[i - k]; }
    }
    FirstFreshUnique(all, ts, c2, k + j);
    assert all[k + j..] == rest[j..];
  }

  lemma {:induction false} NoneFresh<T>(q: seq<T>, ts: T -> int, cutoff: int)
    requires forall i :: 0 <= i < |q| ==> ts(q[i]) < cutoff
    ensures Fresh(q, ts, cutoff) == []
  {
    if q != [] { NoneFresh(q[..|q| - 1], ts, cutoff); }
  }

  lemma {:induction false} AllFresh<T>(q: seq<T>, ts: T -> int, cutoff: int)
    requires forall i :: 0 <= i < |q| ==> ts(q[i]) >= cutoff
    ensures Fresh(q, ts, cutoff) == q
  {
    if q != [] {
      AllFresh(q[..|q| - 1], ts, cutoff);
      assert q == q[..|q| - 1] + [q[|q| - 1]];
    }
  }

  lemma {:induction false} FreshAppend<T>(a: seq<T>, b: seq<T>, ts: T -> int, cutoff: int)
    ensures Fresh(a + b, ts, cutoff) == Fresh(a, ts, cutoff) + Fresh(b, ts, cutoff)
  {
    if b == [] {
      assert a + b == a;
    } else {
      var front, last := b[..|b| - 1], b[|b| - 1];
      FreshAppend(a, front, ts, cutoff);
      assert (a + b)[..|a + b| - 1] == a + front;
    }
  }

  lemma FreshFromHere<T>(q: seq<T>, ts: T -> int, cutoff: int, k: nat)
    requires Sorted(q, ts) && k <= |q| && (k < |q| ==> ts(q[k]) >= cutoff)
    ensures forall i :: 0 <= i < |q[k..]| ==> ts(q[k..][i]) >= cutoff
  {
    forall i | 0 <= i < |q[k..]| ensures ts(q[k..][i]) >= cutoff {
      assert i > 0 ==> ts(q[k]) <= ts(q[k + i]);
    }
  }

  lemma NothingInFront<T>(q: seq<T>, ts: T -> int, cutoff: int, k: nat)
    requires k <= |q| && forall i :: 0 <= i < k ==> ts(q[i]) < cutoff
    ensures Fresh(q[..k], ts, cutoff) == []
  {
    hide Fresh;
    NoneFresh(q[..k], ts, cutoff);
  }

  lemma EverythingBehind<T>(q: seq<T>, ts: T -> int, cutoff: int, k: nat)
    requires Sorted(q, ts) && k <= |q| && (k < |q| ==> ts(q[k]) >= cutoff)
    ensures Fresh(q[k..], ts, cutoff) == q[k..]
  {
    hide Fresh, Sorted;
    FreshFromHere(q, ts, cutoff, k);
    AllFresh(q[k..], ts, cutoff);
  }

  /** In arrival order of time stamps, popping the front removes exactly the stale items. */
  lemma SortedDropIsFresh<T>(q: seq<T>, ts: T -> int, cutoff: int)
    requires Sorted(q, ts)
    ensures DropStale(q, ts, cutoff) == Fresh(q, ts, cutoff)
  {
    hide Fresh, FirstFresh, Sorted;
    var k := FirstFresh(q, ts, cutoff);
    NothingInFront(q, ts, cutoff, k);
    EverythingBehind(q, ts, cutoff, k);
    FreshAppend(q[..k], q[k..], ts, cutoff);
    assert q == q[..k] + q[k..];
  }

  lemma SortedPrefix<T>(q: seq<T>, ts: T -> int, n: nat)
    requires Sorted(q, ts) && n <= |q|
    ensures Sorted(q[..n], ts)
  {
  }
}
