/** Count maps over a queue of items: each item contributes one to the key it has, if it has one. */
module Tally {
  import opened Common

  function Occurs<T, K(==)>(q: seq<T>, key: T -> Option<K>, k: K): nat {
    if q == [] then 0 else Occurs(q[1..], key, k) + if key(q[0]) == Some(k) then 1 else 0
  }

  ghost predicate CountsAt<T, K>(m: map<K, int>, q: seq<T>, key: T -> Option<K>, k: K) {
    if Occurs(q, key, k) > 0 then k in m && m[k] == Occurs(q, key, k) else k !in m
  }

  /** The map holds exactly the multiplicity of every key in the queue, and no other entry. */
  ghost predicate Counts<T, K(!new)>(m: map<K, int>, q: seq<T>, key: T -> Option<K>) {
    forall k :: CountsAt(m, q, key, k)
  }

  /** operator[] followed by an increment. */
  function Bump<K>(m: map<K, int>, k: K): map<K, int> {
    m[k := (if k in m then m[k] else 0) + 1]
  }

  /** find, then decrement, then erase at zero; nothing when there is no entry. */
  function Unbump<K>(m: map<K, int>, k: K): map<K, int> {
    if k !in m then m
    else if m[k] - 1 <= 0 then m - {k}
    else m[k := m[k] - 1]
  }

  lemma {:induction false} OccursAppend<T, K>(q: seq<T>, key: T -> Option<K>, k: K, r: T)
    ensures Occurs(q + [r], key, k) == Occurs(q, key, k) + if key(r) == Some(k) then 1 else 0
  {
    if q == [] {
      assert (q + [r])[1..] == [];
    } else {
      OccursAppend(q[1..], key, k, r);
      assert (q + [r])[1..] == q[1..] + [r];
    }
  }

  lemma BumpCounts<T, K(!new)>(m: map<K, int>, q: seq<T>, key: T -> Option<K>, r: T)
    requires Counts(m, q, key)
    ensures Counts(if key(r).Some? then Bump(m, key(r).value) else m, q + [r], key)
  {
    var m' := if key(r).Some? then Bump(m, key(r).value) else m;
    forall k ensures CountsAt(m', q + [r], key, k) {
      assert CountsAt(m, q, key, k);
      OccursAppend(q, key, k, r);
    }
  }

  lemma UnbumpCounts<T, K(!new)>(m: map<K, int>, q: seq<T>, key: T -> Option<K>)
    requires Counts(m, q, key) && q != []
    ensures Counts(if key(q[0]).Some? then Unbump(m, key(q[0]).value) else m, q[1..], key)
  {
    var m' := if key(q[0]).Some? then Unbump(m, key(q[0]).value) else m;
    forall k ensures CountsAt(m', q[1..], key, k) {
      assert CountsAt(m, q, key, k);
    }
  }

  ghost predicate MarksAt<T, K>(m: map<K, int>, h: seq<T>, key: T -> Option<K>, k: K) {
    if Occurs(h, key, k) > 0 then k in m && m[k] == 1 else k !in m
  }

  /** The map holds a one for every key that occurs at all, and no other entry. */
  ghost predicate Marks<T, K(!new)>(m: map<K, int>, h: seq<T>, key: T -> Option<K>) {
    forall k :: MarksAt(m, h, key, k)
  }

  /** What is taken out before it is entered never counts beyond one. */
  lemma RebumpMarks<T, K(!new)>(m: map<K, int>, h: seq<T>, key: T -> Option<K>, r: T)
    requires Marks(m, h, key)
    ensures Marks(if key(r).Some? then Bump(Unbump(m, key(r).value), key(r).value) else m, h + [r], key)
  {
    var m' := if key(r).Some? then Bump(Unbump(m, key(r).value), key(r).value) else m;
    forall k ensures MarksAt(m', h + [r], key, k) {
      assert MarksAt(m, h, key, k);
      OccursAppend(h, key, k, r);
    }
  }

  /** A positive count has a witness in the queue, and a witness makes the count positive. */
  lemma {:induction false} OccursWitness<T, K>(q: seq<T>, key: T -> Option<K>, k: K)
    ensures Occurs(q, key, k) > 0 <==> exists r :: r in q && key(r) == Some(k)
  {
    if q != [] {
      OccursWitness(q[1..], key, k);
      assert q == [q[0]] + q[1..];
    }
  }

  // ------------------------------------------------------------------- sums

  /** How many items have their key in the set. */
  function Within<T, K(==)>(q: seq<T>, key: T -> Option<K>, keys: set<K>): nat {
    if q == [] then 0
    else Within(q[1..], key, keys) + if key(q[0]).Some? && key(q[0]).value in keys then 1 else 0
  }

  lemma {:induction false} WithinOneMore<T, K>(q: seq<T>, key: T -> Option<K>, keys: set<K>, k: K)
    requires k !in keys
    ensures Within(q, key, keys + {k}) == Within(q, key, keys) + Occurs(q, key, k)
  {
    if q != [] { WithinOneMore(q[1..], key, keys, k); }
  }

  lemma {:induction false} WithinNone<T, K>(q: seq<T>, key: T -> Option<K>)
    ensures Within(q, key, {}) == 0
  {
    if q != [] { WithinNone(q[1..], key); }
  }

  ghost function Pick<T>(s: set<T>): (x: T)
    requires s != {}
    ensures x in s
  {
    var x :| x in s;
    x
  }

  /** The values of a map under the given keys, added up. */
  ghost function SumValues<K>(m: map<K, int>, keys: set<K>): int
    requires keys <= m.Keys
  {
    if keys == {} then 0 else
      var k := Pick(keys);
      m[k] + SumValues(m, keys - {k})
  }

  /** The values of a count map add up to the number of items with one of the keys. */
  lemma {:induction false} SumValuesIsWithin<T, K(!new)>(m: map<K, int>, q: seq<T>, key: T -> Option<K>, keys: set<K>)
    requires Counts(m, q, key) && keys <= m.Keys
    ensures SumValues(m, keys) == Within(q, key, keys)
    decreases keys
  {
    if keys == {} {
      WithinNone(q, key);
    } else {
      var k := Pick(keys);
      SumValuesIsWithin(m, q, key, keys - {k});
      WithinOneMore(q, key, keys - {k}, k);
      assert (keys - {k}) + {k} == keys;
      assert CountsAt(m, q, key, k);
    }
  }

  /** How many items have a key at all. */
  function Keyed<T, K>(q: seq<T>, key: T -> Option<K>): nat {
    if q == [] then 0 else Keyed(q[1..], key) + if key(q[0]).Some? then 1 else 0
  }

  lemma {:induction false} WithinAll<T, K>(q: seq<T>, key: T -> Option<K>, keys: set<K>)
    requires forall r :: r in q && key(r).Some? ==> key(r).value in keys
    ensures Within(q, key, keys) == Keyed(q, key)
    ensures (forall r :: r in q ==> key(r).Some?) ==> Keyed(q, key) == |q|
  {
    if q != [] { WithinAll(q[1..], key, keys); }
  }

  /** A whole count map adds up to the number of items that have a key. */
  lemma SumOfAll<T, K(!new)>(m: map<K, int>, q: seq<T>, key: T -> Option<K>)
    requires Counts(m, q, key)
    ensures SumValues(m, m.Keys) == Keyed(q, key)
    ensures (forall r :: r in q ==> key(r).Some?) ==> SumValues(m, m.Keys) == |q|
  {
    SumValuesIsWithin(m, q, key, m.Keys);
    forall r | r in q && key(r).Some? ensures key(r).value in m.Keys {
      assert CountsAt(m, q, key, key(r).value);
      OccursWitness(q, key, key(r).value);
    }
    WithinAll(q, key, m.Keys);
  }
}
