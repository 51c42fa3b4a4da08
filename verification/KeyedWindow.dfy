/** Log records and findings of the original project. */
module OriginalRecords {
  datatype LogRecord = LogRecord(
    ts: int,
    srcIp: string,
    dstIp: string,
    dstPort: int,
    protocol: string,
    action: string,
    status: string,
    bytes: int,
    username: string)

  datatype Finding = Finding(kind: string, key: string, details: string, ts: int)

  function Ts(r: LogRecord): int { r.ts }
}

/** One capped queue of records for every key; eviction pops the stale records of all keys. */
module KeyedWindow {
  import opened Common
  import opened Expiry
  import opened OriginalRecords
  import opened Positions

  type Records = seq<LogRecord>

  datatype Op = Add(r: LogRecord, key: string) | Evict(now: int)

  function TimeOf(op: Op): int {
    match op
    case Add(r, _) => r.ts
    case Evict(now) => now
  }

  /** Push to the back, then pop one from the front if there are too many. */
  function Capped(q: Records, cap: int): Records {
    if |q| > cap && q != [] then q[1..] else q
  }

  /** What one operation makes of the queue of the key k. */
  function Apply(q: Records, op: Op, k: string, cap: int, span: int): Records {
    match op
    case Add(r, key) => if key == k then Capped(q + [r], cap) else q
    case Evict(now) => DropStale(q, Ts, now - span)
  }

  function Content(ops: seq<Op>, k: string, cap: int, span: int): Records {
    if ops == [] then []
    else Apply(Content(ops[..|ops| - 1], k, cap, span), ops[|ops| - 1], k, cap, span)
  }

  // ------------------------------------------------------------ closed form

  /** All records ever added under a key. */
  function Added(ops: seq<Op>, k: string): Records {
    if ops == [] then []
    else
      var op := ops[|ops| - 1];
      Added(ops[..|ops| - 1], k) + if op.Add? && op.key == k then [op.r] else []
  }

  function Max0(n: int): nat { if n < 0 then 0 else n }

  function Last(s: Records, n: int): Records {
    if |s| <= n then s else s[|s| - Max0(n)..]
  }

  lemma LastNext(q: Records, r: LogRecord, n: int)
    ensures Last(q + [r], n) == if n <= 0 then [] else Last(q, n - 1) + [r]
  {
  }

  lemma NoPositions(h: Records)
    ensures Sub(h, {}) == []
  {
  }

  lemma LastOfNothing(n: int)
    ensures Last([], n) == []
  {
  }

  lemma LastBelow(at: set<nat>, m: nat, n: int)
    ensures m !in LastAt(at, m, n) && Below(LastAt(at, m, n), m) == Below(LastAt(at, m, n) + {m}, m)
  {
  }

  /** The last n of the records at some positions are those with fewer than n of these positions behind them. */
  lemma {:induction false} LastIsSub(h: Records, at: set<nat>, n: int)
    ensures Last(Sub(h, at), n) == Sub(h, LastAt(at, |h|, n))
  {
    hide Last, LastAt;
    if h == [] {
      assert Last([], n) == [] by { LastOfNothing(n); }
    } else {
      var m := |h| - 1;
      var front := h[..m];
      LastAtNext(at, m, n);
      if m !in at {
        LastIsSub(front, at, n);
        assert Sub(front, at) + [] == Sub(front, at);
        LastBelow(at, m, n);
      } else {
        LastNext(Sub(front, at), h[m], n);
        if n <= 0 {
          NoPositions(h);
        } else {
          LastIsSub(front, at, n - 1);
          LastBelow(at, m, n - 1);
          SameSub(front, LastAt(at, m, n - 1), LastAt(at, m, n - 1) + {m});
        }
      }
    }
  }

  /** The last n records: a suffix of n records, or all of them if there are fewer. */
  lemma LastMeans(s: Records, n: int)
    ensures |Last(s, n)| == if n <= 0 then 0 else if n < |s| then n else |s|
    ensures Last(s, n) == s[|s| - |Last(s, n)|..]
  {
  }

  /** The cutoff of the most recent eviction. */
  function Cutoff(ops: seq<Op>, span: int): Option<int> {
    if ops == [] then None
    else if ops[|ops| - 1].Evict? then Some(ops[|ops| - 1].now - span)
    else Cutoff(ops[..|ops| - 1], span)
  }

  ghost predicate TimeOrdered(ops: seq<Op>) {
    forall i, j :: 0 <= i < j < |ops| ==> TimeOf(ops[i]) <= TimeOf(ops[j])
  }

  predicate Stale(r: LogRecord, cutoff: Option<int>) {
    cutoff.Some? && r.ts < cutoff.value
  }

  /** The queue is a suffix of the records added, within the cap, and of the last `cap` records
    only stale ones are missing. */
  ghost predicate Tail(q: Records, added: Records, cap: int, cutoff: Option<int>) {
    && |q| <= |added| && |q| <= Max0(cap)
    && q == added[|added| - |q|..]
    && forall i :: 0 <= i < |added| - |q| && |added| - Max0(cap) <= i ==> Stale(added[i], cutoff)
  }

  lemma AddKeepsTail(q: Records, added: Records, r: LogRecord, cap: int, cutoff: Option<int>)
    requires Tail(q, added, cap, cutoff)
    ensures Tail(Capped(q + [r], cap), added + [r], cap, cutoff)
  {
    var all := added + [r];
    assert q + [r] == all[|added| - |q|..];
    forall i | 0 <= i < |added| - |q| && |added| - Max0(cap) <= i ensures Stale(all[i], cutoff) {
      assert Stale(added[i], cutoff);
    }
  }

  lemma EvictKeepsTail(q: Records, added: Records, cap: int, cutoff: Option<int>, c: int)
    requires Tail(q, added, cap, cutoff) && (cutoff.Some? ==> cutoff.value <= c)
    ensures Tail(DropStale(q, Ts, c), added, cap, Some(c))
  {
    hide FirstFresh;
    var k := FirstFresh(q, Ts, c);
    var gone := |added| - |q|;
    assert q[k..] == added[gone + k..];
    forall i | 0 <= i < gone + k && |added| - Max0(cap) <= i ensures Stale(added[i], Some(c)) {
      if i < gone {
        assert Stale(added[i], cutoff);
      } else {
        assert Ts(q[i - gone]) < c;
      }
    }
  }

  lemma {:induction false} CutoffIsPast(ops: seq<Op>, span: int, now: int)
    requires forall i :: 0 <= i < |ops| ==> TimeOf(ops[i]) <= now
    ensures Cutoff(ops, span).Some? ==> Cutoff(ops, span).value <= now - span
  {
    if ops != [] && !ops[|ops| - 1].Evict? { CutoffIsPast(ops[..|ops| - 1], span, now); }
  }

  lemma EmptyTail(cap: int)
    ensures Tail([], [], cap, None)
  {
  }

  lemma {:induction false} ContentIsTail(ops: seq<Op>, k: string, cap: int, span: int)
    requires TimeOrdered(ops)
    ensures Tail(Content(ops, k, cap, span), Added(ops, k), cap, Cutoff(ops, span))
  {
    hide Tail, DropStale, Capped;
    if ops == [] {
      EmptyTail(cap);
    } else {
      var front, op := ops[..|ops| - 1], ops[|ops| - 1];
      ContentIsTail(front, k, cap, span);
      var q := Content(front, k, cap, span);
      match op
      case Add(r, key) =>
        if key == k { AddKeepsTail(q, Added(front, k), r, cap, Cutoff(front, span)); }
        else { assert Added(ops, k) == Added(front, k); }
      case Evict(now) =>
        CutoffIsPast(front, span, now);
        assert Added(ops, k) == Added(front, k);
        EvictKeepsTail(q, Added(front, k), cap, Cutoff(front, span), now - span);
    }
  }

  /** Dropping the stale records of the queue gives what the last `cap` records, filtered, give. */
  lemma TailFiltered(q: Records, added: Records, cap: int, c: int)
    requires Tail(q, added, cap, Some(c)) && Sorted(added, Ts) && (q == [] || q[0].ts >= c)
    ensures q == Fresh(Last(added, cap), Ts, c)
  {
    hide Fresh;
    var last := Last(added, cap);
    var from := |added| - |last|;
    var a, b := added[from..|added| - |q|], q;
    assert last == a + b;
    FreshAppend(a, b, Ts, c);
    forall i | 0 <= i < |a| ensures Ts(a[i]) < c {
      assert Stale(added[from + i], Some(c));
    }
    NoneFresh(a, Ts, c);
    forall i | 0 <= i < |b| ensures Ts(b[i]) >= c {
      assert i > 0 ==> Ts(added[|added| - |q|]) <= Ts(added[|added| - |q| + i]);
    }
    AllFresh(b, Ts, c);
    assert [] + b == b;
  }

  lemma {:induction false} AddedSorted(ops: seq<Op>, k: string, now: int)
    requires TimeOrdered(ops) && forall i :: 0 <= i < |ops| ==> TimeOf(ops[i]) <= now
    ensures Sorted(Added(ops, k), Ts) && forall i :: 0 <= i < |Added(ops, k)| ==> Added(ops, k)[i].ts <= now
  {
    if ops != [] {
      AddedSorted(ops[..|ops| - 1], k, TimeOf(ops[|ops| - 1]));
    }
  }

  lemma NoneAfterLast(ops: seq<Op>)
    requires TimeOrdered(ops) && ops != []
    ensures forall i :: 0 <= i < |ops| ==> TimeOf(ops[i]) <= TimeOf(ops[|ops| - 1])
  {
  }

  lemma FrontIsFresh(ops: seq<Op>, k: string, cap: int, span: int)
    requires ops != [] && ops[|ops| - 1].Evict?
    ensures var q := Content(ops, k, cap, span); q == [] || q[0].ts >= ops[|ops| - 1].now - span
  {
    hide FirstFresh;
    var c := ops[|ops| - 1].now - span;
    var before := Content(ops[..|ops| - 1], k, cap, span);
    var at := FirstFresh(before, Ts, c);
    assert Content(ops, k, cap, span) == before[at..];
    assert at < |before| ==> Ts(before[at]) >= c;
  }

  /** For operations in time order, whatever their interleaving over many keys: after an eviction the queue
    of a key holds, of the last `cap` records ever added under it, those within the span. */
  lemma ClosedForm(ops: seq<Op>, k: string, cap: int, span: int)
    requires TimeOrdered(ops) && ops != [] && ops[|ops| - 1].Evict?
    ensures Content(ops, k, cap, span) == Fresh(Last(Added(ops, k), cap), Ts, ops[|ops| - 1].now - span)
  {
    hide Tail, Fresh, Last, FirstFresh, Content, Added, TimeOrdered;
    var now := ops[|ops| - 1].now;
    NoneAfterLast(ops);
    ContentIsTail(ops, k, cap, span);
    AddedSorted(ops, k, now);
    FrontIsFresh(ops, k, cap, span);
    TailFiltered(Content(ops, k, cap, span), Added(ops, k), cap, now - span);
  }

  // ---------------------------------------------------------------- the class

  lemma NothingToDrop(c: int)
    ensures DropStale([], Ts, c) == []
  {
  }

  lemma ContentAfterAdd(ops: seq<Op>, r: LogRecord, key: string, k: string, cap: int, span: int)
    ensures var q := Content(ops, k, cap, span);
      Content(ops + [Op.Add(r, key)], k, cap, span) == if key == k then Capped(q + [r], cap) else q
  {
    hide Capped;
    assert (ops + [Op.Add(r, key)])[..|ops|] == ops;
  }

  lemma CappedNow(q: Records, cap: int)
    requires q != []
    ensures Capped(q, cap) == if |q| > cap then q[1..] else q
  {
  }

  class KeyedSlidingWindow {
    const span: int
    const cap: int
    var data: map<string, Records>
    ghost var ops: seq<Op>

    constructor (span: int, cap: int)
      ensures Valid() && ops == [] && this.span == span && this.cap == cap
    {
      this.span, this.cap := span, cap;
      data, ops := map[], [];
    }

    /** The records stored under a key, none if it has no entry. */
    function Stored(key: string): Records
      reads this
    {
      if key in data then data[key] else []
    }

    /** Every queue is what the operations so far make of it. */
    ghost predicate Valid()
      reads this
    {
      forall k :: Stored(k) == Content(ops, k, cap, span)
    }

    method Add(r: LogRecord, key: string)
      requires Valid()
      modifies this
      ensures Valid() && ops == old(ops) + [Op.Add(r, key)]
    {
      hide Content, Capped;
      ghost var before, op := ops, Op.Add(r, key);
      var dq := (if key in data then data[key] else []) + [r];
      CappedNow(dq, cap);
      if |dq| > cap { dq := dq[1..]; }
      data := data[key := dq];
      ops := ops + [op];
      forall k ensures Stored(k) == Content(ops, k, cap, span) {
        assert old(Stored(k)) == Content(before, k, cap, span);
        ContentAfterAdd(before, r, key, k, cap, span);
      }
    }

    method PopStale(q: Records, now: int) returns (dq: Records)
      ensures dq == DropStale(q, Ts, now - span)
    {
      dq := q;
      ghost var p := 0;
      while dq != [] && now - dq[0].ts > span
        invariant p <= |q| && dq == q[p..]
        invariant forall i :: 0 <= i < p ==> Ts(q[i]) < now - span
        decreases |dq|
      {
        dq := dq[1..];
        p := p + 1;
      }
      FirstFreshUnique(q, Ts, now - span, p);
    }

    /** Goes over all keys and pops the stale records of each. */
    method Evict(now: int)
      requires Valid()
      modifies this
      ensures Valid() && ops == old(ops) + [Op.Evict(now)]
    {
      hide DropStale;
      var todo := data.Keys;
      while todo != {}
        invariant todo <= data.Keys == old(data.Keys) && ops == old(ops)
        invariant forall k :: k in todo ==> data[k] == old(data)[k]
        invariant forall k :: k in data.Keys - todo ==> data[k] == DropStale(old(data)[k], Ts, now - span)
        decreases |todo|
      {
        var k :| k in todo;
        todo := todo - {k};
        var dq := PopStale(data[k], now);
        data := data[k := dq];
      }
      ops := ops + [Op.Evict(now)];
      assert ops[..|ops| - 1] == old(ops);
      forall k ensures Stored(k) == Content(ops, k, cap, span) {
        assert old(Stored(k)) == Content(old(ops), k, cap, span);
        NothingToDrop(now - span);
      }
    }

    method Get(key: string) returns (dq: Records)
      requires Valid()
      ensures dq == Content(ops, key, cap, span)
    {
      assert Stored(key) == Content(ops, key, cap, span);
      dq := if key in data then data[key] else [];
    }
  }
}
