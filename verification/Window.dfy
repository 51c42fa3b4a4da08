/** Log records, findings and thresholds of the current version. */
module Records {
  datatype LogRecord = LogRecord(
    ts: int,
    srcIp: string,
    dstIp: string,
    srcPort: int,
    dstPort: int,
    action: string,
    status: string,
    bytes: int,
    username: string)

  function Ts(r: LogRecord): int { r.ts }
}

/** The sliding window: a queue of records and five count maps that the detectors read instead of it. */
module Window {
  import opened Common
  import opened Expiry
  import opened Records
  import opened Tally
  import opened Positions

  datatype Key3 = Key3(a: string, b: string, c: int)
  datatype Key2 = Key2(a: string, b: string)

  function TripleOf(r: LogRecord): Option<Key3> { Some(Key3(r.srcIp, r.dstIp, r.dstPort)) }
  function PairOf(r: LogRecord): Option<Key2> { Some(Key2(r.srcIp, r.dstIp)) }
  function DstOf(r: LogRecord): Option<string> { Some(r.dstIp) }
  function SrcOf(r: LogRecord): Option<string> { Some(r.srcIp) }

  predicate FailedLogin(r: LogRecord) {
    r.action == "login" && (r.status == "failed" || r.status == "fail" || r.status == "error")
  }

  function LoginOf(r: LogRecord): Option<string> {
    if FailedLogin(r) then Some(r.username) else None
  }

  /** The distinct sources among the records for one destination. */
  function Sources(q: seq<LogRecord>, dst: string): set<string> {
    set r | r in q && r.dstIp == dst :: r.srcIp
  }

  // ------------------------------------------------------- the five maps

  datatype Books = Books(
    countsDst: map<Key3, int>,
    uniqDst: map<Key2, int>,
    perDstTotal: map<string, int>,
    perSrcTotal: map<string, int>,
    authFailures: map<string, int>)

  const EMPTY: Books := Books(map[], map[], map[], map[], map[])

  function Enter(b: Books, r: LogRecord): Books {
    Books(
      Bump(b.countsDst, Key3(r.srcIp, r.dstIp, r.dstPort)),
      Bump(b.uniqDst, Key2(r.srcIp, r.dstIp)),
      Bump(b.perDstTotal, r.dstIp),
      Bump(b.perSrcTotal, r.srcIp),
      if FailedLogin(r) then Bump(b.authFailures, r.username) else b.authFailures)
  }

  function TakeOut(b: Books, r: LogRecord): Books {
    Books(
      Unbump(b.countsDst, Key3(r.srcIp, r.dstIp, r.dstPort)),
      Unbump(b.uniqDst, Key2(r.srcIp, r.dstIp)),
      Unbump(b.perDstTotal, r.dstIp),
      Unbump(b.perSrcTotal, r.srcIp),
      if FailedLogin(r) then Unbump(b.authFailures, r.username) else b.authFailures)
  }

  function TakeAll(b: Books, rs: seq<LogRecord>): Books {
    if rs == [] then b else TakeOut(TakeAll(b, rs[..|rs| - 1]), rs[|rs| - 1])
  }

  /** All five maps count the records c. */
  ghost predicate BooksCount(b: Books, c: seq<LogRecord>) {
    && Counts(b.countsDst, c, TripleOf)
    && Counts(b.uniqDst, c, PairOf)
    && Counts(b.perDstTotal, c, DstOf)
    && Counts(b.perSrcTotal, c, SrcOf)
    && Counts(b.authFailures, c, LoginOf)
  }

  /** All five maps hold a one for every key of the records h. */
  ghost predicate BooksMark(b: Books, h: seq<LogRecord>) {
    && Marks(b.countsDst, h, TripleOf)
    && Marks(b.uniqDst, h, PairOf)
    && Marks(b.perDstTotal, h, DstOf)
    && Marks(b.perSrcTotal, h, SrcOf)
    && Marks(b.authFailures, h, LoginOf)
  }

  lemma EnterCounts(b: Books, c: seq<LogRecord>, r: LogRecord)
    requires BooksCount(b, c)
    ensures BooksCount(Enter(b, r), c + [r])
  {
    hide Counts, Bump;
    BumpCounts(b.countsDst, c, TripleOf, r);
    BumpCounts(b.uniqDst, c, PairOf, r);
    BumpCounts(b.perDstTotal, c, DstOf, r);
    BumpCounts(b.perSrcTotal, c, SrcOf, r);
    BumpCounts(b.authFailures, c, LoginOf, r);
  }

  lemma TakeOutCounts(b: Books, c: seq<LogRecord>)
    requires c != [] && BooksCount(b, c)
    ensures BooksCount(TakeOut(b, c[0]), c[1..])
  {
    hide Counts, Unbump;
    UnbumpCounts(b.countsDst, c, TripleOf);
    UnbumpCounts(b.uniqDst, c, PairOf);
    UnbumpCounts(b.perDstTotal, c, DstOf);
    UnbumpCounts(b.perSrcTotal, c, SrcOf);
    UnbumpCounts(b.authFailures, c, LoginOf);
  }

  lemma {:induction false} TakeAllCounts(b: Books, c: seq<LogRecord>, k: nat)
    requires k <= |c| && BooksCount(b, c)
    ensures BooksCount(TakeAll(b, c[..k]), c[k..])
  {
    hide BooksCount, TakeOut;
    if k == 0 {
      assert c[0..] == c;
    } else {
      TakeAllCounts(b, c, k - 1);
      assert c[..k][..k - 1] == c[..k - 1];
      TakeOutCounts(TakeAll(b, c[..k - 1]), c[k - 1..]);
    }
  }

  /** The effect of one add under a negative span. */
  lemma ReenterMarks(b: Books, h: seq<LogRecord>, r: LogRecord)
    requires BooksMark(b, h)
    ensures BooksMark(Enter(TakeOut(b, r), r), h + [r])
  {
    hide Marks, Bump, Unbump;
    RebumpMarks(b.countsDst, h, TripleOf, r);
    RebumpMarks(b.uniqDst, h, PairOf, r);
    RebumpMarks(b.perDstTotal, h, DstOf, r);
    RebumpMarks(b.perSrcTotal, h, SrcOf, r);
    RebumpMarks(b.authFailures, h, LoginOf, r);
  }

  // --------------------------------------------------------- the operations

  datatype State = State(q: seq<LogRecord>, books: Books)

  /** Pops the stale records and takes them out of the maps. */
  function PruneTo(span: int, s: State, now: int): State {
    var k := FirstFresh(s.q, Ts, now - span);
    State(s.q[k..], TakeAll(s.books, s.q[..k]))
  }

  /** The record is queued, the window pruned, and only then is the record counted. */
  function AddTo(span: int, s: State, r: LogRecord): State {
    var pruned := PruneTo(span, s.(q := s.q + [r]), r.ts);
    pruned.(books := Enter(pruned.books, r))
  }

  datatype Op = Add(rec: LogRecord) | Prune(now: int)

  function Step(span: int, s: State, op: Op): State {
    match op
    case Add(r) => AddTo(span, s, r)
    case Prune(now) => PruneTo(span, s, now)
  }

  /** The passes of the popping loop in one call. */
  function StepPops(span: int, s: State, op: Op): nat {
    match op
    case Add(r) => FirstFresh(s.q + [r], Ts, r.ts - span)
    case Prune(now) => FirstFresh(s.q, Ts, now - span)
  }

  /** The window after any sequence of calls of its two operations. */
  function Run(span: int, ops: seq<Op>): State {
    if ops == [] then State([], EMPTY)
    else Step(span, Run(span, ops[..|ops| - 1]), ops[|ops| - 1])
  }

  /** The records that the calls add. */
  function Added(ops: seq<Op>): seq<LogRecord> {
    if ops == [] then []
    else Added(ops[..|ops| - 1]) + if ops[|ops| - 1].Add? then [ops[|ops| - 1].rec] else []
  }

  /** The passes of the popping loop in all these calls. */
  function Pops(span: int, ops: seq<Op>): nat {
    if ops == [] then 0
    else Pops(span, ops[..|ops| - 1]) + StepPops(span, Run(span, ops[..|ops| - 1]), ops[|ops| - 1])
  }

  lemma RunNext(span: int, ops: seq<Op>, op: Op)
    ensures var s := Run(span, ops);
      && Run(span, ops + [op]) == Step(span, s, op)
      && Pops(span, ops + [op]) == Pops(span, ops) + StepPops(span, s, op)
  {
    hide FirstFresh, TakeAll, Enter;
    assert (ops + [op])[..|ops|] == ops;
  }

  lemma AddedNext(ops: seq<Op>, op: Op)
    ensures Added(ops + [op]) == Added(ops) + if op.Add? then [op.rec] else []
  {
    assert (ops + [op])[..|ops|] == ops;
  }

  /** With a span the maps count the queue. With a negative one the queue is empty, and the maps hold a one for every
    key that was ever added. */
  ghost predicate Sound(span: int, s: State, h: seq<LogRecord>) {
    if span >= 0 then BooksCount(s.books, s.q) else s.q == [] && BooksMark(s.books, h)
  }

  lemma NewIsSound(span: int)
    ensures Sound(span, State([], EMPTY), [])
  {
  }

  lemma PruneKeepsSound(span: int, s: State, h: seq<LogRecord>, now: int)
    requires Sound(span, s, h)
    ensures Sound(span, PruneTo(span, s, now), h)
  {
    hide BooksCount, BooksMark, FirstFresh;
    if span >= 0 { TakeAllCounts(s.books, s.q, FirstFresh(s.q, Ts, now - span)); }
  }

  lemma TakeOne(b: Books, r: LogRecord)
    ensures TakeAll(b, [r]) == TakeOut(b, r)
  {
    hide TakeOut;
    assert [r][..0] == [] && TakeAll(b, []) == b;
  }

  /** With a negative span the record is popped at once, and taken out before it is entered. */
  lemma NegativeAdd(span: int, s: State, r: LogRecord)
    requires span < 0 && s.q == []
    ensures AddTo(span, s, r) == State([], Enter(TakeOut(s.books, r), r))
  {
    hide FirstFresh, Enter, TakeOut, TakeAll;
    var all := s.q + [r];
    assert all == [r];
    FirstFreshUnique(all, Ts, r.ts - span, 1);
    assert all[..1] == [r];
    TakeOne(s.books, r);
  }

  lemma AddKeepsSound(span: int, s: State, h: seq<LogRecord>, r: LogRecord)
    requires Sound(span, s, h)
    ensures Sound(span, AddTo(span, s, r), h + [r])
  {
    hide BooksCount, BooksMark, FirstFresh, Enter, TakeOut;
    var all := s.q + [r];
    var k := FirstFresh(all, Ts, r.ts - span);
    assert Ts(all[|s.q|]) == r.ts;
    if span >= 0 {
      assert k <= |s.q|;
      assert all[..k] == s.q[..k] && all[k..] == s.q[k..] + [r];
      TakeAllCounts(s.books, s.q, k);
      EnterCounts(TakeAll(s.books, s.q[..k]), s.q[k..], r);
    } else {
      NegativeAdd(span, s, r);
      ReenterMarks(s.books, h, r);
    }
  }

  lemma {:induction false} RunIsSound(span: int, ops: seq<Op>)
    ensures Sound(span, Run(span, ops), Added(ops))
  {
    hide Sound, AddTo, PruneTo;
    if ops == [] {
      NewIsSound(span);
    } else {
      var front := ops[..|ops| - 1];
      RunIsSound(span, front);
      assert Added(front) + [] == Added(front);
      match ops[|ops| - 1]
      case Add(r) => AddKeepsSound(span, Run(span, front), Added(front), r);
      case Prune(now) => PruneKeepsSound(span, Run(span, front), Added(front), now);
    }
  }

  /** The maps of a negative span count the newest record, and others, which are not in the queue. */
  lemma StrayMark(b: Books, h: seq<LogRecord>)
    requires h != [] && BooksMark(b, h)
    ensures var newest := h[|h| - 1].dstIp; newest in b.perDstTotal && b.perDstTotal[newest] == 1
    ensures !BooksCount(b, [])
  {
    var r := h[|h| - 1];
    assert h == h[..|h| - 1] + [r];
    OccursAppend(h[..|h| - 1], DstOf, r.dstIp, r);
    assert MarksAt(b.perDstTotal, h, DstOf, r.dstIp);
    assert !CountsAt(b.perDstTotal, [], DstOf, r.dstIp);
  }

  lemma MarksOfNothing(b: Books)
    requires BooksMark(b, [])
    ensures BooksCount(b, [])
  {
    forall k ensures CountsAt(b.countsDst, [], TripleOf, k) { assert MarksAt(b.countsDst, [], TripleOf, k); }
    forall k ensures CountsAt(b.uniqDst, [], PairOf, k) { assert MarksAt(b.uniqDst, [], PairOf, k); }
    forall k ensures CountsAt(b.perDstTotal, [], DstOf, k) { assert MarksAt(b.perDstTotal, [], DstOf, k); }
    forall k ensures CountsAt(b.perSrcTotal, [], SrcOf, k) { assert MarksAt(b.perSrcTotal, [], SrcOf, k); }
    forall k ensures CountsAt(b.authFailures, [], LoginOf, k) { assert MarksAt(b.authFailures, [], LoginOf, k); }
  }

  /** After any sequence of adds and prunes, with time stamps in any order: the five maps hold exactly the multiplicities
    of the queue if and only if the span is not negative or nothing has been added. */
  lemma MapsAgreeWithQueue(span: int, ops: seq<Op>)
    ensures BooksCount(Run(span, ops).books, Run(span, ops).q) <==> span >= 0 || Added(ops) == []
  {
    hide Run;
    RunIsSound(span, ops);
    var b, h := Run(span, ops).books, Added(ops);
    if span < 0 {
      if h == [] { MarksOfNothing(b); } else { StrayMark(b, h); }
    }
  }

  /** With `--window -1`, after one record: the queue is empty and the totals hold the record. */
  lemma NegativeSpanFails(r: LogRecord)
    ensures var s := Run(-1, [Add(r)]);
      s.q == [] && s.books.perDstTotal == map[r.dstIp := 1] && !BooksCount(s.books, s.q)
  {
    hide AddTo, BooksCount;
    var ops := [Add(r)];
    assert ops[..0] == [] && Added(ops) == [r];
    MapsAgreeWithQueue(-1, ops);
    NegativeAdd(-1, State([], EMPTY), r);
  }

  /** Every pass of the popping loop removes a record that was added: all the passes of a run and the records still
    queued are as many as the records added. */
  lemma {:induction false} PopsArePaidFor(span: int, ops: seq<Op>)
    ensures Pops(span, ops) + |Run(span, ops).q| == |Added(ops)|
  {
    hide FirstFresh, TakeAll, Enter;
    if ops != [] { PopsArePaidFor(span, ops[..|ops| - 1]); }
  }

  /** What the maps say of a key. */
  function Held<K(==)>(span: int, q: seq<LogRecord>, h: seq<LogRecord>, key: LogRecord -> Option<K>, k: K): nat {
    if span >= 0 then Occurs(q, key, k) else if Occurs(h, key, k) > 0 then 1 else 0
  }

  /** The records whose keys the maps have. */
  function Known(span: int, q: seq<LogRecord>, h: seq<LogRecord>): seq<LogRecord> {
    if span >= 0 then q else h
  }

  // -------------------------------------------------- what the maps mean

  function Entry<K>(m: map<K, int>, k: K): int { if k in m then m[k] else 0 }

  // The positions of records in a queue: of a triple, of a pair, for a destination, from a source, and of failed logins.

  function OfTriple(q: seq<LogRecord>, src: string, dst: string, port: int): set<nat> {
    set i: nat | i < |q| && q[i].srcIp == src && q[i].dstIp == dst && q[i].dstPort == port
  }

  function OfPair(q: seq<LogRecord>, src: string, dst: string): set<nat> {
    set i: nat | i < |q| && q[i].srcIp == src && q[i].dstIp == dst
  }

  function ForDestination(q: seq<LogRecord>, dst: string): set<nat> {
    set i: nat | i < |q| && q[i].dstIp == dst
  }

  function FromSource(q: seq<LogRecord>, src: string): set<nat> {
    set i: nat | i < |q| && q[i].srcIp == src
  }

  function OfLogin(q: seq<LogRecord>, user: string): set<nat> {
    set i: nat | i < |q| && q[i].username == user && q[i].action == "login" && q[i].status in {"failed", "fail", "error"}
  }

  /** What the five maps say of a queue that they count. */
  lemma MapsMean(b: Books, q: seq<LogRecord>)
    requires BooksCount(b, q)
    ensures forall s, d, p :: Entry(b.countsDst, Key3(s, d, p)) == |OfTriple(q, s, d, p)|
    ensures forall s, d :: Entry(b.uniqDst, Key2(s, d)) == |OfPair(q, s, d)|
    ensures forall d :: Entry(b.perDstTotal, d) == |ForDestination(q, d)|
    ensures forall s :: Entry(b.perSrcTotal, s) == |FromSource(q, s)|
    ensures forall u :: Entry(b.authFailures, u) == |OfLogin(q, u)|
  {
    hide Occurs;
    forall s, d, p ensures Entry(b.countsDst, Key3(s, d, p)) == |OfTriple(q, s, d, p)| {
      assert CountsAt(b.countsDst, q, TripleOf, Key3(s, d, p));
      OccursAt(q, TripleOf, Key3(s, d, p));
      assert Where(q, TripleOf, Key3(s, d, p)) == OfTriple(q, s, d, p);
    }
    forall s, d ensures Entry(b.uniqDst, Key2(s, d)) == |OfPair(q, s, d)| {
      assert CountsAt(b.uniqDst, q, PairOf, Key2(s, d));
      OccursAt(q, PairOf, Key2(s, d));
      assert Where(q, PairOf, Key2(s, d)) == OfPair(q, s, d);
    }
    forall d ensures Entry(b.perDstTotal, d) == |ForDestination(q, d)| {
      assert CountsAt(b.perDstTotal, q, DstOf, d);
      OccursAt(q, DstOf, d);
      assert Where(q, DstOf, d) == ForDestination(q, d);
    }
    forall s ensures Entry(b.perSrcTotal, s) == |FromSource(q, s)| {
      assert CountsAt(b.perSrcTotal, q, SrcOf, s);
      OccursAt(q, SrcOf, s);
      assert Where(q, SrcOf, s) == FromSource(q, s);
    }
    forall u ensures Entry(b.authFailures, u) == |OfLogin(q, u)| {
      assert CountsAt(b.authFailures, q, LoginOf, u);
      OccursAt(q, LoginOf, u);
      assert Where(q, LoginOf, u) == OfLogin(q, u);
    }
  }

  // --------------------------------------------------------------- the class

  class SlidingWindow {
    const span: int
    var q: seq<LogRecord>
    var countsDst: map<Key3, int>
    var uniqDst: map<Key2, int>
    var perDstTotal: map<string, int>
    var perSrcTotal: map<string, int>
    var authFailures: map<string, int>
    ghost var ops: seq<Op>    // the calls so far
    ghost var pops: nat       // the passes of the popping loop so far

    constructor (seconds: int)
      ensures Valid() && ops == [] && span == seconds
    {
      span := seconds;
      q, countsDst, uniqDst, perDstTotal, perSrcTotal, authFailures := [], map[], map[], map[], map[], map[];
      ops, pops := [], 0;
    }

    ghost function Maps(): Books
      reads this
    {
      Books(countsDst, uniqDst, perDstTotal, perSrcTotal, authFailures)
    }

    ghost predicate Valid()
      reads this
    {
      State(q, Maps()) == Run(span, ops) && pops == Pops(span, ops)
    }

    /** What holds of every window in use. */
    lemma Facts()
      requires Valid()
      ensures Sound(span, State(q, Maps()), Added(ops))
      ensures BooksCount(Maps(), q) <==> span >= 0 || Added(ops) == []
      ensures pops + |q| == |Added(ops)|
    {
      hide Run, Pops, Sound, BooksCount;
      RunIsSound(span, ops);
      MapsAgreeWithQueue(span, ops);
      PopsArePaidFor(span, ops);
    }

    /** Takes one record out of the five maps. */
    method CountOut(r: LogRecord)
      modifies this`countsDst, this`uniqDst, this`perDstTotal, this`perSrcTotal, this`authFailures
      ensures Maps() == TakeOut(old(Maps()), r)
    {
      countsDst := Unbump(countsDst, Key3(r.srcIp, r.dstIp, r.dstPort));
      uniqDst := Unbump(uniqDst, Key2(r.srcIp, r.dstIp));
      perDstTotal := Unbump(perDstTotal, r.dstIp);
      perSrcTotal := Unbump(perSrcTotal, r.srcIp);
      if r.action == "login" && (r.status == "failed" || r.status == "fail" || r.status == "error") {
        authFailures := Unbump(authFailures, r.username);
      }
    }

    /** The popping loop of both operations. */
    method PopStale(now: int)
      modifies this
      ensures State(q, Maps()) == PruneTo(span, old(State(q, Maps())), now)
      ensures pops == old(pops) + |old(q)| - |q|
      ensures ops == old(ops)
    {
      hide FirstFresh, TakeOut;
      ghost var all, p := q, 0;
      while q != [] && q[0].ts < now - span
        invariant p <= |all| && q == all[p..] && pops == old(pops) + p && ops == old(ops)
        invariant forall i :: 0 <= i < p ==> all[i].ts < now - span
        invariant Maps() == TakeAll(old(Maps()), all[..p])
        decreases |q|
      {
        assert all[..p + 1][..p] == all[..p];
        CountOut(q[0]);
        q := q[1..];
        p, pops := p + 1, pops + 1;
      }
      FirstFreshUnique(all, Ts, now - span, p);
    }

    /** Enters one more record into the five maps. */
    method CountIn(r: LogRecord)
      modifies this`countsDst, this`uniqDst, this`perDstTotal, this`perSrcTotal, this`authFailures
      ensures Maps() == Enter(old(Maps()), r)
    {
      perDstTotal := Bump(perDstTotal, r.dstIp);
      perSrcTotal := Bump(perSrcTotal, r.srcIp);
      countsDst := Bump(countsDst, Key3(r.srcIp, r.dstIp, r.dstPort));
      uniqDst := Bump(uniqDst, Key2(r.srcIp, r.dstIp));
      if r.action == "login" && (r.status == "failed" || r.status == "fail" || r.status == "error") {
        authFailures := Bump(authFailures, r.username);
      }
    }

    /** Adds a record: it is queued, the window is pruned, and only then is the record counted. Afterwards the maps
      agree with the queue exactly when the span is not negative. */
    method Add(r: LogRecord)
      requires Valid()
      modifies this
      ensures Valid() && ops == old(ops) + [Op.Add(r)]
      ensures BooksCount(Maps(), q) <==> span >= 0
      ensures q == DropStale(old(q) + [r], Ts, r.ts - span)
      ensures pops == old(pops) + |old(q)| + 1 - |q|
    {
      hide Enter, TakeAll, FirstFresh, Run, Pops, Added, BooksCount, Sound;
      RunNext(span, ops, Op.Add(r));
      AddedNext(ops, Op.Add(r));
      q := q + [r];
      PopStale(r.ts);
      CountIn(r);
      ops := ops + [Op.Add(r)];
      Facts();
    }

    method Prune(now: int)
      requires Valid()
      modifies this
      ensures Valid() && ops == old(ops) + [Op.Prune(now)]
      ensures q == DropStale(old(q), Ts, now - span)
      ensures pops == old(pops) + |old(q)| - |q|
    {
      hide TakeAll, FirstFresh, Run, Pops;
      RunNext(span, ops, Op.Prune(now));
      PopStale(now);
      ops := ops + [Op.Prune(now)];
    }

    method PortAttempts(src: string, dst: string, dstPort: int) returns (n: int)
      requires Valid()
      ensures n == Held(span, q, Added(ops), TripleOf, Key3(src, dst, dstPort))
    {
      hide Run, Pops, Occurs;
      Facts();
      var k := Key3(src, dst, dstPort);
      assert if span >= 0 then CountsAt(countsDst, q, TripleOf, k) else MarksAt(countsDst, Added(ops), TripleOf, k);
      n := if k in countsDst then countsDst[k] else 0;
    }

    /** Scans all entries of the pair map. */
    method UniqAttackers(dst: string) returns (c: int)
      requires Valid()
      ensures c == |Sources(Known(span, q, Added(ops)), dst)|
    {
      hide Run, Pops, Occurs;
      c := 0;
      var todo := uniqDst.Keys;
      ghost var seen: set<string> := {};
      while todo != {}
        invariant todo <= uniqDst.Keys && c == |seen|
        invariant forall s :: s in seen <==> Key2(s, dst) in uniqDst.Keys - todo
        decreases |todo|
      {
        var kv :| kv in todo;
        todo := todo - {kv};
        if kv.b == dst {
          c := c + 1;
          seen := seen + {kv.a};
        }
      }
      Facts();
      ghost var known := Known(span, q, Added(ops));
      forall s ensures s in seen <==> s in Sources(known, dst) {
        assert if span >= 0 then CountsAt(uniqDst, q, PairOf, Key2(s, dst))
          else MarksAt(uniqDst, Added(ops), PairOf, Key2(s, dst));
        OccursWitness(known, PairOf, Key2(s, dst));
      }
      assert seen == Sources(known, dst);
    }

    method AuthFailures(user: string) returns (n: int)
      requires Valid()
      ensures n == Held(span, q, Added(ops), LoginOf, user)
    {
      hide Run, Pops, Occurs;
      Facts();
      assert if span >= 0 then CountsAt(authFailures, q, LoginOf, user)
        else MarksAt(authFailures, Added(ops), LoginOf, user);
      n := if user in authFailures then authFailures[user] else 0;
    }
  }
}
