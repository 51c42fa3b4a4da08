/** The previous version of the sliding window. It never erases an entry, so its maps may hold zeros;
  it counts failures by another rule; and it answers port attempts by summing over all ports. */
module ApexWindow {
  import opened Common
  import opened Expiry
  import opened Records
  import opened Tally
  import opened Positions
  import V5 = Window

  type Key3 = V5.Key3
  type Key2 = V5.Key2

  /** The pair map is keyed by destination first. */
  function DstSrcOf(r: LogRecord): Option<Key2> { Some(V5.Key2(r.dstIp, r.srcIp)) }

  predicate Refused(r: LogRecord) { r.status == "failed" || r.status == "deny" }

  function RefusedOf(r: LogRecord): Option<string> {
    if Refused(r) then Some(r.username) else None
  }

  ghost predicate CoversAt<T, K>(m: map<K, int>, q: seq<T>, key: T -> Option<K>, k: K) {
    if k in m then m[k] == Occurs(q, key, k) else Occurs(q, key, k) == 0
  }

  /** Every entry is the multiplicity of its key, and every key of the queue has an entry. */
  ghost predicate Covers<T, K(!new)>(m: map<K, int>, q: seq<T>, key: T -> Option<K>) {
    forall k :: CoversAt(m, q, key, k)
  }

  /** Decrement of a positive entry; a zero entry is kept. */
  function Lower<K>(m: map<K, int>, k: K): map<K, int> {
    if k in m && m[k] > 0 then m[k := m[k] - 1] else m
  }

  /** The same through operator[], which first makes an entry of zero. */
  function LowerTouch<K>(m: map<K, int>, k: K): map<K, int> {
    Lower(if k in m then m else m[k := 0], k)
  }

  lemma BumpCovers<T, K(!new)>(m: map<K, int>, q: seq<T>, key: T -> Option<K>, r: T)
    requires Covers(m, q, key)
    ensures Covers(if key(r).Some? then Bump(m, key(r).value) else m, q + [r], key)
  {
    var m' := if key(r).Some? then Bump(m, key(r).value) else m;
    forall k ensures CoversAt(m', q + [r], key, k) {
      assert CoversAt(m, q, key, k);
      OccursAppend(q, key, k, r);
    }
  }

  lemma LowerCovers<T, K(!new)>(m: map<K, int>, q: seq<T>, key: T -> Option<K>)
    requires Covers(m, q, key) && q != []
    ensures Covers(if key(q[0]).Some? then Lower(m, key(q[0]).value) else m, q[1..], key)
    ensures key(q[0]).Some? ==> LowerTouch(m, key(q[0]).value) == Lower(m, key(q[0]).value)
  {
    var m' := if key(q[0]).Some? then Lower(m, key(q[0]).value) else m;
    forall k ensures CoversAt(m', q[1..], key, k) {
      assert CoversAt(m, q, key, k);
    }
    if key(q[0]).Some? { assert CoversAt(m, q, key, key(q[0]).value); }
  }

  /** What is lowered before it is entered never counts beyond one. */
  lemma RelowerMarks<T, K(!new)>(m: map<K, int>, h: seq<T>, key: T -> Option<K>, r: T)
    requires Marks(m, h, key)
    ensures Marks(if key(r).Some? then Bump(Lower(m, key(r).value), key(r).value) else m, h + [r], key)
    ensures Marks(if key(r).Some? then Bump(LowerTouch(m, key(r).value), key(r).value) else m, h + [r], key)
  {
    var m' := if key(r).Some? then Bump(Lower(m, key(r).value), key(r).value) else m;
    forall k ensures MarksAt(m', h + [r], key, k) {
      assert MarksAt(m, h, key, k);
      OccursAppend(h, key, k, r);
    }
    if key(r).Some? {
      assert MarksAt(m, h, key, key(r).value);
      assert Bump(LowerTouch(m, key(r).value), key(r).value) == m';
    }
  }

  // ---------------------------------------------------------- sums over maps

  predicate Between(r: LogRecord, src: string, dst: string) {
    r.srcIp == src && r.dstIp == dst
  }

  /** The records from one source to one destination, on any port. */
  function Attempts(q: seq<LogRecord>, src: string, dst: string): nat {
    if q == [] then 0 else Attempts(q[1..], src, dst) + if Between(q[0], src, dst) then 1 else 0
  }

  lemma {:induction false} WithinIsAttempts(q: seq<LogRecord>, src: string, dst: string, keys: set<Key3>)
    requires forall k :: k in keys ==> k.a == src && k.b == dst
    requires forall r :: r in q && Between(r, src, dst) ==> V5.TripleOf(r).value in keys
    ensures Within(q, V5.TripleOf, keys) == Attempts(q, src, dst)
  {
    if q != [] { WithinIsAttempts(q[1..], src, dst, keys); }
  }

  /** The ports on which the records go from one source to one destination. */
  function Ports(q: seq<LogRecord>, src: string, dst: string): set<int> {
    set r | r in q && Between(r, src, dst) :: r.dstPort
  }

  lemma PortSeen(q: seq<LogRecord>, k: Key3)
    ensures k.c in Ports(q, k.a, k.b) <==> Occurs(q, V5.TripleOf, k) > 0
  {
    OccursWitness(q, V5.TripleOf, k);
    if k.c in Ports(q, k.a, k.b) {
      var r :| r in q && Between(r, k.a, k.b) && r.dstPort == k.c;
      assert V5.TripleOf(r) == Some(k);
    }
  }

  /** What the current version answers for each of these ports, added up. */
  ghost function SumOverPorts(q: seq<LogRecord>, src: string, dst: string, ports: set<int>): nat {
    if ports == {} then 0 else
      var p := Pick(ports);
      Occurs(q, V5.TripleOf, V5.Key3(src, dst, p)) + SumOverPorts(q, src, dst, ports - {p})
  }

  lemma {:induction false} SumOverPortsIsWithin(q: seq<LogRecord>, src: string, dst: string, ports: set<int>)
    ensures SumOverPorts(q, src, dst, ports) == Within(q, V5.TripleOf, set p | p in ports :: V5.Key3(src, dst, p))
  {
    var keys := set p | p in ports :: V5.Key3(src, dst, p);
    if ports == {} {
      assert keys == {};
      WithinNone(q, V5.TripleOf);
    } else {
      var p := Pick(ports);
      SumOverPortsIsWithin(q, src, dst, ports - {p});
      var fewer := set x | x in ports - {p} :: V5.Key3(src, dst, x);
      assert keys == fewer + {V5.Key3(src, dst, p)};
      WithinOneMore(q, V5.TripleOf, fewer, V5.Key3(src, dst, p));
    }
  }

  /** The sum over all ports of the current version's count of one port is the count of the pair. */
  lemma SumOverPortsIsAttempts(q: seq<LogRecord>, src: string, dst: string)
    ensures SumOverPorts(q, src, dst, Ports(q, src, dst)) == Attempts(q, src, dst)
  {
    SumOverPortsIsWithin(q, src, dst, Ports(q, src, dst));
    WithinIsAttempts(q, src, dst, set p | p in Ports(q, src, dst) :: V5.Key3(src, dst, p));
  }

  // ------------------------------------------------------- the five maps

  datatype Books = Books(
    countsDst: map<Key3, int>,
    uniqDst: map<Key2, int>,
    perDstTotal: map<string, int>,
    perSrcTotal: map<string, int>,
    authFailures: map<string, int>)

  const EMPTY: Books := Books(map[], map[], map[], map[], map[])

  function Enter(b: Books, r: LogRecord): Books {
    Books(
      Bump(b.countsDst, V5.Key3(r.srcIp, r.dstIp, r.dstPort)),
      Bump(b.uniqDst, V5.Key2(r.dstIp, r.srcIp)),
      Bump(b.perDstTotal, r.dstIp),
      Bump(b.perSrcTotal, r.srcIp),
      if Refused(r) then Bump(b.authFailures, r.username) else b.authFailures)
  }

  function TakeOut(b: Books, r: LogRecord): Books {
    Books(
      Lower(b.countsDst, V5.Key3(r.srcIp, r.dstIp, r.dstPort)),
      Lower(b.uniqDst, V5.Key2(r.dstIp, r.srcIp)),
      LowerTouch(b.perDstTotal, r.dstIp),
      LowerTouch(b.perSrcTotal, r.srcIp),
      if Refused(r) then LowerTouch(b.authFailures, r.username) else b.authFailures)
  }

  function TakeAll(b: Books, rs: seq<LogRecord>): Books {
    if rs == [] then b else TakeOut(TakeAll(b, rs[..|rs| - 1]), rs[|rs| - 1])
  }

  /** All five maps cover the records c. */
  ghost predicate BooksCover(b: Books, c: seq<LogRecord>) {
    && Covers(b.countsDst, c, V5.TripleOf)
    && Covers(b.uniqDst, c, DstSrcOf)
    && Covers(b.perDstTotal, c, V5.DstOf)
    && Covers(b.perSrcTotal, c, V5.SrcOf)
    && Covers(b.authFailures, c, RefusedOf)
  }

  ghost predicate BooksMark(b: Books, h: seq<LogRecord>) {
    && Marks(b.countsDst, h, V5.TripleOf)
    && Marks(b.uniqDst, h, DstSrcOf)
    && Marks(b.perDstTotal, h, V5.DstOf)
    && Marks(b.perSrcTotal, h, V5.SrcOf)
    && Marks(b.authFailures, h, RefusedOf)
  }

  lemma EnterCovers(b: Books, c: seq<LogRecord>, r: LogRecord)
    requires BooksCover(b, c)
    ensures BooksCover(Enter(b, r), c + [r])
  {
    hide Covers, Bump;
    BumpCovers(b.countsDst, c, V5.TripleOf, r);
    BumpCovers(b.uniqDst, c, DstSrcOf, r);
    BumpCovers(b.perDstTotal, c, V5.DstOf, r);
    BumpCovers(b.perSrcTotal, c, V5.SrcOf, r);
    BumpCovers(b.authFailures, c, RefusedOf, r);
  }

  lemma TakeOutCovers(b: Books, c: seq<LogRecord>)
    requires c != [] && BooksCover(b, c)
    ensures BooksCover(TakeOut(b, c[0]), c[1..])
  {
    hide Covers, Lower, LowerTouch;
    LowerCovers(b.countsDst, c, V5.TripleOf);
    LowerCovers(b.uniqDst, c, DstSrcOf);
    LowerCovers(b.perDstTotal, c, V5.DstOf);
    LowerCovers(b.perSrcTotal, c, V5.SrcOf);
    LowerCovers(b.authFailures, c, RefusedOf);
  }

  lemma {:induction false} TakeAllCovers(b: Books, c: seq<LogRecord>, k: nat)
    requires k <= |c| && BooksCover(b, c)
    ensures BooksCover(TakeAll(b, c[..k]), c[k..])
  {
    hide BooksCover, TakeOut;
    if k == 0 {
      assert c[0..] == c;
    } else {
      TakeAllCovers(b, c, k - 1);
      assert c[..k][..k - 1] == c[..k - 1];
      TakeOutCovers(TakeAll(b, c[..k - 1]), c[k - 1..]);
    }
  }

  lemma ReenterMarks(b: Books, h: seq<LogRecord>, r: LogRecord)
    requires BooksMark(b, h)
    ensures BooksMark(Enter(TakeOut(b, r), r), h + [r])
  {
    hide Marks, Bump, Lower, LowerTouch;
    RelowerMarks(b.countsDst, h, V5.TripleOf, r);
    RelowerMarks(b.uniqDst, h, DstSrcOf, r);
    RelowerMarks(b.perDstTotal, h, V5.DstOf, r);
    RelowerMarks(b.perSrcTotal, h, V5.SrcOf, r);
    RelowerMarks(b.authFailures, h, RefusedOf, r);
  }

  // --------------------------------------------------------- the operations

  datatype State = State(q: seq<LogRecord>, books: Books)

  function PruneTo(span: int, s: State, now: int): State {
    var k := FirstFresh(s.q, Ts, now - span);
    State(s.q[k..], TakeAll(s.books, s.q[..k]))
  }

  function AddTo(span: int, s: State, r: LogRecord): State {
    var pruned := PruneTo(span, s.(q := s.q + [r]), r.ts);
    pruned.(books := Enter(pruned.books, r))
  }

  function Step(span: int, s: State, op: V5.Op): State {
    match op
    case Add(r) => AddTo(span, s, r)
    case Prune(now) => PruneTo(span, s, now)
  }

  function Run(span: int, ops: seq<V5.Op>): State {
    if ops == [] then State([], EMPTY)
    else Step(span, Run(span, ops[..|ops| - 1]), ops[|ops| - 1])
  }

  lemma RunNext(span: int, ops: seq<V5.Op>, op: V5.Op)
    ensures Run(span, ops + [op]) == Step(span, Run(span, ops), op)
  {
    hide FirstFresh, TakeAll, Enter;
    assert (ops + [op])[..|ops|] == ops;
  }

  /** The same alternative as for the current version. */
  ghost predicate Sound(span: int, s: State, h: seq<LogRecord>) {
    if span >= 0 then BooksCover(s.books, s.q) else s.q == [] && BooksMark(s.books, h)
  }

  lemma NewIsSound(span: int)
    ensures Sound(span, State([], EMPTY), [])
  {
  }

  lemma PruneKeepsSound(span: int, s: State, h: seq<LogRecord>, now: int)
    requires Sound(span, s, h)
    ensures Sound(span, PruneTo(span, s, now), h)
  {
    hide BooksCover, BooksMark, FirstFresh;
    if span >= 0 { TakeAllCovers(s.books, s.q, FirstFresh(s.q, Ts, now - span)); }
  }

  lemma TakeOne(b: Books, r: LogRecord)
    ensures TakeAll(b, [r]) == TakeOut(b, r)
  {
    hide TakeOut;
    assert [r][..0] == [] && TakeAll(b, []) == b;
  }

  lemma NegativeAdd(span: int, s: State, r: LogRecord)
    requires span < 0 && s.q == []
    ensures AddTo(span, s, r) == State([], Enter(TakeOut(s.books, r), r))
  {
    hide FirstFresh, Enter, TakeOut, TakeAll;
    var all := s.q + [r];
    assert all == [r];
    FirstFreshUnique(all, Ts, r.ts - span, 1);
    assert all[..1] == [r];
    TakeOne(s.books, r);
  }

  lemma AddKeepsSound(span: int, s: State, h: seq<LogRecord>, r: LogRecord)
    requires Sound(span, s, h)
    ensures Sound(span, AddTo(span, s, r), h + [r])
  {
    hide BooksCover, BooksMark, FirstFresh, Enter, TakeOut;
    var all := s.q + [r];
    var k := FirstFresh(all, Ts, r.ts - span);
    assert Ts(all[|s.q|]) == r.ts;
    if span >= 0 {
      assert k <= |s.q|;
      assert all[..k] == s.q[..k] && all[k..] == s.q[k..] + [r];
      TakeAllCovers(s.books, s.q, k);
      EnterCovers(TakeAll(s.books, s.q[..k]), s.q[k..], r);
    } else {
      NegativeAdd(span, s, r);
      ReenterMarks(s.books, h, r);
    }
  }

  lemma {:induction false} RunIsSound(span: int, ops: seq<V5.Op>)
    ensures Sound(span, Run(span, ops), V5.Added(ops))
  {
    hide Sound, AddTo, PruneTo;
    if ops == [] {
      NewIsSound(span);
    } else {
      var front := ops[..|ops| - 1];
      RunIsSound(span, front);
      assert V5.Added(front) + [] == V5.Added(front);
      match ops[|ops| - 1]
      case Add(r) => AddKeepsSound(span, Run(span, front), V5.Added(front), r);
      case Prune(now) => PruneKeepsSound(span, Run(span, front), V5.Added(front), now);
    }
  }

  lemma StrayMark(b: Books, h: seq<LogRecord>)
    requires h != [] && BooksMark(b, h)
    ensures var newest := h[|h| - 1].dstIp; newest in b.perDstTotal && b.perDstTotal[newest] == 1
    ensures !BooksCover(b, [])
  {
    var r := h[|h| - 1];
    assert h == h[..|h| - 1] + [r];
    OccursAppend(h[..|h| - 1], V5.DstOf, r.dstIp, r);
    assert MarksAt(b.perDstTotal, h, V5.DstOf, r.dstIp);
    assert !CoversAt(b.perDstTotal, [], V5.DstOf, r.dstIp);
  }

  lemma MarksOfNothing(b: Books)
    requires BooksMark(b, [])
    ensures BooksCover(b, [])
  {
    forall k ensures CoversAt(b.countsDst, [], V5.TripleOf, k) { assert MarksAt(b.countsDst, [], V5.TripleOf, k); }
    forall k ensures CoversAt(b.uniqDst, [], DstSrcOf, k) { assert MarksAt(b.uniqDst, [], DstSrcOf, k); }
    forall k ensures CoversAt(b.perDstTotal, [], V5.DstOf, k) { assert MarksAt(b.perDstTotal, [], V5.DstOf, k); }
    forall k ensures CoversAt(b.perSrcTotal, [], V5.SrcOf, k) { assert MarksAt(b.perSrcTotal, [], V5.SrcOf, k); }
    forall k ensures CoversAt(b.authFailures, [], RefusedOf, k) { assert MarksAt(b.authFailures, [], RefusedOf, k); }
  }

  /** The maps cover the queue if and only if the span is not negative or nothing has been added. */
  lemma MapsAgreeWithQueue(span: int, ops: seq<V5.Op>)
    ensures BooksCover(Run(span, ops).books, Run(span, ops).q) <==> span >= 0 || V5.Added(ops) == []
  {
    hide Run;
    RunIsSound(span, ops);
    var b, h := Run(span, ops).books, V5.Added(ops);
    if span < 0 {
      if h == [] { MarksOfNothing(b); } else { StrayMark(b, h); }
    }
  }

  /** Both versions always hold the same queue. */
  lemma {:induction false} SameQueue(span: int, ops: seq<V5.Op>)
    ensures Run(span, ops).q == V5.Run(span, ops).q
  {
    hide FirstFresh, TakeAll, Enter, V5.TakeAll, V5.Enter;
    if ops != [] { SameQueue(span, ops[..|ops| - 1]); }
  }

  /** One key for every port. */
  lemma {:induction false} KeysOfPorts(src: string, dst: string, ports: set<int>)
    ensures |set p | p in ports :: V5.Key3(src, dst, p)| == |ports|
  {
    var keys := set p | p in ports :: V5.Key3(src, dst, p);
    if ports == {} {
      assert keys == {};
    } else {
      var p := Pick(ports);
      KeysOfPorts(src, dst, ports - {p});
      assert keys == (set x | x in ports - {p} :: V5.Key3(src, dst, x)) + {V5.Key3(src, dst, p)};
    }
  }

  // -------------------------------------------------- what the maps mean

  /** The records of a user that were refused. */
  function OfRefused(q: seq<LogRecord>, user: string): set<nat> {
    set i: nat | i < |q| && q[i].username == user && q[i].status in {"failed", "deny"}
  }

  /** What the five maps say of a queue that they cover. The pair map is keyed by destination first. */
  lemma MapsMean(b: Books, q: seq<LogRecord>)
    requires BooksCover(b, q)
    ensures forall s, d, p :: V5.Entry(b.countsDst, V5.Key3(s, d, p)) == |V5.OfTriple(q, s, d, p)|
    ensures forall s, d :: V5.Entry(b.uniqDst, V5.Key2(d, s)) == |V5.OfPair(q, s, d)|
    ensures forall d :: V5.Entry(b.perDstTotal, d) == |V5.ForDestination(q, d)|
    ensures forall s :: V5.Entry(b.perSrcTotal, s) == |V5.FromSource(q, s)|
    ensures forall u :: V5.Entry(b.authFailures, u) == |OfRefused(q, u)|
  {
    hide Occurs;
    forall s, d, p ensures V5.Entry(b.countsDst, V5.Key3(s, d, p)) == |V5.OfTriple(q, s, d, p)| {
      assert CoversAt(b.countsDst, q, V5.TripleOf, V5.Key3(s, d, p));
      OccursAt(q, V5.TripleOf, V5.Key3(s, d, p));
      assert Where(q, V5.TripleOf, V5.Key3(s, d, p)) == V5.OfTriple(q, s, d, p);
    }
    forall s, d ensures V5.Entry(b.uniqDst, V5.Key2(d, s)) == |V5.OfPair(q, s, d)| {
      assert CoversAt(b.uniqDst, q, DstSrcOf, V5.Key2(d, s));
      OccursAt(q, DstSrcOf, V5.Key2(d, s));
      assert Where(q, DstSrcOf, V5.Key2(d, s)) == V5.OfPair(q, s, d);
    }
    forall d ensures V5.Entry(b.perDstTotal, d) == |V5.ForDestination(q, d)| {
      assert CoversAt(b.perDstTotal, q, V5.DstOf, d);
      OccursAt(q, V5.DstOf, d);
      assert Where(q, V5.DstOf, d) == V5.ForDestination(q, d);
    }
    forall s ensures V5.Entry(b.perSrcTotal, s) == |V5.FromSource(q, s)| {
      assert CoversAt(b.perSrcTotal, q, V5.SrcOf, s);
      OccursAt(q, V5.SrcOf, s);
      assert Where(q, V5.SrcOf, s) == V5.FromSource(q, s);
    }
    forall u ensures V5.Entry(b.authFailures, u) == |OfRefused(q, u)| {
      assert CoversAt(b.authFailures, q, RefusedOf, u);
      OccursAt(q, RefusedOf, u);
      assert Where(q, RefusedOf, u) == OfRefused(q, u);
    }
  }

  // --------------------------------------------------------------- the class

  class ApexSlidingWindow {
    const span: int
    var q: seq<LogRecord>
    var countsDst: map<Key3, int>
    var uniqDst: map<Key2, int>
    var perDstTotal: map<string, int>
    var perSrcTotal: map<string, int>
    var authFailures: map<string, int>
    ghost var ops: seq<V5.Op>   // the calls so far

    constructor (seconds: int)
      ensures Valid() && ops == [] && span == seconds
    {
      span := seconds;
      q, countsDst, uniqDst, perDstTotal, perSrcTotal, authFailures := [], map[], map[], map[], map[], map[];
      ops := [];
    }

    ghost function Maps(): Books
      reads this
    {
      Books(countsDst, uniqDst, perDstTotal, perSrcTotal, authFailures)
    }

    ghost predicate Valid()
      reads this
    {
      State(q, Maps()) == Run(span, ops)
    }

    lemma Facts()
      requires Valid()
      ensures Sound(span, State(q, Maps()), V5.Added(ops))
      ensures BooksCover(Maps(), q) <==> span >= 0 || V5.Added(ops) == []
    {
      hide Run, Sound, BooksCover;
      RunIsSound(span, ops);
      MapsAgreeWithQueue(span, ops);
    }

    method CountOut(r: LogRecord)
      modifies this`countsDst, this`uniqDst, this`perDstTotal, this`perSrcTotal, this`authFailures
      ensures Maps() == TakeOut(old(Maps()), r)
    {
      countsDst := Lower(countsDst, V5.Key3(r.srcIp, r.dstIp, r.dstPort));
      uniqDst := Lower(uniqDst, V5.Key2(r.dstIp, r.srcIp));
      perDstTotal := LowerTouch(perDstTotal, r.dstIp);
      perSrcTotal := LowerTouch(perSrcTotal, r.srcIp);
      if r.status == "failed" || r.status == "deny" {
        authFailures := LowerTouch(authFailures, r.username);
      }
    }

    /** The popping loop; each record is popped before it is taken out of the maps. */
    method PopStale(now: int)
      modifies this
      ensures State(q, Maps()) == PruneTo(span, old(State(q, Maps())), now)
      ensures ops == old(ops)
    {
      hide FirstFresh, TakeOut;
      ghost var all, p := q, 0;
      while q != [] && now - q[0].ts > span
        invariant p <= |all| && q == all[p..] && ops == old(ops)
        invariant forall i :: 0 <= i < p ==> all[i].ts < now - span
        invariant Maps() == TakeAll(old(Maps()), all[..p])
        decreases |q|
      {
        assert all[..p + 1][..p] == all[..p];
        var r := q[0];
        q := q[1..];
        CountOut(r);
        p := p + 1;
      }
      FirstFreshUnique(all, Ts, now - span, p);
    }

    method CountIn(r: LogRecord)
      modifies this`countsDst, this`uniqDst, this`perDstTotal, this`perSrcTotal, this`authFailures
      ensures Maps() == Enter(old(Maps()), r)
    {
      countsDst := Bump(countsDst, V5.Key3(r.srcIp, r.dstIp, r.dstPort));
      uniqDst := Bump(uniqDst, V5.Key2(r.dstIp, r.srcIp));
      perDstTotal := Bump(perDstTotal, r.dstIp);
      perSrcTotal := Bump(perSrcTotal, r.srcIp);
      if r.status == "failed" || r.status == "deny" {
        authFailures := Bump(authFailures, r.username);
      }
    }

    method Add(r: LogRecord)
      requires Valid()
      modifies this
      ensures Valid() && ops == old(ops) + [V5.Add(r)]
      ensures BooksCover(Maps(), q) <==> span >= 0
      ensures q == DropStale(old(q) + [r], Ts, r.ts - span)
    {
      hide Enter, TakeAll, FirstFresh, Run, V5.Added, BooksCover, Sound;
      RunNext(span, ops, V5.Add(r));
      V5.AddedNext(ops, V5.Add(r));
      q := q + [r];
      PopStale(r.ts);
      CountIn(r);
      ops := ops + [V5.Add(r)];
      Facts();
    }

    method Prune(now: int)
      requires Valid()
      modifies this
      ensures Valid() && ops == old(ops) + [V5.Prune(now)]
      ensures q == DropStale(old(q), Ts, now - span)
    {
      hide TakeAll, FirstFresh, Run;
      RunNext(span, ops, V5.Prune(now));
      PopStale(now);
      ops := ops + [V5.Prune(now)];
    }

    /** What the map of triples says of a key. */
    lemma EntryOf(k: Key3)
      requires Valid()
      ensures span >= 0 ==> CoversAt(countsDst, q, V5.TripleOf, k)
      ensures span < 0 ==> MarksAt(countsDst, V5.Added(ops), V5.TripleOf, k)
    {
      hide Run;
      Facts();
    }

    lemma AllPortsSummed(src: string, dst: string, summed: set<Key3>)
      requires Valid() && span < 0
      requires summed == set k | k in countsDst.Keys && k.a == src && k.b == dst
      ensures summed == set p | p in Ports(V5.Added(ops), src, dst) :: V5.Key3(src, dst, p)
    {
      hide Run, V5.Added, Occurs;
      var h := V5.Added(ops);
      forall k ensures k in summed <==> k.a == src && k.b == dst && k.c in Ports(h, src, dst) {
        EntryOf(k);
        PortSeen(h, k);
      }
    }

    /** What the entries of these keys add up to. */
    ghost function Total(keys: set<Key3>): int
      reads this
    {
      if span >= 0 then Within(q, V5.TripleOf, keys) else |keys|
    }

    lemma NothingSummed()
      ensures Total({}) == 0
    {
      WithinNone(q, V5.TripleOf);
    }

    lemma OneMoreEntry(keys: set<Key3>, k: Key3)
      requires Valid() && k in countsDst && k !in keys
      ensures Total(keys + {k}) == Total(keys) + countsDst[k]
    {
      hide Run;
      EntryOf(k);
      WithinOneMore(q, V5.TripleOf, keys, k);
    }

    lemma AllSummed(src: string, dst: string, keys: set<Key3>)
      requires Valid() && keys == set k | k in countsDst.Keys && k.a == src && k.b == dst
      ensures span >= 0 ==>
        Total(keys) == Attempts(q, src, dst) == SumOverPorts(q, src, dst, Ports(q, src, dst))
      ensures span < 0 ==> Total(keys) == |Ports(V5.Added(ops), src, dst)|
    {
      hide Run, Occurs, Valid;
      if span >= 0 {
        forall r | r in q && Between(r, src, dst) ensures V5.TripleOf(r).value in keys {
          EntryOf(V5.TripleOf(r).value);
          OccursWitness(q, V5.TripleOf, V5.TripleOf(r).value);
        }
        WithinIsAttempts(q, src, dst, keys);
        SumOverPortsIsAttempts(q, src, dst);
      } else {
        AllPortsSummed(src, dst, keys);
        KeysOfPorts(src, dst, Ports(V5.Added(ops), src, dst));
      }
    }

    /** Sums the entries of one source and destination over all ports, zeros included. Under a negative span every
      port ever seen counts one. */
    method PortAttempts(src: string, dst: string) returns (total: int)
      requires Valid()
      ensures span >= 0 ==> total == Attempts(q, src, dst) == SumOverPorts(q, src, dst, Ports(q, src, dst))
      ensures span < 0 ==> total == |Ports(V5.Added(ops), src, dst)|
    {
      hide Run, Total, Valid;
      total := 0;
      var todo := countsDst.Keys;
      ghost var summed: set<Key3> := {};
      NothingSummed();
      while todo != {}
        invariant todo <= countsDst.Keys && total == Total(summed)
        invariant summed == set k | k in countsDst.Keys - todo && k.a == src && k.b == dst
        decreases |todo|
      {
        var k :| k in todo;
        todo := todo - {k};
        if k.a == src && k.b == dst {
          OneMoreEntry(summed, k);
          total := total + countsDst[k];
          summed := summed + {k};
        }
      }
      AllSummed(src, dst, summed);
    }

    /** Scans all entries of the pair map, skipping zeros. */
    method UniqAttackers(dst: string) returns (u: int)
      requires Valid()
      ensures u == |V5.Sources(V5.Known(span, q, V5.Added(ops)), dst)|
    {
      hide Run, Occurs;
      u := 0;
      var todo := uniqDst.Keys;
      ghost var seen: set<string> := {};
      while todo != {}
        invariant todo <= uniqDst.Keys && u == |seen|
        invariant forall s :: s in seen <==>
          V5.Key2(dst, s) in uniqDst.Keys - todo && uniqDst[V5.Key2(dst, s)] > 0
        decreases |todo|
      {
        var k :| k in todo;
        todo := todo - {k};
        if k.a == dst && uniqDst[k] > 0 {
          u := u + 1;
          seen := seen + {k.b};
        }
      }
      Facts();
      ghost var known := V5.Known(span, q, V5.Added(ops));
      forall s ensures s in seen <==> s in V5.Sources(known, dst) {
        assert if span >= 0 then CoversAt(uniqDst, q, DstSrcOf, V5.Key2(dst, s))
          else MarksAt(uniqDst, V5.Added(ops), DstSrcOf, V5.Key2(dst, s));
        OccursWitness(known, DstSrcOf, V5.Key2(dst, s));
      }
      assert seen == V5.Sources(known, dst);
    }

    method AuthFailures(user: string) returns (n: int)
      requires Valid()
      ensures n == V5.Held(span, q, V5.Added(ops), RefusedOf, user)
    {
      hide Run, Occurs;
      Facts();
      assert if span >= 0 then CoversAt(authFailures, q, RefusedOf, user)
        else MarksAt(authFailures, V5.Added(ops), RefusedOf, user);
      n := if user in authFailures then authFailures[user] else 0;
    }
  }
}
