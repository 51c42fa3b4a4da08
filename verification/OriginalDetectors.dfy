/** The four detectors of the original project, over two keyed windows and the running byte statistics.
  For records in time order they find what a naive analyser finds in the whole history. */
module OriginalDetectors {
  import opened Expiry
  import opened OriginalRecords
  import opened KeyedWindow
  import opened Welford
  import opened Positions

  datatype Config = Config(
    portscanUniquePorts: int,
    bruteforceFailures: int,
    ddosEvents: int,
    ddosUniqueSources: int,
    anomalyZ: real)

  type Field = LogRecord -> string

  function SrcOf(r: LogRecord): string { r.srcIp }
  function DstOf(r: LogRecord): string { r.dstIp }

  // ------------------------------------------------------ one window, one field

  function OpsBy(f: Field, h: Records): seq<Op> {
    if h == [] then [] else
      var r := h[|h| - 1];
      OpsBy(f, h[..|h| - 1]) + [Op.Add(r, f(r)), Op.Evict(r.ts)]
  }

  /** The records of the history with this value of the field. */
  function Under(f: Field, k: string, h: Records): Records {
    if h == [] then [] else
      var r := h[|h| - 1];
      Under(f, k, h[..|h| - 1]) + if f(r) == k then [r] else []
  }

  lemma NothingAdded(k: string)
    ensures Added([], k) == []
  {
  }

  lemma AddedTwo(ops: seq<Op>, r: LogRecord, key: string, k: string)
    ensures Added(ops + [Op.Add(r, key), Op.Evict(r.ts)], k) == Added(ops, k) + if key == k then [r] else []
  {
    var one := ops + [Op.Add(r, key)];
    var two := ops + [Op.Add(r, key), Op.Evict(r.ts)];
    assert one[..|one| - 1] == ops && two[..|two| - 1] == one;
    assert Added(two, k) == Added(one, k) + [];
  }

  lemma {:induction false} AddedBy(f: Field, k: string, h: Records)
    ensures Added(OpsBy(f, h), k) == Under(f, k, h)
  {
    hide Added;
    if h == [] {
      assert Added([], k) == [] by { NothingAdded(k); }
    } else {
      var r := h[|h| - 1];
      AddedBy(f, k, h[..|h| - 1]);
      AddedTwo(OpsBy(f, h[..|h| - 1]), r, f(r), k);
    }
  }

  lemma {:induction false} OpsByInTime(f: Field, h: Records)
    requires Sorted(h, Ts)
    ensures TimeOrdered(OpsBy(f, h))
    ensures h != [] ==> forall i :: 0 <= i < |OpsBy(f, h)| ==> TimeOf(OpsBy(f, h)[i]) <= h[|h| - 1].ts
  {
    if h != [] {
      var front, r := h[..|h| - 1], h[|h| - 1];
      SortedPrefix(h, Ts, |h| - 1);
      OpsByInTime(f, front);
      assert front != [] ==> Ts(front[|front| - 1]) <= Ts(r);
      if front == [] { assert OpsBy(f, front) == []; }
    }
  }

  /** Of the last `cap` records with the field value of the last record, those within the span. */
  function Recent(f: Field, h: Records, cap: int, span: int): Records
    requires h != []
  {
    var r := h[|h| - 1];
    Fresh(Last(Under(f, f(r), h), cap), Ts, r.ts - span)
  }

  lemma QueueIsRecent(f: Field, h: Records, cap: int, span: int)
    requires h != [] && Sorted(h, Ts)
    ensures Content(OpsBy(f, h), f(h[|h| - 1]), cap, span) == Recent(f, h, cap, span)
  {
    hide Content, Added, Fresh, Last, TimeOrdered, Sorted;
    OpsByInTime(f, h);
    AddedBy(f, f(h[|h| - 1]), h);
    ClosedForm(OpsBy(f, h), f(h[|h| - 1]), cap, span);
  }

  // -------------------------------------------------------------- the verdicts

  function ConnectPorts(q: Records): set<int> {
    set r | r in q && r.action == "connect" :: r.dstPort
  }

  function PortScan(q: Records, r: LogRecord, c: Config): seq<Finding> {
    if |ConnectPorts(q)| >= c.portscanUniquePorts
    then [Finding("port_scan", r.srcIp, "unique ports >= threshold", r.ts)] else []
  }

  predicate IsAuth(r: LogRecord) { r.action == "auth" }
  predicate IsFailure(r: LogRecord) { r.action == "auth" && r.status == "fail" }

  function Auths(q: Records): nat {
    if q == [] then 0 else Auths(q[1..]) + if IsAuth(q[0]) then 1 else 0
  }

  /** Where the records behind the last authentication that did not fail begin. */
  function AfterLastSuccess(q: Records): (k: nat)
    ensures k <= |q|
    ensures k > 0 ==> IsAuth(q[k - 1]) && !IsFailure(q[k - 1])
    ensures forall i :: k <= i < |q| && IsAuth(q[i]) ==> IsFailure(q[i])
  {
    if q == [] then 0
    else if IsAuth(q[|q| - 1]) && !IsFailure(q[|q| - 1]) then |q|
    else AfterLastSuccess(q[..|q| - 1])
  }

  lemma LastSuccessUnique(q: Records, k: nat)
    requires k <= |q| && (k > 0 ==> IsAuth(q[k - 1]) && !IsFailure(q[k - 1]))
    requires forall i :: k <= i < |q| && IsAuth(q[i]) ==> IsFailure(q[i])
    ensures AfterLastSuccess(q) == k
  {
    hide IsAuth, IsFailure, AfterLastSuccess;
    var a := AfterLastSuccess(q);
  }

  function BruteForce(q: Records, r: LogRecord, c: Config): seq<Finding> {
    if Auths(q[AfterLastSuccess(q)..]) >= c.bruteforceFailures
    then [Finding("brute_force", r.srcIp, "consecutive auth fail >= threshold", r.ts)] else []
  }

  function SourcesOf(q: Records): set<string> {
    set r | r in q :: r.srcIp
  }

  function Volumetric(q: Records, r: LogRecord, c: Config): seq<Finding> {
    if |q| >= c.ddosEvents && |SourcesOf(q)| >= c.ddosUniqueSources
    then [Finding("ddos_volumetric", r.dstIp, "burst events and unique sources high", r.ts)] else []
  }

  function Sizes(q: Records): seq<real> {
    if q == [] then [] else Sizes(q[..|q| - 1]) + [q[|q| - 1].bytes as real]
  }

  function Anomaly(anomalous: bool, r: LogRecord): seq<Finding> {
    if anomalous then [Finding("bytes_anomaly", r.srcIp, "z-score |z| >= threshold", r.ts)] else []
  }

  /** The naive analyser's verdict on the last record of the history. The byte statistics look at all records
    of the source, the other detectors at the recent ones. */
  function NaiveVerdict(h: Records, c: Config, cap: int, span: int): seq<Finding>
    requires h != []
  {
    var r := h[|h| - 1];
    var sizes := Sizes(Under(SrcOf, r.srcIp, h));
    PortScan(Recent(SrcOf, h, cap, span), r, c)
      + BruteForce(Recent(SrcOf, h, cap, span), r, c)
      + Volumetric(Recent(DstOf, h, cap, span), r, c)
      + Anomaly(sizes != [] && Anomalous(sizes, c.anomalyZ), r)
  }

  // --------------------------------------------- what the verdicts mean

  /** The records from the source of the last one, and those for its destination. */
  ghost function FromSource(h: Records): set<nat>
    requires h != []
  {
    set i: nat | i < |h| && h[i].srcIp == h[|h| - 1].srcIp
  }

  ghost function ToDestination(h: Records): set<nat>
    requires h != []
  {
    set i: nat | i < |h| && h[i].dstIp == h[|h| - 1].dstIp
  }

  /** Of some positions, the last `cap` that are within the span. */
  ghost function RecentAt(h: Records, at: set<nat>, cap: int, span: int): set<nat>
    requires h != []
  {
    set i | i in at && i < |h| && BehindIn(at, |h|, i) < cap && h[i].ts >= h[|h| - 1].ts - span
  }

  /** The failed authentications behind which no authentication succeeded. */
  ghost function TrailingAt(h: Records, at: set<nat>): set<nat> {
    set i | i in at && i < |h| && h[i].action == "auth"
      && forall j :: j in at && i <= j < |h| && h[j].action == "auth" ==> h[j].status == "fail"
  }

  ghost function PortsAt(h: Records, at: set<nat>): set<int> {
    set i | i in at && i < |h| && h[i].action == "connect" :: h[i].dstPort
  }

  ghost function SourcesAt(h: Records, at: set<nat>): set<string> {
    set i | i in at && i < |h| :: h[i].srcIp
  }

  /** The sizes of the records at some positions, in order. */
  ghost function SizesAt(h: Records, at: set<nat>): seq<real> {
    if h == [] then []
    else SizesAt(h[..|h| - 1], at) + if |h| - 1 in at then [h[|h| - 1].bytes as real] else []
  }

  /** The findings that the last record of the history calls for, in terms of positions in the history. */
  ghost function Judged(h: Records, c: Config, cap: int, span: int): seq<Finding>
    requires h != []
  {
    var r := h[|h| - 1];
    var src, dst := RecentAt(h, FromSource(h), cap, span), RecentAt(h, ToDestination(h), cap, span);
    var sizes := SizesAt(h, FromSource(h));
    (if |PortsAt(h, src)| >= c.portscanUniquePorts
     then [Finding("port_scan", r.srcIp, "unique ports >= threshold", r.ts)] else [])
    + (if |TrailingAt(h, src)| >= c.bruteforceFailures
       then [Finding("brute_force", r.srcIp, "consecutive auth fail >= threshold", r.ts)] else [])
    + (if |dst| >= c.ddosEvents && |SourcesAt(h, dst)| >= c.ddosUniqueSources
       then [Finding("ddos_volumetric", r.dstIp, "burst events and unique sources high", r.ts)] else [])
    + (if sizes != [] && Anomalous(sizes, c.anomalyZ)
       then [Finding("bytes_anomaly", r.srcIp, "z-score |z| >= threshold", r.ts)] else [])
  }

  lemma {:induction false} UnderIsSub(f: Field, k: string, h: Records, at: set<nat>)
    requires forall i: nat :: i < |h| ==> (i in at <==> f(h[i]) == k)
    ensures Under(f, k, h) == Sub(h, at)
  {
    if h != [] {
      var front := h[..|h| - 1];
      assert forall i :: 0 <= i < |front| ==> front[i] == h[i];
      UnderIsSub(f, k, front, at);
    }
  }

  lemma FreshOfLastIsRecent(h: Records, at: set<nat>, cap: int, span: int)
    requires h != []
    ensures FreshAt(h, LastAt(at, |h|, cap), Ts, h[|h| - 1].ts - span) == RecentAt(h, at, cap, span)
  {
    hide BehindIn;
  }

  lemma RecentIsSub(f: Field, h: Records, at: set<nat>, cap: int, span: int)
    requires h != [] && forall i: nat :: i < |h| ==> (i in at <==> f(h[i]) == f(h[|h| - 1]))
    ensures Recent(f, h, cap, span) == Sub(h, RecentAt(h, at, cap, span))
  {
    hide Under, Fresh, Last, Sub, LastAt, FreshAt, RecentAt;
    var r := h[|h| - 1];
    UnderIsSub(f, f(r), h, at);
    LastIsSub(h, at, cap);
    FreshIsSub(h, LastAt(at, |h|, cap), Ts, r.ts - span);
    FreshOfLastIsRecent(h, at, cap, span);
  }

  lemma PortsOfSub(h: Records, at: set<nat>)
    ensures ConnectPorts(Sub(h, at)) == PortsAt(h, at)
  {
    hide Sub;
    var q := Sub(h, at);
    forall x ensures x in q <==> exists i :: i in at && i < |h| && h[i] == x { SubMembers(h, at, x); }
  }

  lemma SourcesOfSub(h: Records, at: set<nat>)
    ensures SourcesOf(Sub(h, at)) == SourcesAt(h, at)
  {
    hide Sub;
    var q := Sub(h, at);
    forall x ensures x in q <==> exists i :: i in at && i < |h| && h[i] == x { SubMembers(h, at, x); }
  }

  lemma {:induction false} SizesOfSub(h: Records, at: set<nat>)
    ensures Sizes(Sub(h, at)) == SizesAt(h, at)
  {
    if h != [] {
      var front := Sub(h[..|h| - 1], at);
      SizesOfSub(h[..|h| - 1], at);
      assert (front + [h[|h| - 1]])[..|front|] == front;
      assert front + [] == front && Sizes(front) + [] == Sizes(front);
    }
  }

  lemma {:induction false} AuthsAppend(q: Records, x: LogRecord)
    ensures Auths(q + [x]) == Auths(q) + if IsAuth(x) then 1 else 0
  {
    if q == [] {
      assert (q + [x])[1..] == [];
    } else {
      AuthsAppend(q[1..], x);
      assert (q + [x])[1..] == q[1..] + [x];
    }
  }

  lemma NoAuths()
    ensures Auths([]) == 0
  {
  }

  /** The trailing failures of a longer queue. */
  lemma TrailingNext(q: Records, x: LogRecord)
    ensures var n := Auths(q[AfterLastSuccess(q)..]);
      var all := q + [x];
      Auths(all[AfterLastSuccess(all)..]) == if x.action != "auth" then n else if x.status == "fail" then n + 1 else 0
  {
    hide Auths;
    var all := q + [x];
    assert all[..|q|] == q;
    if x.action == "auth" && x.status != "fail" {
      assert all[|all|..] == [] && Auths([]) == 0 by { NoAuths(); }
    } else {
      var k := AfterLastSuccess(q);
      assert AfterLastSuccess(all) == k;
      assert all[k..] == q[k..] + [x];
      AuthsAppend(q[k..], x);
    }
  }

  lemma TrailingAtNext(h: Records, at: set<nat>)
    requires h != []
    ensures var n := |h| - 1;
      var before := TrailingAt(h[..n], at);
      TrailingAt(h, at) ==
        if n !in at || h[n].action != "auth" then before else if h[n].status == "fail" then before + {n} else {}
  {
    var n := |h| - 1;
    assert forall i :: 0 <= i < n ==> h[..n][i] == h[i];
  }

  lemma NothingTrails(at: set<nat>)
    ensures Auths([][AfterLastSuccess([])..]) == 0 == |TrailingAt([], at)|
  {
    assert TrailingAt([], at) == {};
  }

  lemma NotYet(h: Records, at: set<nat>)
    requires h != []
    ensures |h| - 1 !in TrailingAt(h[..|h| - 1], at)
  {
  }

  lemma {:induction false} TrailingOfSub(h: Records, at: set<nat>)
    ensures var q := Sub(h, at); Auths(q[AfterLastSuccess(q)..]) == |TrailingAt(h, at)|
  {
    hide Auths, AfterLastSuccess, TrailingAt;
    if h == [] {
      NothingTrails(at);
    } else {
      var n := |h| - 1;
      var front := Sub(h[..n], at);
      TrailingOfSub(h[..n], at);
      TrailingAtNext(h, at);
      NotYet(h, at);
      if n in at { TrailingNext(front, h[n]); }
      assert front + [] == front;
    }
  }

  lemma RecentBelow(h: Records, at: set<nat>, cap: int, span: int)
    requires h != []
    ensures Below(RecentAt(h, at, cap, span), |h|) == RecentAt(h, at, cap, span)
  {
    hide BehindIn;
  }

  /** The naive verdict is said in terms of positions alone. */
  lemma VerdictIsJudged(h: Records, c: Config, cap: int, span: int)
    requires h != []
    ensures NaiveVerdict(h, c, cap, span) == Judged(h, c, cap, span)
  {
    hide Recent, RecentAt, Under, Sizes, SizesAt, Sub, ConnectPorts, SourcesOf, Auths, AfterLastSuccess, Anomalous,
      PortsAt, SourcesAt, TrailingAt;
    var src, dst := RecentAt(h, FromSource(h), cap, span), RecentAt(h, ToDestination(h), cap, span);
    RecentIsSub(SrcOf, h, FromSource(h), cap, span);
    RecentIsSub(DstOf, h, ToDestination(h), cap, span);
    PortsOfSub(h, src);
    TrailingOfSub(h, src);
    SourcesOfSub(h, dst);
    SubLength(h, dst);
    assert Below(dst, |h|) == dst by { RecentBelow(h, ToDestination(h), cap, span); }
    UnderIsSub(SrcOf, h[|h| - 1].srcIp, h, FromSource(h));
    SizesOfSub(h, FromSource(h));
  }

  // ---------------------------------------------------------------- the class

  /** The sizes of one source grow by the new record, those of the others do not. */
  lemma StatsAdvance(h: Records, r: LogRecord)
    ensures Sizes(Under(SrcOf, r.srcIp, h + [r])) == Sizes(Under(SrcOf, r.srcIp, h)) + [r.bytes as real]
    ensures OnePass(Sizes(Under(SrcOf, r.srcIp, h + [r])))
         == Update(OnePass(Sizes(Under(SrcOf, r.srcIp, h))), r.bytes as real)
    ensures forall k :: k != r.srcIp ==> Under(SrcOf, k, h + [r]) == Under(SrcOf, k, h)
  {
    hide Update;
    assert (h + [r])[..|h|] == h;
    var q := Under(SrcOf, r.srcIp, h);
    assert (q + [r])[..|q|] == q;
    var xs := Sizes(q);
    assert (xs + [r.bytes as real])[..|xs|] == xs;
  }

  class Detectors {
    const config: Config
    const root: real -> real
    const bySrc: KeyedSlidingWindow
    const byDst: KeyedSlidingWindow
    var bytesStats: map<string, (real, real)>
    var count: map<string, nat>
    ghost var fed: Records

    constructor (config: Config, span: int, cap: int, root: real -> real)
      ensures Valid() && fed == [] && this.config == config && this.root == root
      ensures bySrc.span == span && bySrc.cap == cap && fresh(bySrc) && fresh(byDst)
    {
      this.config, this.root := config, root;
      bySrc := new KeyedSlidingWindow(span, cap);
      byDst := new KeyedSlidingWindow(span, cap);
      bytesStats, count, fed := map[], map[], [];
    }

    function StatsOf(k: string): Stats
      reads this`bytesStats, this`count
    {
      var pair := if k in bytesStats then bytesStats[k] else (0.0, 0.0);
      Stats(if k in count then count[k] else 0, pair.0, pair.1)
    }

    ghost predicate Valid()
      reads this, bySrc, byDst
    {
      && bySrc != byDst && bySrc.span == byDst.span && bySrc.cap == byDst.cap
      && bySrc.Valid() && bySrc.ops == OpsBy(SrcOf, fed)
      && byDst.Valid() && byDst.ops == OpsBy(DstOf, fed)
      && forall k :: StatsOf(k) == OnePass(Sizes(Under(SrcOf, k, fed)))
    }

    method DistinctPorts(dq: Records) returns (ports: set<int>)
      ensures ports == ConnectPorts(dq)
    {
      ports := {};
      for i := 0 to |dq|
        invariant ports == ConnectPorts(dq[..i])
      {
        assert dq[..i + 1] == dq[..i] + [dq[i]];
        if dq[i].action == "connect" { ports := ports + {dq[i].dstPort}; }
      }
      assert dq[..|dq|] == dq;
    }

    /** Walks back from the newest record while the authentications fail. */
    method TrailingFailures(dq: Records) returns (fails: nat)
      ensures fails == Auths(dq[AfterLastSuccess(dq)..])
    {
      fails := 0;
      var i := |dq|;
      while i > 0
        invariant 0 <= i <= |dq| && fails == Auths(dq[i..])
        invariant forall j :: i <= j < |dq| && IsAuth(dq[j]) ==> IsFailure(dq[j])
      {
        var x := dq[i - 1];
        assert dq[i - 1..][1..] == dq[i..];
        if x.action == "auth" {
          if x.status == "fail" { fails := fails + 1; } else { break; }
        }
        i := i - 1;
      }
      LastSuccessUnique(dq, i);
    }

    method DistinctSources(dq: Records) returns (uniq: set<string>)
      ensures uniq == SourcesOf(dq)
    {
      uniq := {};
      for i := 0 to |dq|
        invariant uniq == SourcesOf(dq[..i])
      {
        assert dq[..i + 1] == dq[..i] + [dq[i]];
        uniq := uniq + {dq[i].srcIp};
      }
      assert dq[..|dq|] == dq;
    }

    /** Updates the byte statistics of the source. */
    method UpdateBytes(r: LogRecord) returns (s: Stats)
      modifies this`bytesStats, this`count
      ensures s == StatsOf(r.srcIp) == Update(old(StatsOf(r.srcIp)), r.bytes as real)
      ensures forall k :: k != r.srcIp ==> StatsOf(k) == old(StatsOf(k))
    {
      var st := if r.srcIp in bytesStats then bytesStats[r.srcIp] else (0.0, 0.0);
      var n := (if r.srcIp in count then count[r.srcIp] else 0) + 1;
      var mean, dev := st.0, st.1;
      var x := r.bytes as real;
      var d := x - mean;
      mean := mean + d / n as real;
      var d2 := x - mean;
      dev := dev + d * d2;
      count := count[r.srcIp := n];
      bytesStats := bytesStats[r.srcIp := (mean, dev)];
      s := Stats(n, mean, dev);
    }

    /** The z-score test of the newest value. */
    method TestScore(s: Stats, x: real) returns (anomalous: bool)
      ensures anomalous == ZTest(s, x, config.anomalyZ, root)
    {
      anomalous := false;
      if s.n > 5 && s.dev > 0.0 {
        var sd := root(s.dev / (s.n - 1) as real);
        if sd > 0.0 {
          var z := (x - s.mean) / sd;
          anomalous := Abs(z) >= config.anomalyZ;
        }
      }
    }

    method TestBytes(r: LogRecord) returns (anomalous: bool)
      modifies this`bytesStats, this`count
      ensures StatsOf(r.srcIp) == Update(old(StatsOf(r.srcIp)), r.bytes as real)
      ensures forall k :: k != r.srcIp ==> StatsOf(k) == old(StatsOf(k))
      ensures anomalous == ZTest(StatsOf(r.srcIp), r.bytes as real, config.anomalyZ, root)
    {
      hide *;
      var s := UpdateBytes(r);
      anomalous := TestScore(s, r.bytes as real);
    }

    /** Enters the record into both windows and evicts what is stale from both. */
    method Enter(r: LogRecord)
      requires Valid()
      modifies bySrc, byDst
      ensures bySrc.Valid() && bySrc.ops == OpsBy(SrcOf, fed + [r])
      ensures byDst.Valid() && byDst.ops == OpsBy(DstOf, fed + [r])
    {
      hide KeyedSlidingWindow.Valid;
      assert (fed + [r])[..|fed + [r]| - 1] == fed;
      bySrc.Add(r, r.srcIp);
      byDst.Add(r, r.dstIp);
      bySrc.Evict(r.ts);
      byDst.Evict(r.ts);
    }

    method JudgeSource(dq: Records, r: LogRecord) returns (out: seq<Finding>)
      ensures out == PortScan(dq, r, config) + BruteForce(dq, r, config)
    {
      hide ConnectPorts, Auths, AfterLastSuccess;
      out := [];
      var ports := DistinctPorts(dq);
      if |ports| >= config.portscanUniquePorts {
        out := out + [Finding("port_scan", r.srcIp, "unique ports >= threshold", r.ts)];
      }
      var fails := TrailingFailures(dq);
      if fails >= config.bruteforceFailures {
        out := out + [Finding("brute_force", r.srcIp, "consecutive auth fail >= threshold", r.ts)];
      }
    }

    method JudgeDestination(dq: Records, r: LogRecord) returns (out: seq<Finding>)
      ensures out == Volumetric(dq, r, config)
    {
      out := [];
      if |dq| >= config.ddosEvents {
        var uniq := DistinctSources(dq);
        if |uniq| >= config.ddosUniqueSources {
          out := out + [Finding("ddos_volumetric", r.dstIp, "burst events and unique sources high", r.ts)];
        }
      }
    }

    /** Feeds one record. For records in time order, what is found is what the whole history says. */
    method Feed(r: LogRecord) returns (out: seq<Finding>)
      requires Valid()
      modifies this, bySrc, byDst
      ensures Valid() && fed == old(fed) + [r]
      ensures IsRoot(root) && Sorted(fed, Ts) ==>
        out == NaiveVerdict(fed, config, bySrc.cap, bySrc.span) == Judged(fed, config, bySrc.cap, bySrc.span)
    {
      hide KeyedSlidingWindow.Valid, OpsBy, Content, Recent, Sorted, IsRoot, Update, OnePass, ZTest, Anomalous,
        Under, Sizes, PortScan, BruteForce, Volumetric, Judged;
      ghost var h := fed + [r];
      Enter(r);
      var dq := bySrc.Get(r.srcIp);
      out := JudgeSource(dq, r);
      ghost var dq' := dq;
      dq := byDst.Get(r.dstIp);
      var found := JudgeDestination(dq, r);
      out := out + found;
      var anomalous := TestBytes(r);
      if anomalous {
        out := out + [Finding("bytes_anomaly", r.srcIp, "z-score |z| >= threshold", r.ts)];
      }
      StatsAdvance(fed, r);
      forall k ensures StatsOf(k) == OnePass(Sizes(Under(SrcOf, k, h))) {
        assert old(StatsOf(k)) == OnePass(Sizes(Under(SrcOf, k, fed)));
        if k == r.srcIp { assert StatsOf(k) == Update(old(StatsOf(r.srcIp)), r.bytes as real); }
      }
      fed := h;
      assert Valid();
      if IsRoot(root) && Sorted(h, Ts) {
        QueueIsRecent(SrcOf, h, bySrc.cap, bySrc.span);
        QueueIsRecent(DstOf, h, bySrc.cap, bySrc.span);
        ZTestIsAnomalous(Sizes(Under(SrcOf, r.srcIp, h)), config.anomalyZ, root);
        assert out == PortScan(dq', r, config) + BruteForce(dq', r, config) + Volumetric(dq, r, config)
          + Anomaly(anomalous, r);
        VerdictIsJudged(h, config, bySrc.cap, bySrc.span);
      }
    }
  }
}
