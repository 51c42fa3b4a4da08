/** The three detectors of the current version, and the analysis of a whole stream by one worker:
  what it finds is what a naive analyser finds that searches the whole history for every record. */
module Analysis {
  import opened Common
  import opened Expiry
  import opened Records
  import opened Tally
  import opened Window
  import opened Decimal
  import opened Positions

  datatype Finding = Finding(kind: string, key: string, ts: int, details: string)

  datatype Thresholds = Thresholds(portscanAttempts: int, ddosUnique: int, bruteforceFailures: int)

  // ------------------------------------------------------------ one record

  function PortscanReport(r: LogRecord, n: int, t: Thresholds): seq<Finding> {
    if n < t.portscanAttempts then []
    else [Finding("portscan", r.srcIp + "->" + r.dstIp + ":" + ToString(r.dstPort), r.ts, "attempts=" + ToString(n))]
  }

  function DdosReport(r: LogRecord, n: int, t: Thresholds): seq<Finding> {
    if n < t.ddosUnique then [] else [Finding("ddos", r.dstIp, r.ts, "unique_attackers=" + ToString(n))]
  }

  function BruteforceReport(r: LogRecord, n: int, t: Thresholds): seq<Finding> {
    if r.username == "" || n < t.bruteforceFailures then []
    else [Finding("bruteforce", r.username, r.ts, "failures=" + ToString(n))]
  }

  function Portscan(r: LogRecord, q: seq<LogRecord>, t: Thresholds): seq<Finding> {
    PortscanReport(r, Occurs(q, TripleOf, Key3(r.srcIp, r.dstIp, r.dstPort)), t)
  }

  /** What the records q give to say about the record r. */
  function Verdict(r: LogRecord, q: seq<LogRecord>, t: Thresholds): seq<Finding> {
    Portscan(r, q, t) + DdosReport(r, |Sources(q, r.dstIp)|, t) + BruteforceReport(r, Occurs(q, LoginOf, r.username), t)
  }

  /** What the maps of the window give to say about it, when q is queued and h has been added. */
  function Reported(span: int, r: LogRecord, q: seq<LogRecord>, h: seq<LogRecord>, t: Thresholds): seq<Finding> {
    PortscanReport(r, Held(span, q, h, TripleOf, Key3(r.srcIp, r.dstIp, r.dstPort)), t)
      + DdosReport(r, |Sources(Known(span, q, h), r.dstIp)|, t)
      + BruteforceReport(r, Held(span, q, h, LoginOf, r.username), t)
  }

  lemma ReportedIsVerdict(span: nat, r: LogRecord, q: seq<LogRecord>, h: seq<LogRecord>, t: Thresholds)
    ensures Reported(span, r, q, h, t) == Verdict(r, q, t)
  {
    hide PortscanReport, DdosReport, BruteforceReport, Occurs, Sources;
  }

  method DetectPortscan(w: SlidingWindow, r: LogRecord, t: Thresholds, out: seq<Finding>) returns (out': seq<Finding>)
    requires w.Valid()
    ensures out' == out
      + PortscanReport(r, Held(w.span, w.q, Added(w.ops), TripleOf, Key3(r.srcIp, r.dstIp, r.dstPort)), t)
    ensures w.span >= 0 ==> out' == out + Portscan(r, w.q, t)
  {
    hide Occurs, SlidingWindow.Valid, Added;
    out' := out;
    var attempts := w.PortAttempts(r.srcIp, r.dstIp, r.dstPort);
    if attempts >= t.portscanAttempts {
      out' := out' + [Finding("portscan", r.srcIp + "->" + r.dstIp + ":" + ToString(r.dstPort), r.ts,
        "attempts=" + ToString(attempts))];
    }
  }

  method DetectDdos(w: SlidingWindow, r: LogRecord, t: Thresholds, out: seq<Finding>) returns (out': seq<Finding>)
    requires w.Valid()
    ensures out' == out + DdosReport(r, |Sources(Known(w.span, w.q, Added(w.ops)), r.dstIp)|, t)
  {
    hide SlidingWindow.Valid, Added, Sources;
    out' := out;
    var uniq := w.UniqAttackers(r.dstIp);
    if uniq >= t.ddosUnique {
      out' := out' + [Finding("ddos", r.dstIp, r.ts, "unique_attackers=" + ToString(uniq))];
    }
  }

  method DetectBruteforce(w: SlidingWindow, r: LogRecord, t: Thresholds, out: seq<Finding>) returns (out': seq<Finding>)
    requires w.Valid()
    ensures out' == out + BruteforceReport(r, Held(w.span, w.q, Added(w.ops), LoginOf, r.username), t)
  {
    hide Occurs, SlidingWindow.Valid, Added;
    out' := out;
    if r.username != "" {
      var fails := w.AuthFailures(r.username);
      if fails >= t.bruteforceFailures {
        out' := out' + [Finding("bruteforce", r.username, r.ts, "failures=" + ToString(fails))];
      }
    }
  }

  // ------------------------------------------------------------ whole runs

  /** The queue of the window after the records h have been added. */
  function Queue(span: int, h: seq<LogRecord>): seq<LogRecord> {
    if h == [] then [] else
      var r := h[|h| - 1];
      DropStale(Queue(span, h[..|h| - 1]) + [r], Ts, r.ts - span)
  }

  function Streamed(span: int, t: Thresholds, h: seq<LogRecord>): seq<Finding> {
    if h == [] then []
    else Streamed(span, t, h[..|h| - 1]) + Reported(span, h[|h| - 1], Queue(span, h), h, t)
  }

  /** The naive analyser: for every record, all records of the history so far that are not older than the span. */
  function Naive(span: int, t: Thresholds, h: seq<LogRecord>): seq<Finding> {
    if h == [] then [] else
      var r := h[|h| - 1];
      Naive(span, t, h[..|h| - 1]) + Verdict(r, Fresh(h, Ts, r.ts - span), t)
  }

  lemma LastTwo(h: seq<LogRecord>)
    requires |h| >= 2 && Sorted(h, Ts)
    ensures h[|h| - 2].ts <= h[|h| - 1].ts
  {
    assert Ts(h[|h| - 2]) <= Ts(h[|h| - 1]);
  }

  lemma {:induction false} QueueIsDropped(span: int, h: seq<LogRecord>)
    requires h != [] && Sorted(h, Ts)
    ensures Queue(span, h) == DropStale(h, Ts, h[|h| - 1].ts - span)
  {
    hide DropStale, Sorted;
    var front, r := h[..|h| - 1], h[|h| - 1];
    assert h == front + [r];
    SortedPrefix(h, Ts, |h| - 1);
    if front != [] {
      QueueIsDropped(span, front);
      LastTwo(h);
      DropTwice(front, Ts, front[|front| - 1].ts - span, r.ts - span, [r]);
    }
  }

  /** For non-decreasing time stamps the queue holds exactly the records within the span. */
  lemma {:induction false} QueueIsFresh(span: int, h: seq<LogRecord>)
    requires h != [] && Sorted(h, Ts)
    ensures Queue(span, h) == Fresh(h, Ts, h[|h| - 1].ts - span)
  {
    hide Queue, DropStale, Fresh, Sorted;
    QueueIsDropped(span, h);
    SortedDropIsFresh(h, Ts, h[|h| - 1].ts - span);
  }

  lemma {:induction false} StreamedIsNaive(span: nat, t: Thresholds, h: seq<LogRecord>)
    requires Sorted(h, Ts)
    ensures Streamed(span, t, h) == Naive(span, t, h)
  {
    hide Verdict, Reported, Queue, Fresh, Sorted;
    if h != [] {
      SortedPrefix(h, Ts, |h| - 1);
      StreamedIsNaive(span, t, h[..|h| - 1]);
      QueueIsFresh(span, h);
      ReportedIsVerdict(span, h[|h| - 1], Queue(span, h), h, t);
    }
  }

  lemma NothingToSay(r: LogRecord, t: Thresholds)
    requires t == Thresholds(1, 1, 1)
    ensures Verdict(r, [], t) == []
  {
    assert Sources([], r.dstIp) == {};
  }

  /** With a negative span the first record already makes the difference. */
  lemma NegativeSpanDiffers(span: int, r: LogRecord)
    requires span < 0
    ensures Streamed(span, Thresholds(1, 1, 1), [r]) != Naive(span, Thresholds(1, 1, 1), [r])
  {
    hide Queue, DdosReport, BruteforceReport;
    var t, h := Thresholds(1, 1, 1), [r];
    assert h[..0] == [] && Ts(r) == r.ts;
    assert Fresh(h, Ts, r.ts - span) == [];
    assert Occurs(h, TripleOf, Key3(r.srcIp, r.dstIp, r.dstPort)) == 1;
    assert |PortscanReport(r, 1, t)| == 1;
    assert Verdict(r, [], t) == [] by { NothingToSay(r, t); }
  }

  /** The streamed findings are the naive ones, for all thresholds and all ordered streams, exactly when the span is
    not negative. */
  lemma StreamedIsNaiveExactly(span: int)
    ensures (forall t, h :: Sorted(h, Ts) ==> Streamed(span, t, h) == Naive(span, t, h)) <==> span >= 0
  {
    hide Streamed, Naive;
    if span >= 0 {
      forall t, h | Sorted(h, Ts) ensures Streamed(span, t, h) == Naive(span, t, h) { StreamedIsNaive(span, t, h); }
    } else {
      var r := LogRecord(0, "", "", 0, 0, "", "", 0, "");
      NegativeSpanDiffers(span, r);
      assert Sorted([r], Ts);
    }
  }

  /** A record that some later one is more than the span newer than. */
  ghost predicate Outdated(span: int, h: seq<LogRecord>, i: nat)
    requires i < |h|
  {
    exists j :: i < j < |h| && h[i].ts < h[j].ts - span
  }

  /** The first record that the newest one leaves fresh is not outdated, if the first one queued before was not. */
  lemma FrontNotOutdated(span: nat, h: seq<LogRecord>, gone: nat, k: nat)
    requires gone + k < |h| && h[gone + k].ts >= h[|h| - 1].ts - span
    requires gone < |h| - 1 ==> !Outdated(span, h[..|h| - 1], gone)
    requires k > 0 ==> h[gone].ts < h[|h| - 1].ts - span
    ensures !Outdated(span, h, gone + k)
  {
    var front := h[..|h| - 1];
    forall j | gone + k < j < |h| ensures h[gone + k].ts >= h[j].ts - span {
      if j < |front| { assert front[gone].ts >= front[j].ts - span; }
    }
  }

  lemma StaysOutdated(span: nat, h: seq<LogRecord>, i: nat)
    requires i < |h| - 1 && Outdated(span, h[..|h| - 1], i)
    ensures Outdated(span, h, i)
  {
    var front := h[..|h| - 1];
    var j :| i < j < |front| && front[i].ts < front[j].ts - span;
    assert h[i].ts < h[j].ts - span;
  }

  /** All records before g are outdated, and record g is not. */
  ghost predicate CutAt(span: nat, h: seq<LogRecord>, g: nat)
    requires g <= |h|
  {
    && (forall i: nat :: i < g ==> Outdated(span, h, i))
    && (g < |h| ==> !Outdated(span, h, g))
  }

  lemma NewestOutdates(span: nat, h: seq<LogRecord>, i: nat)
    requires i < |h| && h[i].ts < h[|h| - 1].ts - span
    ensures Outdated(span, h, i)
  {
  }

  /** Popping what the newest record makes stale moves the cut. */
  lemma CutMoves(span: nat, h: seq<LogRecord>, g: nat)
    requires h != [] && g <= |h| - 1 && CutAt(span, h[..|h| - 1], g)
    ensures CutAt(span, h, g + FirstFresh(h[g..], Ts, h[|h| - 1].ts - span))
  {
    hide FirstFresh, Outdated;
    var all, newest := h[g..], h[|h| - 1];
    var k := FirstFresh(all, Ts, newest.ts - span);
    assert forall j :: 0 <= j < |all| ==> all[j] == h[g + j];
    forall i: nat | i < g + k ensures Outdated(span, h, i) {
      if i < g {
        StaysOutdated(span, h, i);
      } else {
        assert Ts(all[i - g]) < newest.ts - span;
        assert Ts(all[|all| - 1]) >= newest.ts - span;
        NewestOutdates(span, h, i);
      }
    }
    if g + k < |h| {
      assert Ts(all[k]) >= newest.ts - span;
      assert k > 0 ==> Ts(all[0]) < newest.ts - span;
      FrontNotOutdated(span, h, g, k);
    }
  }

  /** The queue is what the cut leaves. */
  ghost predicate LeftByCut(span: nat, h: seq<LogRecord>, q: seq<LogRecord>) {
    |q| <= |h| && q == h[|h| - |q|..] && CutAt(span, h, |h| - |q|)
  }

  lemma DropMovesCut(span: nat, h: seq<LogRecord>, q: seq<LogRecord>, r: LogRecord)
    requires LeftByCut(span, h, q)
    ensures LeftByCut(span, h + [r], DropStale(q + [r], Ts, r.ts - span))
  {
    hide FirstFresh, CutAt;
    var all, g := h + [r], |h| - |q|;
    assert all[..|h|] == h;
    assert all[g..] == q + [r];
    CutMoves(span, all, g);
    var k := FirstFresh(q + [r], Ts, r.ts - span);
    assert (q + [r])[k..] == all[g + k..];
  }

  lemma NothingCut(span: nat)
    ensures LeftByCut(span, [], [])
  {
  }

  lemma {:induction false} QueueIsLeft(span: nat, h: seq<LogRecord>)
    ensures LeftByCut(span, h, Queue(span, h))
  {
    hide LeftByCut, DropStale;
    if h == [] {
      NothingCut(span);
    } else {
      var front, r := h[..|h| - 1], h[|h| - 1];
      assert h == front + [r];
      QueueIsLeft(span, front);
      DropMovesCut(span, front, Queue(span, front), r);
    }
  }

  /** For time stamps in any order: the queue is the suffix of the history that begins with the first record that no
    later one is more than the span newer than. */
  lemma QueueIsSuffix(span: nat, h: seq<LogRecord>)
    ensures |Queue(span, h)| <= |h| && Queue(span, h) == h[|h| - |Queue(span, h)|..]
    ensures forall i: nat :: i < |h| - |Queue(span, h)| ==> Outdated(span, h, i)
    ensures Queue(span, h) != [] ==> !Outdated(span, h, |h| - |Queue(span, h)|)
  {
    hide Outdated, Queue;
    QueueIsLeft(span, h);
  }

  /** The queue of a window to which records are only added. */
  lemma {:induction false} RunIsQueue(span: int, ops: seq<Op>)
    requires forall op :: op in ops ==> op.Add?
    ensures Run(span, ops).q == Queue(span, Added(ops))
  {
    hide Enter, TakeAll, FirstFresh;
    if ops != [] {
      var front := ops[..|ops| - 1];
      assert ops[|ops| - 1] in ops;
      RunIsQueue(span, front);
      assert Added(ops)[..|Added(front)|] == Added(front);
    }
  }

  lemma QueueStart(span: int, t: Thresholds)
    ensures Queue(span, []) == [] && Streamed(span, t, []) == []
  {
  }

  lemma QueueNext(span: int, t: Thresholds, h: seq<LogRecord>, r: LogRecord)
    ensures Queue(span, h + [r]) == DropStale(Queue(span, h) + [r], Ts, r.ts - span)
    ensures Streamed(span, t, h + [r]) == Streamed(span, t, h) + Reported(span, r, Queue(span, h + [r]), h + [r], t)
  {
    assert (h + [r])[..|h|] == h;
  }

  // ------------------------------------------------ what the findings mean

  predicate Recent(r: LogRecord, now: LogRecord, span: int) { r.ts >= now.ts - span }

  /** Up to record j and within the span, the records from its source to the same port of its destination. */
  ghost function PortTries(h: seq<LogRecord>, j: nat, span: int): set<nat>
    requires j < |h|
  {
    set i: nat | i <= j && Recent(h[i], h[j], span)
      && h[i].srcIp == h[j].srcIp && h[i].dstIp == h[j].dstIp && h[i].dstPort == h[j].dstPort
  }

  /** The sources of the records for its destination. */
  ghost function Attackers(h: seq<LogRecord>, j: nat, span: int): set<string>
    requires j < |h|
  {
    set i: nat | i <= j && Recent(h[i], h[j], span) && h[i].dstIp == h[j].dstIp :: h[i].srcIp
  }

  /** The failed logins of its user. */
  ghost function FailedLogins(h: seq<LogRecord>, j: nat, span: int): set<nat>
    requires j < |h|
  {
    set i: nat | i <= j && Recent(h[i], h[j], span) && h[i].username == h[j].username
      && h[i].action == "login" && h[i].status in {"failed", "fail", "error"}
  }

  /** The findings that record j calls for, in order. */
  ghost function CalledFor(h: seq<LogRecord>, j: nat, span: int, t: Thresholds): seq<Finding>
    requires j < |h|
  {
    var r := h[j];
    var tries, attackers, logins := |PortTries(h, j, span)|, |Attackers(h, j, span)|, |FailedLogins(h, j, span)|;
    (if tries >= t.portscanAttempts
     then [Finding("portscan", r.srcIp + "->" + r.dstIp + ":" + ToString(r.dstPort), r.ts, "attempts=" + ToString(tries))]
     else [])
    + (if attackers >= t.ddosUnique
       then [Finding("ddos", r.dstIp, r.ts, "unique_attackers=" + ToString(attackers))] else [])
    + (if r.username != "" && logins >= t.bruteforceFailures
       then [Finding("bruteforce", r.username, r.ts, "failures=" + ToString(logins))] else [])
  }

  lemma PositionsOfTries(h: seq<LogRecord>, span: int)
    requires h != []
    ensures var r := h[|h| - 1];
      Occurs(Fresh(h, Ts, r.ts - span), TripleOf, Key3(r.srcIp, r.dstIp, r.dstPort)) == |PortTries(h, |h| - 1, span)|
  {
    hide Fresh, Sub, Occurs;
    var r := h[|h| - 1];
    var k, at := Key3(r.srcIp, r.dstIp, r.dstPort), FreshAt(h, All(|h|), Ts, r.ts - span);
    FreshOfAll(h, Ts, r.ts - span);
    SubOccurs(h, at, TripleOf, k);
    assert Having(h, at, TripleOf, k) == PortTries(h, |h| - 1, span);
  }

  lemma PositionsOfLogins(h: seq<LogRecord>, span: int)
    requires h != []
    ensures var r := h[|h| - 1];
      Occurs(Fresh(h, Ts, r.ts - span), LoginOf, r.username) == |FailedLogins(h, |h| - 1, span)|
  {
    hide Fresh, Sub, Occurs;
    var r := h[|h| - 1];
    var at := FreshAt(h, All(|h|), Ts, r.ts - span);
    FreshOfAll(h, Ts, r.ts - span);
    SubOccurs(h, at, LoginOf, r.username);
    assert Having(h, at, LoginOf, r.username) == FailedLogins(h, |h| - 1, span);
  }

  lemma SourcesAreAttackers(h: seq<LogRecord>, span: int)
    requires h != []
    ensures var r := h[|h| - 1]; Sources(Fresh(h, Ts, r.ts - span), r.dstIp) == Attackers(h, |h| - 1, span)
  {
    hide Fresh, Sub;
    var r := h[|h| - 1];
    var at := FreshAt(h, All(|h|), Ts, r.ts - span);
    var q := Sub(h, at);
    FreshOfAll(h, Ts, r.ts - span);
    forall x ensures x in q <==> exists i :: i in at && i < |h| && h[i] == x { SubMembers(h, at, x); }
  }

  /** The verdict is said in terms of the positions in the history alone. */
  lemma VerdictIsCalledFor(h: seq<LogRecord>, span: int, t: Thresholds)
    requires h != []
    ensures Verdict(h[|h| - 1], Fresh(h, Ts, h[|h| - 1].ts - span), t) == CalledFor(h, |h| - 1, span, t)
  {
    hide Fresh, Occurs, Sources, PortTries, Attackers, FailedLogins;
    PositionsOfTries(h, span);
    SourcesAreAttackers(h, span);
    PositionsOfLogins(h, span);
  }

  lemma CalledForInFront(h: seq<LogRecord>, j: nat, span: int, t: Thresholds)
    requires j + 1 < |h|
    ensures CalledFor(h[..|h| - 1], j, span, t) == CalledFor(h, j, span, t)
  {
    var front := h[..|h| - 1];
    assert forall i :: 0 <= i <= j ==> front[i] == h[i];
    assert PortTries(front, j, span) == PortTries(h, j, span);
    assert Attackers(front, j, span) == Attackers(h, j, span);
    assert FailedLogins(front, j, span) == FailedLogins(h, j, span);
  }

  /** The findings that the first n records call for. */
  ghost function AllCalledFor(h: seq<LogRecord>, n: nat, span: int, t: Thresholds): seq<Finding>
    requires n <= |h|
  {
    if n == 0 then [] else AllCalledFor(h, n - 1, span, t) + CalledFor(h, n - 1, span, t)
  }

  lemma {:induction false} AllCalledForInFront(h: seq<LogRecord>, n: nat, span: int, t: Thresholds)
    requires n < |h|
    ensures AllCalledFor(h[..|h| - 1], n, span, t) == AllCalledFor(h, n, span, t)
  {
    hide CalledFor;
    if n > 0 {
      AllCalledForInFront(h, n - 1, span, t);
      CalledForInFront(h, n - 1, span, t);
    }
  }

  /** Over an ordered stream the findings are those that the records call for, one after the other. */
  lemma {:induction false} FindingsAreCalledFor(span: nat, t: Thresholds, h: seq<LogRecord>)
    requires Sorted(h, Ts)
    ensures Streamed(span, t, h) == AllCalledFor(h, |h|, span, t)
  {
    hide Sorted, Queue, Reported, Verdict, CalledFor, Fresh;
    if h != [] {
      var front := h[..|h| - 1];
      SortedPrefix(h, Ts, |h| - 1);
      FindingsAreCalledFor(span, t, front);
      AllCalledForInFront(h, |h| - 1, span, t);
      QueueIsFresh(span, h);
      ReportedIsVerdict(span, h[|h| - 1], Queue(span, h), h, t);
      VerdictIsCalledFor(h, span, t);
    }
  }

  /** What the worker does with one record. */
  method AnalyzeRecord(win: SlidingWindow, t: Thresholds, rec: LogRecord) returns (out: seq<Finding>)
    requires win.Valid()
    modifies win
    ensures win.Valid() && Added(win.ops) == old(Added(win.ops)) + [rec]
    ensures win.q == DropStale(old(win.q) + [rec], Ts, rec.ts - win.span)
    ensures out == Reported(win.span, rec, win.q, Added(win.ops), t)
  {
    hide PortscanReport, DdosReport, BruteforceReport, Held, Known, Sources, DropStale, Added, SlidingWindow.Valid;
    AddedNext(win.ops, Op.Add(rec));
    win.Add(rec);
    out := DetectPortscan(win, rec, t, []);
    out := DetectDdos(win, rec, t, out);
    out := DetectBruteforce(win, rec, t, out);
  }

  /** The worker's loop over the records of a stream, for one worker and without plugins. */
  method Analyze(span: int, t: Thresholds, recs: seq<LogRecord>) returns (found: seq<Finding>)
    ensures found == Streamed(span, t, recs)
    ensures span >= 0 && Sorted(recs, Ts) ==> found == Naive(span, t, recs) == AllCalledFor(recs, |recs|, span, t)
  {
    hide Reported, Queue, DropStale, Sorted, SlidingWindow.Valid;
    assert recs[..0] == [];
    QueueStart(span, t);
    var win := new SlidingWindow(span);
    win.Facts();
    found := [];
    for i := 0 to |recs|
      invariant win.Valid() && win.span == span && win.q == Queue(span, recs[..i]) && Added(win.ops) == recs[..i]
      invariant found == Streamed(span, t, recs[..i])
    {
      assert recs[..i + 1] == recs[..i] + [recs[i]];
      QueueNext(span, t, recs[..i], recs[i]);
      var out := AnalyzeRecord(win, t, recs[i]);
      found := found + out;
    }
    assert recs[..|recs|] == recs;
    if span >= 0 && Sorted(recs, Ts) {
      StreamedIsNaive(span, t, recs);
      FindingsAreCalledFor(span, t, recs);
    }
  }
}
