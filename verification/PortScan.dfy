/** The port scan that the test of the detectors describes: many ports of one destination, tried by one source. The
  detector of the current version counts one source, destination and port, so it meets that description only as long
  as the source tries a single port. */
module PortScan {
  import opened Expiry
  import opened Records
  import opened Tally
  import opened Window
  import opened Analysis
  import Apex = ApexWindow

  /** The count of one port never exceeds the count of the pair, and reaches it exactly when no other port was tried. */
  lemma {:induction false} OnePortCountsAll(q: seq<LogRecord>, src: string, dst: string, p: int)
    ensures Occurs(q, TripleOf, Key3(src, dst, p)) <= Apex.Attempts(q, src, dst)
    ensures Occurs(q, TripleOf, Key3(src, dst, p)) == Apex.Attempts(q, src, dst) <==> Apex.Ports(q, src, dst) <= {p}
  {
    if q != [] {
      OnePortCountsAll(q[1..], src, dst, p);
      assert q == [q[0]] + q[1..];
      var here := if Apex.Between(q[0], src, dst) then {q[0].dstPort} else {};
      assert Apex.Ports(q, src, dst) == here + Apex.Ports(q[1..], src, dst);
    }
  }

  /** Whenever the source has reached the threshold against the destination, on whatever ports, a port scan is reported. */
  ghost predicate ReportsAll(r: LogRecord, q: seq<LogRecord>) {
    forall t: Thresholds :: Apex.Attempts(q, r.srcIp, r.dstIp) >= t.portscanAttempts ==> Portscan(r, q, t) != []
  }

  /** The detector does so, for all thresholds, if and only if all the attempts went to the port of the record. */
  lemma DetectorExactness(r: LogRecord, q: seq<LogRecord>)
    ensures ReportsAll(r, q) <==> Apex.Ports(q, r.srcIp, r.dstIp) <= {r.dstPort}
  {
    hide Apex.Attempts, Apex.Ports, Occurs;
    OnePortCountsAll(q, r.srcIp, r.dstIp, r.dstPort);
    var n := Apex.Attempts(q, r.srcIp, r.dstIp);
    if Occurs(q, TripleOf, Key3(r.srcIp, r.dstIp, r.dstPort)) < n {
      assert Portscan(r, q, Thresholds(n, 1, 1)) == [];
    }
  }

  // ------------------------------------------------------------ whole runs

  lemma {:induction false} FreshMembers(q: seq<LogRecord>, cutoff: int, r: LogRecord)
    ensures r in Fresh(q, Ts, cutoff) <==> r in q && r.ts >= cutoff
  {
    if q != [] {
      FreshMembers(q[..|q| - 1], cutoff, r);
      assert q == q[..|q| - 1] + [q[|q| - 1]];
    }
  }

  predicate SamePort(span: int, r: LogRecord, now: LogRecord) {
    r.ts >= now.ts - span && Apex.Between(r, now.srcIp, now.dstIp) ==> r.dstPort == now.dstPort
  }

  /** No source tries two ports of one destination within the span. */
  ghost predicate OnePortPerPair(span: int, h: seq<LogRecord>) {
    forall i, j :: 0 <= i < j < |h| ==> SamePort(span, h[i], h[j])
  }

  /** The condition at one record, in terms of the queue. */
  lemma PortsInQueue(span: nat, h: seq<LogRecord>, j: nat)
    requires j < |h| && Sorted(h, Ts)
    ensures Apex.Ports(Queue(span, h[..j + 1]), h[j].srcIp, h[j].dstIp) <= {h[j].dstPort}
      <==> forall i :: 0 <= i < j ==> SamePort(span, h[i], h[j])
  {
    hide Fresh, Queue, Sorted;
    var now, seen := h[j], h[..j + 1];
    SortedPrefix(h, Ts, j + 1);
    QueueIsFresh(span, seen);
    var q := Queue(span, seen);
    forall r ensures r in q <==> r in seen && r.ts >= now.ts - span { FreshMembers(seen, now.ts - span, r); }
    if forall i :: 0 <= i < j ==> SamePort(span, h[i], now) {
      forall r | r in q && Apex.Between(r, now.srcIp, now.dstIp) ensures r.dstPort == now.dstPort {
        var i :| 0 <= i <= j && seen[i] == r;
        assert i < j ==> SamePort(span, h[i], now);
      }
    } else {
      var i :| 0 <= i < j && !SamePort(span, h[i], now);
      assert seen[i] == h[i] && h[i] in q;
      assert h[i].dstPort in Apex.Ports(q, now.srcIp, now.dstIp);
    }
  }

  /** Over a whole ordered stream: every record with which a source reaches the threshold, on whatever ports, is reported,
    for all thresholds, if and only if no source tries two ports of one destination within the span. */
  lemma RunExactness(span: nat, h: seq<LogRecord>)
    requires Sorted(h, Ts)
    ensures (forall j :: 0 <= j < |h| ==> ReportsAll(h[j], Queue(span, h[..j + 1]))) <==> OnePortPerPair(span, h)
  {
    hide ReportsAll, Queue, Sorted, SamePort, Apex.Ports;
    forall j | 0 <= j < |h|
      ensures ReportsAll(h[j], Queue(span, h[..j + 1])) <==> forall i :: 0 <= i < j ==> SamePort(span, h[i], h[j])
    {
      DetectorExactness(h[j], Queue(span, h[..j + 1]));
      PortsInQueue(span, h, j);
    }
  }

  // ------------------------------------------------------------ the test

  const SRC := "1.1.1.1"
  const DST := "2.2.2.2"

  /** A record of the test: one source and one destination, on port p. */
  function Probe(p: int): LogRecord {
    LogRecord(1000, SRC, DST, 1234, p, "connect", "ok", 0, "-")
  }

  function Probes(ports: seq<int>): seq<LogRecord> {
    seq(|ports|, i requires 0 <= i < |ports| => Probe(ports[i]))
  }

  ghost predicate Distinct(ports: seq<int>) {
    forall i, j :: 0 <= i < j < |ports| ==> ports[i] != ports[j]
  }

  lemma ProbesQueued(ports: seq<int>)
    ensures Sorted(Probes(ports), Ts) && Queue(60, Probes(ports)) == Probes(ports)
  {
    hide Queue, Fresh;
    var h := Probes(ports);
    if h == [] {
      assert Queue(60, h) == [] by { QueueStart(60, Thresholds(0, 0, 0)); }
    } else {
      QueueIsFresh(60, h);
      AllFresh(h, Ts, 1000 - 60);
    }
  }

  lemma {:induction false} AllAttempts(q: seq<LogRecord>)
    requires forall r :: r in q ==> Apex.Between(r, SRC, DST)
    ensures Apex.Attempts(q, SRC, DST) == |q|
  {
    if q != [] { AllAttempts(q[1..]); }
  }

  lemma NewPortOccursOnce(ports: seq<int>, p: int)
    requires p !in ports
    ensures Occurs(Probes(ports) + [Probe(p)], TripleOf, Key3(SRC, DST, p)) == 1
  {
    var h, k := Probes(ports), Key3(SRC, DST, p);
    OccursAppend(h, TripleOf, k, Probe(p));
    OccursWitness(h, TripleOf, k);
  }

  /** The record of a new port gives no finding. */
  lemma ProbeUnreported(ports: seq<int>, p: int, t: Thresholds)
    requires p !in ports && t.portscanAttempts > 1 && t.ddosUnique > 1 && t.bruteforceFailures > 0
    ensures Verdict(Probe(p), Probes(ports) + [Probe(p)], t) == []
  {
    hide Occurs;
    var q := Probes(ports) + [Probe(p)];
    NewPortOccursOnce(ports, p);
    assert forall r :: r in q ==> r.srcIp == SRC && r.dstIp == DST && !FailedLogin(r);
    assert Probe(p) in q;
    assert Sources(q, DST) == {SRC};
    OccursWitness(q, LoginOf, "-");
  }

  /** However many ports of the destination the source tries, each of them once, nothing is ever reported. */
  lemma {:induction false} ScanUnreported(ports: seq<int>, t: Thresholds)
    requires Distinct(ports) && t.portscanAttempts > 1 && t.ddosUnique > 1 && t.bruteforceFailures > 0
    ensures Streamed(60, t, Probes(ports)) == []
    ensures Apex.Attempts(Queue(60, Probes(ports)), SRC, DST) == |ports|
  {
    hide Queue, Verdict, Reported;
    var h := Probes(ports);
    ProbesQueued(ports);
    AllAttempts(h);
    if ports != [] {
      var front, p := ports[..|ports| - 1], ports[|ports| - 1];
      assert h == Probes(front) + [Probe(p)];
      ScanUnreported(front, t);
      QueueNext(60, t, Probes(front), Probe(p));
      ReportedIsVerdict(60, Probe(p), h, h, t);
      ProbeUnreported(front, p, t);
    }
  }

  /** The records and thresholds of the test: three attempts on three ports reach the threshold of three, and nothing
    is reported, neither for the third record nor before. */
  lemma ThreePortsUnreported()
    ensures var h, t := [Probe(1), Probe(2), Probe(3)], Thresholds(3, 2, 2);
      Apex.Attempts(Queue(60, h), SRC, DST) == t.portscanAttempts && Streamed(60, t, h) == []
  {
    hide Queue, Streamed;
    var ports := [1, 2, 3];
    assert Probes(ports) == [Probe(1), Probe(2), Probe(3)];
    ScanUnreported(ports, Thresholds(3, 2, 2));
  }
}
