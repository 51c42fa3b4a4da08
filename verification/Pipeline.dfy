/** The program as a whole, with one worker: lines pass through the queue, are parsed, added to the window and analysed;
  the findings are counted, and the counts decide the exit code. The parser is an arbitrary function, so that it stands
  for both formats. */
module Pipeline {
  import opened Common
  import opened Expiry
  import opened Records
  import opened Tally
  import opened Positions
  import opened Window
  import opened Analysis
  import opened WorkQueue
  import Ndjson

  type Parser = string -> Option<LogRecord>

  /** The records of the lines that parse; the others are skipped. */
  function Parsed(parse: Parser, lines: seq<Line>): seq<LogRecord> {
    if lines == [] then []
    else
      var rec := parse(lines[|lines| - 1]);
      Parsed(parse, lines[..|lines| - 1]) + if rec.Some? then [rec.value] else []
  }

  /** What has been found when these lines have been processed. */
  function Found(span: int, t: Thresholds, parse: Parser, lines: seq<Line>): seq<Finding> {
    Streamed(span, t, Parsed(parse, lines))
  }

  function TypeOf(f: Finding): Option<string> { Some(f.kind) }

  lemma ParsedNext(parse: Parser, lines: seq<Line>, line: Line)
    ensures Parsed(parse, lines + [line]) == Parsed(parse, lines) + if parse(line).Some? then [parse(line).value] else []
  {
    assert (lines + [line])[..|lines|] == lines;
  }

  // --------------------------------------------------------------- the worker

  /** Counts the findings by type. */
  method CountFindings(counters: map<string, int>, out: seq<Finding>, ghost found: seq<Finding>)
    returns (counters': map<string, int>)
    requires Counts(counters, found, TypeOf)
    ensures Counts(counters', found + out, TypeOf)
  {
    hide Counts, Bump;
    counters' := counters;
    assert found + out[..0] == found;
    for i := 0 to |out|
      invariant Counts(counters', found + out[..i], TypeOf)
    {
      assert found + out[..i + 1] == found + out[..i] + [out[i]];
      BumpCounts(counters', found + out[..i], TypeOf, out[i]);
      counters' := Bump(counters', out[i].kind);
    }
    assert out[..|out|] == out;
  }

  lemma NothingParsed(parse: Parser)
    ensures Parsed(parse, []) == []
  {
  }

  lemma NothingFound()
    ensures Counts(map[], [], TypeOf)
  {
  }

  /** The worker's loop over the lines that it pops. */
  method ProcessLines(span: int, t: Thresholds, parse: Parser, lines: seq<Line>)
    returns (found: seq<Finding>, counters: map<string, int>)
    ensures found == Found(span, t, parse, lines)
    ensures Counts(counters, found, TypeOf)
    ensures span >= 0 && Sorted(Parsed(parse, lines), Ts) ==>
      var recs := Parsed(parse, lines); found == Naive(span, t, recs) == AllCalledFor(recs, |recs|, span, t)
  {
    hide Reported, Queue, DropStale, Sorted, Counts, Parsed, SlidingWindow.Valid;
    assert lines[..0] == [] && Parsed(parse, []) == [] by { NothingParsed(parse); }
    QueueStart(span, t);
    var win := new SlidingWindow(span);
    win.Facts();
    found, counters := [], map[];
    assert Counts(counters, found, TypeOf) by { NothingFound(); }
    for i := 0 to |lines|
      invariant win.Valid() && win.span == span
      invariant Added(win.ops) == Parsed(parse, lines[..i]) && win.q == Queue(span, Parsed(parse, lines[..i]))
      invariant found == Found(span, t, parse, lines[..i]) && Counts(counters, found, TypeOf)
    {
      assert lines[..i + 1] == lines[..i] + [lines[i]];
      ParsedNext(parse, lines[..i], lines[i]);
      var rec := parse(lines[i]);
      if rec.None? {
        assert Parsed(parse, lines[..i]) + [] == Parsed(parse, lines[..i]);
        continue;
      }
      QueueNext(span, t, Parsed(parse, lines[..i]), rec.value);
      var out := AnalyzeRecord(win, t, rec.value);
      counters := CountFindings(counters, out, found);
      found := found + out;
    }
    assert lines[..|lines|] == lines;
    if span >= 0 && Sorted(Parsed(parse, lines), Ts) {
      StreamedIsNaive(span, t, Parsed(parse, lines));
      FindingsAreCalledFor(span, t, Parsed(parse, lines));
    }
  }

  /** The positions of the findings of one type. */
  function OfKind(found: seq<Finding>, kind: string): set<nat> {
    set i: nat | i < |found| && found[i].kind == kind
  }

  lemma CountOfKind(found: seq<Finding>, kind: string)
    ensures Occurs(found, TypeOf, kind) == |OfKind(found, kind)|
  {
    hide Occurs;
    OccursAt(found, TypeOf, kind);
    assert Where(found, TypeOf, kind) == OfKind(found, kind);
  }

  /** The gates of `--fail-on`: exit code 3 if and only if some type has reached its limit. */
  method FailOnGate(failOn: map<string, int>, counters: map<string, int>, ghost found: seq<Finding>)
    returns (code: int)
    requires Counts(counters, found, TypeOf)
    ensures code == 3 <==> exists k :: k in failOn && |OfKind(found, k)| >= failOn[k]
    ensures code == 3 || code == 0
  {
    hide Occurs;
    var todo := failOn.Keys;
    while todo != {}
      invariant todo <= failOn.Keys
      invariant forall k :: k in failOn.Keys - todo ==> |OfKind(found, k)| < failOn[k]
      decreases |todo|
    {
      var k :| k in todo;
      todo := todo - {k};
      assert CountsAt(counters, found, TypeOf, k);
      CountOfKind(found, k);
      var count := if k in counters then counters[k] else 0;
      if count >= failOn[k] { return 3; }
    }
    code := 0;
  }

  // ------------------------------------------------------ queue and worker

  lemma {:induction false} ParsedGrows(parse: Parser, a: seq<Line>, b: seq<Line>)
    requires a <= b
    ensures Parsed(parse, a) <= Parsed(parse, b)
    decreases |b|
  {
    if |a| < |b| {
      assert a <= b[..|b| - 1];
      ParsedGrows(parse, a, b[..|b| - 1]);
    } else {
      assert a == b;
    }
  }

  lemma {:induction false} StreamedGrows(span: int, t: Thresholds, a: seq<LogRecord>, b: seq<LogRecord>)
    requires a <= b
    ensures Streamed(span, t, a) <= Streamed(span, t, b)
    decreases |b|
  {
    hide Reported;
    if |a| < |b| {
      assert a <= b[..|b| - 1];
      StreamedGrows(span, t, a, b[..|b| - 1]);
    } else {
      assert a == b;
    }
  }

  /** In every interleaving of the reader and one worker, what has been found so far is the beginning of what the whole
    input gives; and when the threads have come to rest, it is, for ordered records, what the naive analyser finds. */
  lemma WholeProgram(cap: nat, input: seq<Line>, s: Sys, span: nat, t: Thresholds, parse: Parser)
    requires Reachable(cap, input, 1, s)
    ensures Found(span, t, parse, s.processed) <= Found(span, t, parse, input)
    ensures cap > 0 && Quiet(s) && Sorted(Parsed(parse, input), Ts) ==>
      Found(span, t, parse, s.processed) == Naive(span, t, Parsed(parse, input))
  {
    hide Reachable, Quiet, Sorted, Parsed;
    OneWorkerInOrder(cap, input, s);
    ParsedGrows(parse, s.processed, input);
    StreamedGrows(span, t, Parsed(parse, s.processed), Parsed(parse, input));
    if Sorted(Parsed(parse, input), Ts) { StreamedIsNaive(span, t, Parsed(parse, input)); }
  }

  // ----------------------------------------------------- from record to finding

  /** The reader of NDJSON lines, as long as no number overflows. */
  function NdjsonRecord(line: Line): Option<LogRecord> {
    match Ndjson.ParseLine(line)
    case Parsed(rec) => Some(rec)
    case _ => None
  }

  function LinesOf(recs: seq<LogRecord>): seq<Line> {
    seq(|recs|, i requires 0 <= i < |recs| => Ndjson.Line(Ndjson.FieldsOf(recs[i])))
  }

  /** The exact condition for a record to be read back from its line. */
  ghost predicate Readable(r: LogRecord) {
    Ndjson.NoQuotes(r) && Ndjson.InWidth(r) && forall k :: 0 <= k < 9 ==> Ndjson.LandsRight(r, k)
  }

  ghost predicate AllReadable(recs: seq<LogRecord>) {
    forall i :: 0 <= i < |recs| ==> Readable(recs[i])
  }

  lemma {:induction false} LinesReadBack(recs: seq<LogRecord>)
    requires AllReadable(recs)
    ensures Parsed(NdjsonRecord, LinesOf(recs)) == recs
  {
    hide Ndjson.NoQuotes, Ndjson.InWidth, Ndjson.LandsRight, Ndjson.Line, Ndjson.FieldsOf, Ndjson.ParseLine;
    if recs != [] {
      var front, r := recs[..|recs| - 1], recs[|recs| - 1];
      assert LinesOf(recs) == LinesOf(front) + [Ndjson.Line(Ndjson.FieldsOf(r))];
      LinesReadBack(front);
      Ndjson.LineRoundTrip(r);
      ParsedNext(NdjsonRecord, LinesOf(front), Ndjson.Line(Ndjson.FieldsOf(r)));
    }
  }

  /** Records written as NDJSON lines and sent through the program: it finds, in every interleaving, what the naive
    analyser finds in the records. */
  lemma RecordsToFindings(cap: nat, recs: seq<LogRecord>, s: Sys, span: nat, t: Thresholds)
    requires AllReadable(recs) && Sorted(recs, Ts)
    requires cap > 0 && Reachable(cap, LinesOf(recs), 1, s) && Quiet(s)
    ensures Found(span, t, NdjsonRecord, s.processed) == Naive(span, t, recs) == AllCalledFor(recs, |recs|, span, t)
  {
    hide AllReadable, Sorted, Reachable, Quiet, Found;
    LinesReadBack(recs);
    WholeProgram(cap, LinesOf(recs), s, span, t, NdjsonRecord);
    StreamedIsNaive(span, t, recs);
    FindingsAreCalledFor(span, t, recs);
  }
}
