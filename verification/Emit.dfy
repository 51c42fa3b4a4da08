/** The output stage: selectors, dedupe window, baseline, suppression patterns, dedupe set, truncation and the
  summary tables. Findings arrive as transformed and shifted in time; the sampling decision is an input. */
module Emit {
  import opened Common
  import opened Tally
  import opened OriginalRecords
  import opened Glob
  import opened Positions

  datatype Config = Config(
    sinceTs: int, untilTs: int,
    onlyType: seq<string>, skipType: seq<string>,
    onlyKey: seq<string>, skipKey: seq<string>,
    onlyDetails: seq<string>, skipDetails: seq<string>,
    dedupeWindow: int,
    baseline: set<string>,
    suppress: seq<(string, string)>,
    dedupe: bool,
    stableOrder: bool, keepAll: bool,
    maxFindings: int, limitFindings: int,
    bucketSize: int)

  /** Where one call ends. */
  datatype Outcome =
    | Sampled                     // dropped by sampling
    | Unselected                  // dropped by a selector
    | TooSoon                     // dropped by the dedupe window
    | InBaseline
    | Suppressed(pattern: string)
    | Repeated                    // dropped by the dedupe set, not counted
    | Passed

  /** The separator is an empty C string, so the key is the plain concatenation. */
  function DedupeKey(f: Finding): string { f.kind + f.key }

  // ------------------------------------------------------------ one decision

  predicate AnyMatch(pats: seq<string>, s: string) {
    exists p :: p in pats && Accepts(s, p)
  }

  predicate Selects(only: seq<string>, skip: seq<string>, s: string) {
    (only == [] || AnyMatch(only, s)) && !AnyMatch(skip, s)
  }

  predicate Selected(c: Config, f: Finding) {
    && (c.sinceTs > 0 ==> f.ts >= c.sinceTs)
    && (c.untilTs > 0 ==> f.ts <= c.untilTs)
    && Selects(c.onlyType, c.skipType, f.kind)
    && Selects(c.onlyKey, c.skipKey, f.key)
    && Selects(c.onlyDetails, c.skipDetails, f.details)
  }

  predicate Hits(pr: (string, string), f: Finding) {
    Accepts(f.kind, pr.0) && Accepts(f.key, pr.1)
  }

  /** The first suppression pattern that hits. */
  function FirstHit(suppress: seq<(string, string)>, f: Finding): (i: nat)
    ensures i <= |suppress|
    ensures forall j :: 0 <= j < i ==> !Hits(suppress[j], f)
    ensures i < |suppress| ==> Hits(suppress[i], f)
  {
    if suppress == [] || Hits(suppress[0], f) then 0 else
      var i := FirstHit(suppress[1..], f);
      assert forall j :: 0 < j < i + 1 ==> suppress[j] == suppress[1..][j - 1];
      i + 1
  }

  /** The time of the last finding passed with this key. */
  function LastTs(passed: seq<Finding>, key: string): Option<int> {
    if passed == [] then None
    else if DedupeKey(passed[|passed| - 1]) == key then Some(passed[|passed| - 1].ts)
    else LastTs(passed[..|passed| - 1], key)
  }

  predicate Seen(passed: seq<Finding>, key: string) {
    exists f :: f in passed && DedupeKey(f) == key
  }

  /** The outcome of a call, given the findings passed before it. */
  function Classify(c: Config, passed: seq<Finding>, sampledOut: bool, f: Finding): Outcome {
    var last := LastTs(passed, DedupeKey(f));
    var i := FirstHit(c.suppress, f);
    if sampledOut then Sampled
    else if !Selected(c, f) then Unselected
    else if c.dedupeWindow > 0 && last.Some? && f.ts - last.value <= c.dedupeWindow then TooSoon
    else if DedupeKey(f) in c.baseline then InBaseline
    else if i < |c.suppress| then Suppressed(c.suppress[i].0 + ":" + c.suppress[i].1)
    else if c.dedupe && Seen(passed, DedupeKey(f)) then Repeated
    else Passed
  }

  // ---------------------------------------------------------------- whole runs

  datatype Call = Call(sampledOut: bool, f: Finding)

  function PassedOf(c: Config, calls: seq<Call>): seq<Finding> {
    if calls == [] then []
    else
      var front, call := PassedOf(c, calls[..|calls| - 1]), calls[|calls| - 1];
      front + if Classify(c, front, call.sampledOut, call.f) == Passed then [call.f] else []
  }

  function OutcomesOf(c: Config, calls: seq<Call>): seq<Outcome> {
    if calls == [] then []
    else
      var front, call := calls[..|calls| - 1], calls[|calls| - 1];
      OutcomesOf(c, front) + [Classify(c, PassedOf(c, front), call.sampledOut, call.f)]
  }

  function SelfOf(o: Outcome): Option<Outcome> { Some(o) }

  function PatternOf(o: Outcome): Option<string> {
    if o.Suppressed? then Some(o.pattern) else None
  }

  /** The size of one class of calls. */
  function Number(outcomes: seq<Outcome>, o: Outcome): nat {
    Occurs(outcomes, SelfOf, o)
  }

  /** Findings with the same dedupe key, hence all of one type and key, are more than the window apart, in the order
    in which they passed. */
  ghost predicate Apart(c: Config, passed: seq<Finding>) {
    forall i, j :: 0 <= i < j < |passed| && DedupeKey(passed[i]) == DedupeKey(passed[j]) ==>
      passed[j].ts - passed[i].ts > c.dedupeWindow
  }

  lemma ApartPrefix(c: Config, passed: seq<Finding>)
    requires passed != [] && Apart(c, passed)
    ensures Apart(c, passed[..|passed| - 1])
  {
  }

  lemma {:induction false} LastTsBounds(c: Config, passed: seq<Finding>, key: string)
    requires c.dedupeWindow > 0 && Apart(c, passed)
    ensures var last := LastTs(passed, key);
      forall i :: 0 <= i < |passed| && DedupeKey(passed[i]) == key ==> last.Some? && passed[i].ts <= last.value
  {
    if passed != [] {
      var front := passed[..|passed| - 1];
      ApartPrefix(c, passed);
      LastTsBounds(c, front, key);
      forall i | 0 <= i < |passed| && DedupeKey(passed[i]) == key
        ensures LastTs(passed, key).Some? && passed[i].ts <= LastTs(passed, key).value
      {
        if i < |front| { assert front[i] == passed[i]; }
      }
    }
  }

  lemma ApartGrows(c: Config, passed: seq<Finding>, sampledOut: bool, f: Finding)
    requires c.dedupeWindow > 0 && Apart(c, passed) && Classify(c, passed, sampledOut, f) == Passed
    ensures Apart(c, passed + [f])
  {
    hide FirstHit, Selected, Seen, DedupeKey;
    LastTsBounds(c, passed, DedupeKey(f));
  }

  lemma NothingApart(c: Config)
    ensures Apart(c, [])
  {
  }

  /** With a dedupe window, whatever the order of the time stamps: the findings of one type and key that pass
    have strictly increasing times, with every gap above the window. */
  lemma {:induction false} GapsAboveWindow(c: Config, calls: seq<Call>)
    requires c.dedupeWindow > 0
    ensures Apart(c, PassedOf(c, calls))
  {
    hide Classify, Apart;
    if calls == [] {
      NothingApart(c);
    } else {
      var front, call := calls[..|calls| - 1], calls[|calls| - 1];
      GapsAboveWindow(c, front);
      assert PassedOf(c, front) + [] == PassedOf(c, front);
      if Classify(c, PassedOf(c, front), call.sampledOut, call.f) == Passed {
        ApartGrows(c, PassedOf(c, front), call.sampledOut, call.f);
      }
    }
  }

  ghost predicate Distinct(passed: seq<Finding>) {
    forall i, j :: 0 <= i < j < |passed| ==> DedupeKey(passed[i]) != DedupeKey(passed[j])
  }

  /** With the dedupe set, no two findings with the same key pass in a run. */
  lemma {:induction false} NoRepeats(c: Config, calls: seq<Call>)
    requires c.dedupe
    ensures Distinct(PassedOf(c, calls))
  {
    hide FirstHit, Selected, LastTs, DedupeKey;
    if calls != [] {
      NoRepeats(c, calls[..|calls| - 1]);
    }
  }

  /** The documented notion of a repetition: same type and same key. */
  predicate PairSeen(passed: seq<Finding>, f: Finding) {
    exists g :: g in passed && g.kind == f.kind && g.key == f.key
  }

  /** No type begins another one. */
  ghost predicate PrefixFree(types: set<string>) {
    forall a, b :: a in types && b in types && a <= b ==> a == b
  }

  ghost predicate OfTypes(passed: seq<Finding>, types: set<string>) {
    forall f :: f in passed ==> f.kind in types
  }

  ghost predicate DedupeIsByPair(types: set<string>) {
    forall passed, f: Finding :: OfTypes(passed, types) && f.kind in types ==>
      Seen(passed, DedupeKey(f)) == PairSeen(passed, f)
  }

  /** Two types share a dedupe key, for some keys, exactly when one of them begins the other. */
  lemma SameKeySamePair(f: Finding, g: Finding)
    requires DedupeKey(f) == DedupeKey(g)
    ensures f.kind <= g.kind || g.kind <= f.kind
    ensures f.kind == g.kind ==> f.key == g.key
  {
    var k := DedupeKey(f);
    assert f.kind == k[..|f.kind|] && g.kind == k[..|g.kind|];
    assert f.key == k[|f.kind|..] && g.key == k[|g.kind|..];
  }

  /** The time of the last finding passed with this type and key. */
  function LastPairTs(passed: seq<Finding>, f: Finding): Option<int> {
    if passed == [] then None
    else
      var g := passed[|passed| - 1];
      if g.kind == f.kind && g.key == f.key then Some(g.ts) else LastPairTs(passed[..|passed| - 1], f)
  }

  /** The dedupe window looks back to the last finding of the same type and key. */
  ghost predicate WindowIsByPair(types: set<string>) {
    forall passed, f: Finding :: OfTypes(passed, types) && f.kind in types ==>
      LastTs(passed, DedupeKey(f)) == LastPairTs(passed, f)
  }

  lemma {:induction false} LastIsLastPair(types: set<string>, passed: seq<Finding>, f: Finding)
    requires PrefixFree(types) && OfTypes(passed, types) && f.kind in types
    ensures LastTs(passed, DedupeKey(f)) == LastPairTs(passed, f)
  {
    if passed != [] {
      var g := passed[|passed| - 1];
      LastIsLastPair(types, passed[..|passed| - 1], f);
      if DedupeKey(g) == DedupeKey(f) { SameKeySamePair(f, g); }
    }
  }

  lemma SeenIsPairSeen(types: set<string>, passed: seq<Finding>, f: Finding)
    requires PrefixFree(types) && OfTypes(passed, types) && f.kind in types
    ensures Seen(passed, DedupeKey(f)) == PairSeen(passed, f)
  {
    forall g: Finding | g in passed && DedupeKey(g) == DedupeKey(f) ensures g.kind == f.kind && g.key == f.key {
      SameKeySamePair(f, g);
    }
  }

  /** A type that begins another one gives a finding that is taken for a repetition, by the set and by the window. */
  lemma PrefixConfuses(a: string, b: string) returns (first: Finding, second: Finding)
    requires a <= b && a != b
    ensures first.kind == a && second.kind == b
    ensures Seen([first], DedupeKey(second)) && !PairSeen([first], second)
    ensures LastTs([first], DedupeKey(second)) == Some(0) && LastPairTs([first], second) == None
  {
    first, second := Finding(a, b[|a|..], "", 0), Finding(b, "", "", 0);
    assert DedupeKey(first) == b == DedupeKey(second);
    assert first in [first];
    assert [first][..0] == [];
  }

  /** The concatenated keys tell repetitions of a type and key, in the dedupe set as in the dedupe window, exactly when
    no type begins another. */
  lemma DedupeExactness(types: set<string>)
    ensures DedupeIsByPair(types) <==> PrefixFree(types)
    ensures WindowIsByPair(types) <==> PrefixFree(types)
  {
    hide Seen, PairSeen, LastTs, LastPairTs, DedupeKey;
    if PrefixFree(types) {
      forall passed, f: Finding | OfTypes(passed, types) && f.kind in types
        ensures Seen(passed, DedupeKey(f)) == PairSeen(passed, f)
        ensures LastTs(passed, DedupeKey(f)) == LastPairTs(passed, f)
      {
        SeenIsPairSeen(types, passed, f);
        LastIsLastPair(types, passed, f);
      }
    } else {
      var a, b :| a in types && b in types && a <= b && a != b;
      var first, second := PrefixConfuses(a, b);
      assert OfTypes([first], types);
    }
  }

  // ------------------------------------------------------------ conservation

  /** Every call falls into exactly one class. */
  lemma {:induction false} EveryCallCounted(outcomes: seq<Outcome>)
    ensures |outcomes| == Number(outcomes, Sampled) + Number(outcomes, Unselected) + Number(outcomes, TooSoon)
      + Number(outcomes, InBaseline) + Keyed(outcomes, PatternOf) + Number(outcomes, Repeated) + Number(outcomes, Passed)
  {
    if outcomes != [] { EveryCallCounted(outcomes[1..]); }
  }

  /** The class of the passed calls is as large as the list of passed findings. */
  lemma {:induction false} PassedCounted(c: Config, calls: seq<Call>)
    ensures |OutcomesOf(c, calls)| == |calls| && Number(OutcomesOf(c, calls), Passed) == |PassedOf(c, calls)|
  {
    hide Classify;
    if calls != [] {
      var front, call := calls[..|calls| - 1], calls[|calls| - 1];
      PassedCounted(c, front);
      OccursAppend(OutcomesOf(c, front), SelfOf, Passed, Classify(c, PassedOf(c, front), call.sampledOut, call.f));
    }
  }

  // ------------------------------------------------------------ the tables

  function KindOf(f: Finding): Option<string> { Some(f.kind) }

  /** The division truncates towards zero, so the bucket around zero is twice as wide. */
  function Bucket(ts: int, size: int): int
    requires size > 0
  {
    (if ts >= 0 then ts / size else -(-ts / size)) * size
  }

  function BucketOf(size: int): Finding -> Option<int> {
    (f: Finding) => if size > 0 then Some(Bucket(f.ts, size)) else None
  }

  datatype Cell = Cell(bucket: int, kind: string)

  function CellOf(size: int): Finding -> Option<Cell> {
    (f: Finding) => if size > 0 then Some(Cell(Bucket(f.ts, size), f.kind)) else None
  }

  ghost predicate CellAt(m: map<int, map<string, int>>, passed: seq<Finding>, size: int, b: int, t: string) {
    var n := Occurs(passed, CellOf(size), Cell(b, t));
    if n > 0 then b in m && t in m[b] && m[b][t] == n else b in m ==> t !in m[b]
  }

  /** The nested table holds, for every bucket and type, the number of passed findings, and no other entry. */
  ghost predicate CellsCount(m: map<int, map<string, int>>, passed: seq<Finding>, size: int) {
    forall b, t :: CellAt(m, passed, size, b, t)
  }

  function BumpCell(m: map<int, map<string, int>>, b: int, t: string): map<int, map<string, int>> {
    m[b := Bump(if b in m then m[b] else map[], t)]
  }

  lemma BumpCellCounts(m: map<int, map<string, int>>, passed: seq<Finding>, size: int, f: Finding)
    requires size > 0 && CellsCount(m, passed, size)
    ensures CellsCount(BumpCell(m, Bucket(f.ts, size), f.kind), passed + [f], size)
  {
    hide Bucket;
    var m' := BumpCell(m, Bucket(f.ts, size), f.kind);
    forall b, t ensures CellAt(m', passed + [f], size, b, t) {
      assert CellAt(m, passed, size, b, t);
      OccursAppend(passed, CellOf(size), Cell(b, t), f);
    }
  }

  /** One row of the nested table is a count map of the findings of its bucket. */
  function InBucket(passed: seq<Finding>, size: int, b: int): seq<Finding> {
    if passed == [] then []
    else (if BucketOf(size)(passed[0]) == Some(b) then [passed[0]] else []) + InBucket(passed[1..], size, b)
  }

  lemma {:induction false} RowOccurs(passed: seq<Finding>, size: int, b: int, t: string)
    ensures Occurs(InBucket(passed, size, b), KindOf, t) == Occurs(passed, CellOf(size), Cell(b, t))
    ensures |InBucket(passed, size, b)| == Occurs(passed, BucketOf(size), b)
  {
    hide Bucket;
    if passed != [] {
      RowOccurs(passed[1..], size, b, t);
      var rest := InBucket(passed[1..], size, b);
      assert ([passed[0]] + rest)[1..] == rest;
      assert [] + rest == rest;
    }
  }

  /** The row of a bucket adds up to the bucket's total. */
  lemma RowTotal(m: map<int, map<string, int>>, totals: map<int, int>, passed: seq<Finding>, size: int, b: int)
    requires CellsCount(m, passed, size) && Counts(totals, passed, BucketOf(size)) && b in m && b in totals
    ensures SumValues(m[b], m[b].Keys) == totals[b]
  {
    hide Bucket;
    var row := InBucket(passed, size, b);
    forall t ensures CountsAt(m[b], row, KindOf, t) {
      assert CellAt(m, passed, size, b, t);
      RowOccurs(passed, size, b, t);
    }
    SumOfAll(m[b], row, KindOf);
    RowOccurs(passed, size, b, "");
    assert CountsAt(totals, passed, BucketOf(size), b);
  }

  lemma BucketHasRow(m: map<int, map<string, int>>, totals: map<int, int>, passed: seq<Finding>, size: int, b: int)
    requires CellsCount(m, passed, size) && Counts(totals, passed, BucketOf(size)) && b in totals
    ensures b in m
  {
    hide Bucket;
    assert CountsAt(totals, passed, BucketOf(size), b);
    OccursWitness(passed, BucketOf(size), b);
    var f :| f in passed && BucketOf(size)(f) == Some(b);
    assert CellAt(m, passed, size, b, f.kind);
    OccursWitness(passed, CellOf(size), Cell(b, f.kind));
  }

  /** The entries of one type, over the given buckets, added up. */
  ghost function ColumnSum(m: map<int, map<string, int>>, t: string, buckets: set<int>): int
    requires buckets <= m.Keys
  {
    if buckets == {} then 0 else
      var b := Pick(buckets);
      (if t in m[b] then m[b][t] else 0) + ColumnSum(m, t, buckets - {b})
  }

  lemma {:induction false} ColumnIsWithin(m: map<int, map<string, int>>, passed: seq<Finding>, size: int, t: string,
                                          buckets: set<int>)
    requires CellsCount(m, passed, size) && buckets <= m.Keys
    ensures ColumnSum(m, t, buckets) == Within(passed, CellOf(size), set b | b in buckets :: Cell(b, t))
    decreases buckets
  {
    var cells := set b | b in buckets :: Cell(b, t);
    if buckets == {} {
      assert cells == {};
      WithinNone(passed, CellOf(size));
    } else {
      var b := Pick(buckets);
      ColumnIsWithin(m, passed, size, t, buckets - {b});
      var fewer := set x | x in buckets - {b} :: Cell(x, t);
      assert cells == fewer + {Cell(b, t)};
      WithinOneMore(passed, CellOf(size), fewer, Cell(b, t));
      assert CellAt(m, passed, size, b, t);
    }
  }

  lemma {:induction false} ColumnWithin(passed: seq<Finding>, size: int, t: string, cells: set<Cell>)
    requires size > 0
    requires forall f :: f in passed ==> Cell(Bucket(f.ts, size), t) in cells
    requires forall x :: x in cells ==> x.kind == t
    ensures Within(passed, CellOf(size), cells) == Occurs(passed, KindOf, t)
  {
    hide Bucket;
    if passed != [] { ColumnWithin(passed[1..], size, t, cells); }
  }

  function InType(passed: seq<Finding>, t: string): seq<Finding> {
    if passed == [] then []
    else (if passed[0].kind == t then [passed[0]] else []) + InType(passed[1..], t)
  }

  lemma {:induction false} InTypeMeans(passed: seq<Finding>, t: string, f: Finding)
    ensures f in InType(passed, t) <==> f in passed && f.kind == t
  {
    if passed != [] { InTypeMeans(passed[1..], t, f); }
  }

  lemma {:induction false} WithinOfType(passed: seq<Finding>, size: int, t: string, cells: set<Cell>)
    requires forall x :: x in cells ==> x.kind == t
    ensures Within(passed, CellOf(size), cells) == Within(InType(passed, t), CellOf(size), cells)
  {
    hide Bucket;
    if passed != [] {
      WithinOfType(passed[1..], size, t, cells);
      var rest := InType(passed[1..], t);
      assert ([passed[0]] + rest)[1..] == rest;
      assert [] + rest == rest;
    }
  }

  lemma {:induction false} TypeOccurs(passed: seq<Finding>, t: string)
    ensures Occurs(InType(passed, t), KindOf, t) == Occurs(passed, KindOf, t)
  {
    if passed != [] {
      TypeOccurs(passed[1..], t);
      var rest := InType(passed[1..], t);
      assert ([passed[0]] + rest)[1..] == rest;
      assert [] + rest == rest;
    }
  }

  /** The column of a type, over all buckets, adds up to the type's total. */
  lemma ColumnTotal(m: map<int, map<string, int>>, summary: map<string, int>, passed: seq<Finding>, size: int, t: string)
    requires size > 0 && CellsCount(m, passed, size) && Counts(summary, passed, KindOf)
    ensures ColumnSum(m, t, m.Keys) == if t in summary then summary[t] else 0
  {
    hide Bucket;
    var cells := set b | b in m.Keys :: Cell(b, t);
    var ofType := InType(passed, t);
    ColumnIsWithin(m, passed, size, t, m.Keys);
    WithinOfType(passed, size, t, cells);
    forall f | f in ofType ensures Cell(Bucket(f.ts, size), t) in cells {
      InTypeMeans(passed, t, f);
      assert CellAt(m, passed, size, Bucket(f.ts, size), t);
      OccursWitness(passed, CellOf(size), Cell(Bucket(f.ts, size), t));
    }
    ColumnWithin(ofType, size, t, cells);
    TypeOccurs(passed, t);
    assert CountsAt(summary, passed, KindOf, t);
  }

  // ------------------------------------------------ what the options mean

  /** The pattern stands for the text; where both hold a literal `*`, the matcher decides. */
  ghost predicate Fits(s: string, pat: string) {
    if '*' !in s || '*' !in pat then Matches(s, pat) else Accepts(s, pat)
  }

  lemma FitsIsAccepts(s: string, pat: string)
    ensures Fits(s, pat) <==> Accepts(s, pat)
  {
    hide Matches, Accepts;
    if '*' !in s || '*' !in pat { AcceptsIsComplete(s, pat); }
  }

  ghost predicate Chosen(only: seq<string>, skip: seq<string>, s: string) {
    && (only == [] || exists p :: p in only && Fits(s, p))
    && forall p :: p in skip ==> !Fits(s, p)
  }

  /** The time limits that are set, and the patterns of type, key and details, let the finding through. */
  ghost predicate Allowed(c: Config, f: Finding) {
    && (c.sinceTs <= 0 || c.sinceTs <= f.ts)
    && (c.untilTs <= 0 || f.ts <= c.untilTs)
    && Chosen(c.onlyType, c.skipType, f.kind)
    && Chosen(c.onlyKey, c.skipKey, f.key)
    && Chosen(c.onlyDetails, c.skipDetails, f.details)
  }

  ghost predicate HitBy(pr: (string, string), f: Finding) {
    Fits(f.kind, pr.0) && Fits(f.key, pr.1)
  }

  /** Finding i is the last of those passed with the same text of type and key. */
  predicate LastLike(passed: seq<Finding>, i: nat, f: Finding)
    requires i < |passed|
  {
    && passed[i].kind + passed[i].key == f.kind + f.key
    && forall j :: i < j < |passed| ==> passed[j].kind + passed[j].key != f.kind + f.key
  }

  /** The last finding like it is no more than the window older. */
  ghost predicate Soon(c: Config, passed: seq<Finding>, f: Finding) {
    c.dedupeWindow > 0 &&
      exists i: nat :: i < |passed| && LastLike(passed, i, f) && f.ts - passed[i].ts <= c.dedupeWindow
  }

  ghost predicate Suppressible(c: Config, f: Finding) {
    exists pr :: pr in c.suppress && HitBy(pr, f)
  }

  ghost predicate Repetition(c: Config, passed: seq<Finding>, f: Finding) {
    c.dedupe && exists g :: g in passed && g.kind + g.key == f.kind + f.key
  }

  lemma SelectsIsChosen(only: seq<string>, skip: seq<string>, s: string)
    ensures Selects(only, skip, s) <==> Chosen(only, skip, s)
  {
    hide Fits, Accepts;
    forall p ensures Fits(s, p) <==> Accepts(s, p) { FitsIsAccepts(s, p); }
  }

  lemma SelectedIsAllowed(c: Config, f: Finding)
    ensures Selected(c, f) <==> Allowed(c, f)
  {
    hide Selects, Chosen;
    SelectsIsChosen(c.onlyType, c.skipType, f.kind);
    SelectsIsChosen(c.onlyKey, c.skipKey, f.key);
    SelectsIsChosen(c.onlyDetails, c.skipDetails, f.details);
  }

  lemma HitsIsHitBy(pr: (string, string), f: Finding)
    ensures Hits(pr, f) <==> HitBy(pr, f)
  {
    hide Fits, Accepts;
    FitsIsAccepts(f.kind, pr.0);
    FitsIsAccepts(f.key, pr.1);
  }

  lemma FirstHitMeans(c: Config, f: Finding)
    ensures FirstHit(c.suppress, f) < |c.suppress| <==> Suppressible(c, f)
    ensures Suppressible(c, f) ==> HitBy(c.suppress[FirstHit(c.suppress, f)], f)
    ensures forall j :: 0 <= j < FirstHit(c.suppress, f) ==> !HitBy(c.suppress[j], f)
  {
    hide FirstHit, Hits, HitBy;
    forall pr ensures Hits(pr, f) <==> HitBy(pr, f) { HitsIsHitBy(pr, f); }
    var i := FirstHit(c.suppress, f);
    if i < |c.suppress| { assert c.suppress[i] in c.suppress; }
  }

  lemma {:induction false} LastTsMeans(passed: seq<Finding>, f: Finding)
    ensures var last := LastTs(passed, DedupeKey(f));
      && (last == None <==> forall i :: 0 <= i < |passed| ==> passed[i].kind + passed[i].key != f.kind + f.key)
      && forall i: nat :: i < |passed| && LastLike(passed, i, f) ==> last == Some(passed[i].ts)
  {
    if passed != [] {
      var n := |passed| - 1;
      var front := passed[..n];
      LastTsMeans(front, f);
      forall i: nat | i < |passed| && LastLike(passed, i, f) ensures LastTs(passed, DedupeKey(f)) == Some(passed[i].ts) {
        if i < n { assert LastLike(front, i, f); }
      }
    }
  }

  /** Whoever stands in the list at all has a last one. */
  lemma {:induction false} LastLikeExists(passed: seq<Finding>, f: Finding, i: nat) returns (k: nat)
    requires i < |passed| && passed[i].kind + passed[i].key == f.kind + f.key
    ensures k < |passed| && LastLike(passed, k, f)
    decreases |passed| - i
  {
    if j :| i < j < |passed| && passed[j].kind + passed[j].key == f.kind + f.key {
      k := LastLikeExists(passed, f, j);
    } else {
      k := i;
    }
  }

  lemma SoonMeans(c: Config, passed: seq<Finding>, f: Finding)
    ensures var last := LastTs(passed, DedupeKey(f));
      Soon(c, passed, f) <==> c.dedupeWindow > 0 && last.Some? && f.ts - last.value <= c.dedupeWindow
  {
    hide LastTs, LastLike, DedupeKey;
    LastTsMeans(passed, f);
    if LastTs(passed, DedupeKey(f)).Some? {
      var i :| 0 <= i < |passed| && passed[i].kind + passed[i].key == f.kind + f.key;
      var k := LastLikeExists(passed, f, i);
    }
  }

  lemma SeenMeans(c: Config, passed: seq<Finding>, f: Finding)
    ensures c.dedupe && Seen(passed, DedupeKey(f)) <==> Repetition(c, passed, f)
  {
  }

  /** Each outcome in terms of the options: the tests in their order, each of them for what passed those before. */
  lemma OutcomeMeans(c: Config, passed: seq<Finding>, sampledOut: bool, f: Finding)
    ensures var o := Classify(c, passed, sampledOut, f);
      if sampledOut then o == Sampled
      else if !Allowed(c, f) then o == Unselected
      else if Soon(c, passed, f) then o == TooSoon
      else if f.kind + f.key in c.baseline then o == InBaseline
      else if Suppressible(c, f) then
        exists i: nat :: i < |c.suppress| && HitBy(c.suppress[i], f) && (forall j :: 0 <= j < i ==> !HitBy(c.suppress[j], f))
          && o == Suppressed(c.suppress[i].0 + ":" + c.suppress[i].1)
      else if Repetition(c, passed, f) then o == Repeated
      else o == Passed
  {
    hide Selected, Allowed, Soon, LastTs, FirstHit, Seen, Repetition, Suppressible, HitBy;
    SelectedIsAllowed(c, f);
    SoonMeans(c, passed, f);
    FirstHitMeans(c, f);
    SeenMeans(c, passed, f);
    assert DedupeKey(f) == f.kind + f.key;
  }

  /** The finding passes, given those passed before. */
  ghost predicate Passes(c: Config, passed: seq<Finding>, f: Finding) {
    && Allowed(c, f) && !Soon(c, passed, f) && f.kind + f.key !in c.baseline
    && !Suppressible(c, f) && !Repetition(c, passed, f)
  }

  lemma PassesExactly(c: Config, passed: seq<Finding>, sampledOut: bool, f: Finding)
    ensures Classify(c, passed, sampledOut, f) == Passed <==> !sampledOut && Passes(c, passed, f)
  {
    hide Classify, Allowed, Soon, Repetition, Suppressible, HitBy;
    OutcomeMeans(c, passed, sampledOut, f);
  }

  /** The findings that pass in a run of calls. */
  ghost function PassedBy(c: Config, calls: seq<Call>): seq<Finding> {
    if calls == [] then []
    else
      var front, call := PassedBy(c, calls[..|calls| - 1]), calls[|calls| - 1];
      front + if !call.sampledOut && Passes(c, front, call.f) then [call.f] else []
  }

  /** A run passes just the findings that the options let through, in their order. */
  lemma {:induction false} RunPasses(c: Config, calls: seq<Call>)
    ensures PassedOf(c, calls) == PassedBy(c, calls)
  {
    hide Classify, Passes;
    if calls != [] {
      var front, call := calls[..|calls| - 1], calls[|calls| - 1];
      RunPasses(c, front);
      PassesExactly(c, PassedOf(c, front), call.sampledOut, call.f);
    }
  }

  /** Whatever has passed in a run is allowed by the selectors, is not in the baseline, and no suppression hits it. */
  lemma {:induction false} PassedAreAllowed(c: Config, calls: seq<Call>)
    ensures forall f :: f in PassedOf(c, calls) ==>
      Allowed(c, f) && f.kind + f.key !in c.baseline && forall pr :: pr in c.suppress ==> !HitBy(pr, f)
  {
    hide Classify, Allowed, HitBy, Soon, Repetition;
    if calls != [] {
      var front, call := calls[..|calls| - 1], calls[|calls| - 1];
      PassedAreAllowed(c, front);
      PassesExactly(c, PassedOf(c, front), call.sampledOut, call.f);
    }
  }

  predicate NoOptions(c: Config) {
    && c.sinceTs <= 0 && c.untilTs <= 0 && c.dedupeWindow <= 0 && !c.dedupe && c.baseline == {} && c.suppress == []
    && c.onlyType == [] && c.skipType == [] && c.onlyKey == [] && c.skipKey == []
    && c.onlyDetails == [] && c.skipDetails == []
  }

  function Offered(calls: seq<Call>): seq<Finding> {
    if calls == [] then []
    else Offered(calls[..|calls| - 1]) + if calls[|calls| - 1].sampledOut then [] else [calls[|calls| - 1].f]
  }

  /** Without options every finding passes that is not sampled out. */
  lemma {:induction false} EverythingPasses(c: Config, calls: seq<Call>)
    requires NoOptions(c)
    ensures PassedOf(c, calls) == Offered(calls)
  {
    hide Classify, Fits;
    if calls != [] {
      var front, call := calls[..|calls| - 1], calls[|calls| - 1];
      EverythingPasses(c, front);
      PassesExactly(c, PassedOf(c, front), call.sampledOut, call.f);
    }
  }

  lemma {:induction false} OutcomeAt(c: Config, calls: seq<Call>, i: nat)
    requires i < |calls|
    ensures |OutcomesOf(c, calls)| == |calls|
    ensures OutcomesOf(c, calls)[i] == Classify(c, PassedOf(c, calls[..i]), calls[i].sampledOut, calls[i].f)
  {
    hide Classify;
    PassedCounted(c, calls);
    PassedCounted(c, calls[..|calls| - 1]);
    if i < |calls| - 1 {
      OutcomeAt(c, calls[..|calls| - 1], i);
      assert calls[..|calls| - 1][..i] == calls[..i];
    }
  }

  lemma Quotient(n: nat, size: int)
    requires size > 0
    ensures (n / size) * size <= n < (n / size) * size + size && (-(n / size)) * size == -((n / size) * size)
  {
  }

  /** A bucket begins at a multiple of its size, at or before a time from 0 on, and at or behind a negative time. */
  lemma BucketMeans(ts: int, size: int)
    requires size > 0
    ensures exists k: int :: Bucket(ts, size) == k * size
    ensures ts >= 0 ==> Bucket(ts, size) <= ts < Bucket(ts, size) + size
    ensures ts <= 0 ==> Bucket(ts, size) - size < ts <= Bucket(ts, size)
  {
    var k := if ts >= 0 then ts / size else -(-ts / size);
    assert Bucket(ts, size) == k * size;
    if ts >= 0 { Quotient(ts, size); } else { Quotient(-ts, size); }
  }

  // ---------------------------------------------------------------- the class

  /** What is printed of the passed findings under --max-findings. */
  function Limited(passed: seq<Finding>, max: int): seq<Finding> {
    if 0 <= max < |passed| then passed[..max] else passed
  }

  function ValueAt(m: map<string, int>, k: string): int {
    if k in m then m[k] else 0
  }

  lemma FirstHitUnique(suppress: seq<(string, string)>, f: Finding, i: nat)
    requires i <= |suppress| && forall j :: 0 <= j < i ==> !Hits(suppress[j], f)
    requires i < |suppress| ==> Hits(suppress[i], f)
    ensures FirstHit(suppress, f) == i
  {
    hide Hits;
  }

  lemma NumberNext(outcomes: seq<Outcome>, o: Outcome, x: Outcome)
    ensures Number(outcomes + [o], x) == Number(outcomes, x) + if o == x then 1 else 0
  {
    OccursAppend(outcomes, SelfOf, x, o);
  }

  lemma PassedGrows(passed: seq<Finding>, f: Finding)
    ensures forall k :: Seen(passed + [f], k) <==> Seen(passed, k) || k == DedupeKey(f)
    ensures forall k :: LastTs(passed + [f], k) == if k == DedupeKey(f) then Some(f.ts) else LastTs(passed, k)
  {
    var all := passed + [f];
    assert all[..|passed|] == passed;
    forall k ensures Seen(all, k) <==> Seen(passed, k) || k == DedupeKey(f) {
      assert f in all;
    }
  }

  lemma NoBuckets(m: map<int, map<string, int>>, passed: seq<Finding>, size: int, f: Finding)
    requires size <= 0 && CellsCount(m, passed, size)
    ensures CellsCount(m, passed + [f], size)
  {
    forall b, t ensures CellAt(m, passed + [f], size, b, t) {
      assert CellAt(m, passed, size, b, t);
      OccursAppend(passed, CellOf(size), Cell(b, t), f);
    }
  }

  lemma RunGrows(c: Config, calls: seq<Call>, call: Call)
    ensures var o := Classify(c, PassedOf(c, calls), call.sampledOut, call.f);
      && OutcomesOf(c, calls + [call]) == OutcomesOf(c, calls) + [o]
      && PassedOf(c, calls + [call]) == PassedOf(c, calls) + if o == Passed then [call.f] else []
  {
    hide Classify;
    assert (calls + [call])[..|calls|] == calls;
  }

  // The positions of outcomes of one kind, and of findings of one type, in one bucket, and both.

  function OfOutcome(outcomes: seq<Outcome>, o: Outcome): set<nat> {
    set i: nat | i < |outcomes| && outcomes[i] == o
  }

  function OfType(passed: seq<Finding>, t: string): set<nat> {
    set i: nat | i < |passed| && passed[i].kind == t
  }

  function OfBucket(passed: seq<Finding>, size: int, b: int): set<nat>
    requires size > 0
  {
    set i: nat | i < |passed| && Bucket(passed[i].ts, size) == b
  }

  function OfCell(passed: seq<Finding>, size: int, b: int, t: string): set<nat>
    requires size > 0
  {
    set i: nat | i < |passed| && Bucket(passed[i].ts, size) == b && passed[i].kind == t
  }

  lemma OutcomePositions(outcomes: seq<Outcome>, o: Outcome)
    ensures Number(outcomes, o) == |OfOutcome(outcomes, o)|
  {
    hide Occurs;
    OccursAt(outcomes, SelfOf, o);
    assert Where(outcomes, SelfOf, o) == OfOutcome(outcomes, o);
  }

  lemma BucketPositions(passed: seq<Finding>, size: int, b: int)
    requires size > 0
    ensures Occurs(passed, BucketOf(size), b) == |OfBucket(passed, size, b)|
  {
    hide Occurs, Bucket;
    OccursAt(passed, BucketOf(size), b);
    assert Where(passed, BucketOf(size), b) == OfBucket(passed, size, b);
  }

  lemma CellPositions(passed: seq<Finding>, size: int, b: int, t: string)
    requires size > 0
    ensures Occurs(passed, CellOf(size), Cell(b, t)) == |OfCell(passed, size, b, t)|
  {
    hide Occurs, Bucket;
    OccursAt(passed, CellOf(size), Cell(b, t));
    assert Where(passed, CellOf(size), Cell(b, t)) == OfCell(passed, size, b, t);
  }

  class Emitter {
    const config: Config
    var droppedSample: int
    var droppedSelector: int
    var droppedDedupe: int
    var suppressedBaseline: int
    var suppressedByPattern: map<string, int>
    var dedupeSet: set<string>
    var lastEmitTs: map<string, int>
    var pending: seq<Finding>
    var printed: seq<Finding>   // what has been written to the output
    var emittedCount: int
    var truncated: bool
    var dropAll: bool
    var allFindings: seq<Finding>
    var findingCount: int
    var summary: map<string, int>
    var bucketCounts: map<int, map<string, int>>
    var bucketTotal: map<int, int>
    ghost var calls: seq<Call>
    ghost var outcomes: seq<Outcome>
    ghost var passed: seq<Finding>

    constructor (config: Config)
      ensures Valid() && calls == [] && this.config == config
    {
      this.config := config;
      droppedSample, droppedSelector, droppedDedupe, suppressedBaseline := 0, 0, 0, 0;
      suppressedByPattern, dedupeSet, lastEmitTs := map[], {}, map[];
      pending, printed, emittedCount, truncated, dropAll, allFindings := [], [], 0, false, false, [];
      findingCount, summary, bucketCounts, bucketTotal := 0, map[], map[], map[];
      calls, outcomes, passed := [], [], [];
    }

    /** The drop counters are the sizes of the classes of the calls so far. */
    ghost predicate CountersHold()
      reads this`droppedSample, this`droppedSelector, this`droppedDedupe, this`suppressedBaseline
      reads this`suppressedByPattern, this`outcomes
    {
      && droppedSample == Number(outcomes, Sampled)
      && droppedSelector == Number(outcomes, Unselected)
      && droppedDedupe == Number(outcomes, TooSoon)
      && suppressedBaseline == Number(outcomes, InBaseline)
      && Counts(suppressedByPattern, outcomes, PatternOf)
    }

    static ghost predicate Remembers(m: map<string, int>, k: string, ts: Option<int>) {
      if ts.Some? then k in m && m[k] == ts.value else k !in m
    }

    /** What is remembered of the passed findings p. */
    ghost predicate MemoryHolds(p: seq<Finding>)
      reads this`dedupeSet, this`lastEmitTs
    {
      && (config.dedupe ==> forall k :: k in dedupeSet <==> Seen(p, k))
      && forall k :: Remembers(lastEmitTs, k, LastTs(p, k))
    }

    ghost predicate TablesHold(p: seq<Finding>)
      reads this`findingCount, this`summary, this`bucketCounts, this`bucketTotal
    {
      && findingCount == |p|
      && Counts(summary, p, KindOf)
      && Counts(bucketTotal, p, BucketOf(config.bucketSize))
      && CellsCount(bucketCounts, p, config.bucketSize)
    }

    ghost predicate OutputHolds(p: seq<Finding>)
      reads this`pending, this`printed, this`emittedCount, this`truncated, this`dropAll, this`allFindings
    {
      && pending == (if config.stableOrder then p else [])
      && printed == (if config.stableOrder then [] else Limited(p, config.maxFindings))
      && emittedCount == |printed|
      && (truncated <==> !config.stableOrder && 0 <= config.maxFindings < |p|)
      && (dropAll <==> 0 < config.limitFindings <= |printed|)
      && allFindings == (if config.keepAll || config.stableOrder then p else [])
    }

    ghost predicate Valid()
      reads this
    {
      && outcomes == OutcomesOf(config, calls) && passed == PassedOf(config, calls)
      && CountersHold() && MemoryHolds(passed) && TablesHold(passed) && OutputHolds(passed)
    }

    /** Each counter is the number of calls with its outcome, and the outcome of a call is that of its options and of what
      passed before. */
    lemma CountersMean()
      requires Valid()
      ensures |outcomes| == |calls|
      ensures forall i: nat :: i < |calls| ==>
        outcomes[i] == Classify(config, PassedOf(config, calls[..i]), calls[i].sampledOut, calls[i].f)
      ensures droppedSample == |OfOutcome(outcomes, Sampled)|
      ensures droppedSelector == |OfOutcome(outcomes, Unselected)|
      ensures droppedDedupe == |OfOutcome(outcomes, TooSoon)|
      ensures suppressedBaseline == |OfOutcome(outcomes, InBaseline)|
      ensures forall p :: ValueAt(suppressedByPattern, p) == |OfOutcome(outcomes, Suppressed(p))|
    {
      hide Classify, Occurs, MemoryHolds, TablesHold, OutputHolds, OutcomesOf, PassedOf;
      PassedCounted(config, calls);
      forall i: nat | i < |calls|
        ensures outcomes[i] == Classify(config, PassedOf(config, calls[..i]), calls[i].sampledOut, calls[i].f)
      {
        OutcomeAt(config, calls, i);
      }
      OutcomePositions(outcomes, Sampled);
      OutcomePositions(outcomes, Unselected);
      OutcomePositions(outcomes, TooSoon);
      OutcomePositions(outcomes, InBaseline);
      forall p ensures ValueAt(suppressedByPattern, p) == |OfOutcome(outcomes, Suppressed(p))| {
        assert CountsAt(suppressedByPattern, outcomes, PatternOf, p);
        OccursAt(outcomes, PatternOf, p);
        assert Where(outcomes, PatternOf, p) == OfOutcome(outcomes, Suppressed(p));
      }
    }

    /** The tables hold numbers of passed findings: of each type, in each bucket, and of each type in each bucket. */
    lemma TablesMean()
      requires Valid()
      ensures passed == PassedBy(config, calls) && findingCount == |passed|
      ensures forall t :: ValueAt(summary, t) == |OfType(passed, t)|
      ensures config.bucketSize > 0 ==>
        forall b :: (if b in bucketTotal then bucketTotal[b] else 0) == |OfBucket(passed, config.bucketSize, b)|
      ensures config.bucketSize > 0 ==>
        forall b, t :: (if b in bucketCounts && t in bucketCounts[b] then bucketCounts[b][t] else 0)
          == |OfCell(passed, config.bucketSize, b, t)|
    {
      hide Classify, Occurs, Bucket, MemoryHolds, CountersHold, OutputHolds, OutcomesOf, PassedOf, PassedBy;
      RunPasses(config, calls);
      forall t ensures ValueAt(summary, t) == |OfType(passed, t)| {
        assert CountsAt(summary, passed, KindOf, t);
        OccursAt(passed, KindOf, t);
        assert Where(passed, KindOf, t) == OfType(passed, t);
      }
      if config.bucketSize > 0 {
        forall b ensures (if b in bucketTotal then bucketTotal[b] else 0) == |OfBucket(passed, config.bucketSize, b)|
        {
          assert CountsAt(bucketTotal, passed, BucketOf(config.bucketSize), b);
          BucketPositions(passed, config.bucketSize, b);
        }
        forall b, t ensures (if b in bucketCounts && t in bucketCounts[b] then bucketCounts[b][t] else 0)
          == |OfCell(passed, config.bucketSize, b, t)|
        {
          assert CellAt(bucketCounts, passed, config.bucketSize, b, t);
          CellPositions(passed, config.bucketSize, b, t);
        }
      }
    }

    /** Unless the order is to be stable, the first `maxFindings` of what passes is printed, or all of it if there is no such
      limit; otherwise all of it waits. */
    lemma OutputMeans()
      requires Valid()
      ensures config.stableOrder ==> pending == passed && printed == []
      ensures !config.stableOrder ==>
        && pending == [] && printed <= passed
        && |printed| == if 0 <= config.maxFindings < |passed| then config.maxFindings else |passed|
      ensures emittedCount == |printed|
      ensures truncated <==> !config.stableOrder && printed != passed
      ensures dropAll <==> config.limitFindings > 0 && |printed| >= config.limitFindings
    {
      hide MemoryHolds, CountersHold, TablesHold, OutcomesOf, PassedOf;
    }

    /** All the numbers that are reported agree. */
    lemma TotalsAgree()
      requires Valid()
      ensures |calls| == droppedSample + droppedSelector + droppedDedupe + suppressedBaseline
        + SumValues(suppressedByPattern, suppressedByPattern.Keys) + Number(outcomes, Repeated) + findingCount
      ensures SumValues(summary, summary.Keys) == findingCount
      ensures config.bucketSize > 0 ==> SumValues(bucketTotal, bucketTotal.Keys) == findingCount
      ensures config.bucketSize > 0 ==> forall b :: b in bucketTotal ==>
        b in bucketCounts && SumValues(bucketCounts[b], bucketCounts[b].Keys) == bucketTotal[b]
      ensures config.bucketSize > 0 ==> forall t :: ColumnSum(bucketCounts, t, bucketCounts.Keys) == ValueAt(summary, t)
    {
      hide Counts, CellsCount, Occurs, ColumnSum, Bucket, Classify;
      var size := config.bucketSize;
      EveryCallCounted(outcomes);
      PassedCounted(config, calls);
      SumOfAll(suppressedByPattern, outcomes, PatternOf);
      SumOfAll(summary, passed, KindOf);
      if size > 0 {
        SumOfAll(bucketTotal, passed, BucketOf(size));
        forall b | b in bucketTotal
          ensures b in bucketCounts && SumValues(bucketCounts[b], bucketCounts[b].Keys) == bucketTotal[b]
        {
          BucketHasRow(bucketCounts, bucketTotal, passed, size, b);
          RowTotal(bucketCounts, bucketTotal, passed, size, b);
        }
        forall t ensures ColumnSum(bucketCounts, t, bucketCounts.Keys) == ValueAt(summary, t) {
          ColumnTotal(bucketCounts, summary, passed, size, t);
        }
      }
    }

    method AnyGlob(pats: seq<string>, s: string) returns (ok: bool)
      ensures ok == AnyMatch(pats, s)
    {
      ok := false;
      for i := 0 to |pats|
        invariant forall p :: p in pats[..i] ==> !Accepts(s, p)
      {
        var hit := MatchGlob(s, pats[i]);
        if hit { return true; }
      }
    }

    method SelectorDrops(f: Finding) returns (drop: bool)
      ensures drop == !Selected(config, f)
    {
      hide AnyMatch;
      if config.sinceTs > 0 && f.ts < config.sinceTs { return true; }
      if config.untilTs > 0 && f.ts > config.untilTs { return true; }
      if config.onlyType != [] { var ok := AnyGlob(config.onlyType, f.kind); if !ok { return true; } }
      var skip := AnyGlob(config.skipType, f.kind);
      if skip { return true; }
      if config.onlyKey != [] { var ok := AnyGlob(config.onlyKey, f.key); if !ok { return true; } }
      skip := AnyGlob(config.skipKey, f.key);
      if skip { return true; }
      if config.onlyDetails != [] { var ok := AnyGlob(config.onlyDetails, f.details); if !ok { return true; } }
      skip := AnyGlob(config.skipDetails, f.details);
      drop := skip;
    }

    method SuppressedAt(f: Finding) returns (i: nat)
      ensures i == FirstHit(config.suppress, f)
    {
      i := 0;
      while i < |config.suppress|
        invariant i <= |config.suppress| && forall j :: 0 <= j < i ==> !Hits(config.suppress[j], f)
      {
        var pr := config.suppress[i];
        var typeHit := MatchGlob(f.kind, pr.0);
        if typeHit {
          var keyHit := MatchGlob(f.key, pr.1);
          if keyHit { break; }
        }
        i := i + 1;
      }
      FirstHitUnique(config.suppress, f, i);
    }

    method Remember(f: Finding, ghost p: seq<Finding>)
      requires MemoryHolds(p)
      modifies this`dedupeSet, this`lastEmitTs
      ensures MemoryHolds(p + [f])
    {
      hide Seen, LastTs;
      PassedGrows(p, f);
      var k := f.kind + f.key;
      assert k == DedupeKey(f);
      if config.dedupe { dedupeSet := dedupeSet + {k}; }
      lastEmitTs := lastEmitTs[k := f.ts];
    }

    /** Prints the finding, keeps it for later, or notes that the output is truncated. */
    method Print(f: Finding, ghost p: seq<Finding>)
      requires OutputHolds(p)
      modifies this`pending, this`printed, this`emittedCount, this`truncated, this`dropAll, this`allFindings
      ensures OutputHolds(p + [f])
    {
      if config.stableOrder {
        pending := pending + [f];
      } else if config.maxFindings >= 0 && emittedCount >= config.maxFindings {
        truncated := true;
        assert Limited(p + [f], config.maxFindings) == Limited(p, config.maxFindings);
      } else {
        printed := printed + [f];
        emittedCount := emittedCount + 1;
        if config.limitFindings > 0 && emittedCount >= config.limitFindings { dropAll := true; }
        assert Limited(p + [f], config.maxFindings) == p + [f];
      }
      if config.keepAll || config.stableOrder { allFindings := allFindings + [f]; }
    }

    method Tabulate(f: Finding, ghost p: seq<Finding>)
      requires TablesHold(p)
      modifies this`findingCount, this`summary, this`bucketCounts, this`bucketTotal
      ensures TablesHold(p + [f])
    {
      hide Counts, CellsCount, Bump, Bucket, BumpCell;
      findingCount := findingCount + 1;
      BumpCounts(summary, p, KindOf, f);
      summary := Bump(summary, f.kind);
      BumpCounts(bucketTotal, p, BucketOf(config.bucketSize), f);
      if config.bucketSize > 0 {
        var b := Bucket(f.ts, config.bucketSize);
        BumpCellCounts(bucketCounts, p, config.bucketSize, f);
        bucketCounts := BumpCell(bucketCounts, b, f.kind);
        bucketTotal := Bump(bucketTotal, b);
      } else {
        NoBuckets(bucketCounts, p, config.bucketSize, f);
      }
    }

    /** The end of the pipeline: print or keep, count, remember. */
    method PassOn(f: Finding, ghost p: seq<Finding>)
      requires MemoryHolds(p) && TablesHold(p) && OutputHolds(p)
      modifies this`dedupeSet, this`lastEmitTs, this`pending, this`printed, this`emittedCount, this`truncated
      modifies this`dropAll, this`allFindings, this`findingCount, this`summary, this`bucketCounts, this`bucketTotal
      ensures MemoryHolds(p + [f]) && TablesHold(p + [f]) && OutputHolds(p + [f])
    {
      hide *;
      Remember(f, p);
      Print(f, p);
      Tabulate(f, p);
    }

    /** Counts the outcome; nothing counts a repetition, and what passes is counted further on. */
    method Count(o: Outcome)
      requires CountersHold()
      modifies this`droppedSample, this`droppedSelector, this`droppedDedupe, this`suppressedBaseline
      modifies this`suppressedByPattern, this`outcomes
      ensures CountersHold() && outcomes == old(outcomes) + [o]
    {
      hide Occurs, Counts, Bump;
      BumpCounts(suppressedByPattern, outcomes, PatternOf, o);
      match o {
        case Sampled => droppedSample := droppedSample + 1;
        case Unselected => droppedSelector := droppedSelector + 1;
        case TooSoon => droppedDedupe := droppedDedupe + 1;
        case InBaseline => suppressedBaseline := suppressedBaseline + 1;
        case Suppressed(p) => suppressedByPattern := Bump(suppressedByPattern, p);
        case Repeated =>
        case Passed =>
      }
      forall x ensures Number(outcomes + [o], x) == Number(outcomes, x) + if o == x then 1 else 0 {
        NumberNext(outcomes, o, x);
      }
      outcomes := outcomes + [o];
    }

    /** The tests, in the order of the pipeline. */
    method Decide(f: Finding, sampledOut: bool) returns (o: Outcome)
      requires MemoryHolds(passed)
      ensures o == Classify(config, passed, sampledOut, f)
    {
      hide Selected, FirstHit, Seen, LastTs;
      if sampledOut { return Sampled; }
      var drop := SelectorDrops(f);
      if drop { return Unselected; }
      var k := f.kind + f.key;
      assert Remembers(lastEmitTs, k, LastTs(passed, k));
      if config.dedupeWindow > 0 && k in lastEmitTs && f.ts - lastEmitTs[k] <= config.dedupeWindow { return TooSoon; }
      if k in config.baseline { return InBaseline; }
      var i := SuppressedAt(f);
      if i < |config.suppress| { return Suppressed(config.suppress[i].0 + ":" + config.suppress[i].1); }
      if config.dedupe && k in dedupeSet { return Repeated; }
      o := Passed;
    }

    /** One call. Its effect on every counter, set and table is the one that the outcome has. */
    method Emit(f: Finding, sampledOut: bool)
      requires Valid()
      modifies this
      ensures Valid() && calls == old(calls) + [Call(sampledOut, f)]
    {
      hide CountersHold, MemoryHolds, TablesHold, OutputHolds, Classify, OutcomesOf, PassedOf, DedupeKey;
      ghost var call := Call(sampledOut, f);
      RunGrows(config, calls, call);
      var o := Decide(f, sampledOut);
      Count(o);
      if o == Passed {
        PassOn(f, passed);
        passed := passed + [f];
      }
      calls := calls + [call];
    }
  }
}
