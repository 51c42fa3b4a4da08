/** The rules engine: every rule keeps, in one shared keyed window, the records that match it, grouped by one
  of their fields. What it emits is what a count over the whole history gives. */
module RulesEngine {
  import opened Expiry
  import opened OriginalRecords
  import opened KeyedWindow
  import opened Decimal
  import opened Positions

  datatype CmpOp = EQ | NE | GE | GT | LE | LT | REGEX

  datatype Condition = Condition(field: string, op: CmpOp, value: string)

  /** The span that a rule asks for (`withinSec`) is never read by the engine. */
  datatype Rule = Rule(
    name: string,
    conditions: seq<Condition>,
    groupBy: string,
    withinSec: int,
    countGe: int,
    sumBytesGe: int,
    emitType: string,
    emitDetails: string)

  /** Numeric comparison of strings and regular expressions are left to the library. */
  type Library = (CmpOp, string, string) -> bool

  function CmpValue(lib: Library, op: CmpOp, a: string, b: string): bool {
    match op
    case EQ => a == b
    case NE => a != b
    case _ => lib(op, a, b)
  }

  function FieldOf(field: string, rec: LogRecord): string {
    if field == "action" then rec.action
    else if field == "status" then rec.status
    else if field == "protocol" then rec.protocol
    else if field == "src_ip" then rec.srcIp
    else if field == "dst_ip" then rec.dstIp
    else if field == "username" then rec.username
    else if field == "dst_port" then ToString(rec.dstPort)
    else if field == "bytes" then ToString(rec.bytes)
    else if field == "ts" then ToString(rec.ts)
    else ""
  }

  /** All conditions of the rule hold of the record. */
  predicate Matches(lib: Library, rule: Rule, rec: LogRecord) {
    forall c :: c in rule.conditions ==> CmpValue(lib, c.op, FieldOf(c.field, rec), c.value)
  }

  function KeyFor(rule: Rule, rec: LogRecord): string {
    if rule.groupBy == "src_ip" then rec.srcIp
    else if rule.groupBy == "dst_ip" then rec.dstIp
    else if rule.groupBy == "username" then rec.username
    else if rule.groupBy == "protocol" then rec.protocol
    else if rule.groupBy == "dst_port" then ToString(rec.dstPort)
    else ""
  }

  function WindowKey(name: string, group: string): string {
    name + ":" + group
  }

  function SumBytes(q: Records): int {
    if q == [] then 0 else SumBytes(q[..|q| - 1]) + q[|q| - 1].bytes
  }

  /** The thresholds of the rule, those that are set, are reached by these records. */
  predicate Reached(rule: Rule, q: Records) {
    (rule.countGe > 0 ==> |q| >= rule.countGe) && (rule.sumBytesGe > 0 ==> SumBytes(q) >= rule.sumBytesGe)
  }

  function Emits(rule: Rule, rec: LogRecord, q: Records): seq<Finding> {
    if Reached(rule, q) then [Finding(rule.emitType, KeyFor(rule, rec), rule.emitDetails, rec.ts)] else []
  }

  // ------------------------------------------------------- the naive engine

  /** The records of the history that match the rule and fall into the group. */
  function Matching(lib: Library, rule: Rule, group: string, h: Records): Records {
    if h == [] then []
    else
      var r := h[|h| - 1];
      Matching(lib, rule, group, h[..|h| - 1]) + if Matches(lib, rule, r) && KeyFor(rule, r) == group then [r] else []
  }

  /** Of the last `cap` matching records of the history h, whose last record is r, those within the span. */
  function Relevant(lib: Library, rule: Rule, h: Records, r: LogRecord, cap: int, span: int): Records {
    Fresh(Last(Matching(lib, rule, KeyFor(rule, r), h), cap), Ts, r.ts - span)
  }

  function RuleFinds(lib: Library, rule: Rule, h: Records, r: LogRecord, cap: int, span: int): seq<Finding> {
    if Matches(lib, rule, r) then Emits(rule, r, Relevant(lib, rule, h, r, cap, span)) else []
  }

  function NaiveFeed(lib: Library, rules: seq<Rule>, h: Records, r: LogRecord, cap: int, span: int): seq<Finding> {
    if rules == [] then []
    else
      var rule := rules[|rules| - 1];
      NaiveFeed(lib, rules[..|rules| - 1], h, r, cap, span)
        + RuleFinds(lib, rule, h, r, cap, span)
  }

  // --------------------------------------------------- the engine's operations

  /** What the rules do to the window for one record. */
  function OpsFor(lib: Library, rules: seq<Rule>, r: LogRecord): seq<Op> {
    if rules == [] then []
    else
      var rule := rules[|rules| - 1];
      OpsFor(lib, rules[..|rules| - 1], r)
        + if Matches(lib, rule, r) then [Op.Add(r, WindowKey(rule.name, KeyFor(rule, r))), Op.Evict(r.ts)] else []
  }

  function OpsOf(lib: Library, rules: seq<Rule>, h: Records): seq<Op> {
    if h == [] then [] else OpsOf(lib, rules, h[..|h| - 1]) + OpsFor(lib, rules, h[|h| - 1])
  }

  /** No two rules can ever use the same window key. */
  ghost predicate Separate(rules: seq<Rule>) {
    forall i, j, g, g' :: 0 <= i < j < |rules| ==> WindowKey(rules[i].name, g) != WindowKey(rules[j].name, g')
  }

  /** Two names can share a key exactly when one of them, with its colon, begins the other. */
  lemma KeysCollide(a: string, b: string)
    ensures (exists g, g' :: WindowKey(a, g) == WindowKey(b, g')) <==> a + ":" <= b + ":" || b + ":" <= a + ":"
  {
    if g, g' :| WindowKey(a, g) == WindowKey(b, g') {
      var k := WindowKey(a, g);
      assert k == (a + ":") + g && k == (b + ":") + g';
      assert a + ":" == k[..|a| + 1] && b + ":" == k[..|b| + 1];
    }
    if a + ":" <= b + ":" {
      var g := (b + ":")[|a| + 1..];
      assert WindowKey(a, g) == WindowKey(b, "");
    }
    if b + ":" <= a + ":" {
      var g' := (a + ":")[|b| + 1..];
      assert WindowKey(a, "") == WindowKey(b, g');
    }
  }

  lemma KeyDeterminesName(a: string, g: string, b: string, g': string)
    requires ':' !in a && ':' !in b && a != b
    ensures WindowKey(a, g) != WindowKey(b, g')
  {
    var k, k' := WindowKey(a, g), WindowKey(b, g');
    if |a| == |b| {
      assert k[..|a|] == a && k'[..|a|] == b;
    } else if |a| < |b| {
      assert k[|a|] == ':' && k'[|a|] == b[|a|];
    } else {
      assert k'[|b|] == ':' && k[|b|] == a[|b|];
    }
  }

  /** Distinct names without a colon are enough. */
  lemma ColonFreeNamesSeparate(rules: seq<Rule>)
    requires forall i :: 0 <= i < |rules| ==> ':' !in rules[i].name
    requires forall i, j :: 0 <= i < j < |rules| ==> rules[i].name != rules[j].name
    ensures Separate(rules)
  {
    forall i, j, g, g' | 0 <= i < j < |rules| ensures WindowKey(rules[i].name, g) != WindowKey(rules[j].name, g') {
      KeyDeterminesName(rules[i].name, g, rules[j].name, g');
    }
  }

  // ------------------------------------------------------------ the two agree

  lemma {:induction false} AddedAppend(a: seq<Op>, b: seq<Op>, k: string)
    ensures Added(a + b, k) == Added(a, k) + Added(b, k)
  {
    if b == [] {
      assert a + b == a;
    } else {
      AddedAppend(a, b[..|b| - 1], k);
      assert (a + b)[..|a + b| - 1] == a + b[..|b| - 1];
    }
  }

  lemma AddedPair(r: LogRecord, key: string, k: string)
    ensures Added([Op.Add(r, key), Op.Evict(r.ts)], k) == if key == k then [r] else []
  {
    var one: seq<Op> := [Op.Add(r, key)];
    assert one[..0] == [] && Added(one, k) == Added([], k) + if key == k then [r] else [];
    var ops := [Op.Add(r, key), Op.Evict(r.ts)];
    assert ops[..1] == one && Added(ops, k) == Added(one, k) + [];
  }

  lemma AddedNothing(k: string)
    ensures Added([], k) == []
  {
  }

  lemma SameKey(rules: seq<Rule>, i: nat, j: nat, g: string, g': string)
    requires Separate(rules) && i < |rules| && j < |rules|
    ensures WindowKey(rules[i].name, g) == WindowKey(rules[j].name, g') <==> i == j && g == g'
  {
    if i == j {
      var n := |rules[i].name| + 1;
      assert WindowKey(rules[i].name, g)[n..] == g && WindowKey(rules[i].name, g')[n..] == g';
    }
  }

  /** Under the key of rule j, one record is added at most once, and only by rule j. */
  lemma {:induction false} AddedByOneRecord(lib: Library, rules: seq<Rule>, n: nat, j: nat, group: string, r: LogRecord)
    requires Separate(rules) && n <= |rules| && j < |rules|
    ensures Added(OpsFor(lib, rules[..n], r), WindowKey(rules[j].name, group))
         == if j < n && Matches(lib, rules[j], r) && KeyFor(rules[j], r) == group then [r] else []
  {
    hide Matches, KeyFor, Added;
    var k := WindowKey(rules[j].name, group);
    if n == 0 {
      assert OpsFor(lib, rules[..0], r) == [];
      AddedNothing(k);
    } else {
      var rule := rules[n - 1];
      var front := OpsFor(lib, rules[..n - 1], r);
      AddedByOneRecord(lib, rules, n - 1, j, group, r);
      assert rules[..n][..n - 1] == rules[..n - 1];
      if Matches(lib, rule, r) {
        var key := WindowKey(rule.name, KeyFor(rule, r));
        AddedAppend(front, [Op.Add(r, key), Op.Evict(r.ts)], k);
        AddedPair(r, key, k);
        SameKey(rules, n - 1, j, KeyFor(rule, r), group);
      } else {
        assert front + [] == front;
      }
    }
  }

  lemma {:induction false} AddedIsMatching(lib: Library, rules: seq<Rule>, j: nat, group: string, h: Records)
    requires Separate(rules) && j < |rules|
    ensures Added(OpsOf(lib, rules, h), WindowKey(rules[j].name, group)) == Matching(lib, rules[j], group, h)
  {
    hide Matches, KeyFor, OpsFor, Added, Separate;
    var k := WindowKey(rules[j].name, group);
    if h == [] {
      AddedNothing(k);
    } else {
      var front, r := h[..|h| - 1], h[|h| - 1];
      AddedIsMatching(lib, rules, j, group, front);
      AddedAppend(OpsOf(lib, rules, front), OpsFor(lib, rules, r), k);
      assert rules[..|rules|] == rules;
      AddedByOneRecord(lib, rules, |rules|, j, group, r);
    }
  }

  lemma {:induction false} OpsForAtOnce(lib: Library, rules: seq<Rule>, r: LogRecord)
    ensures forall i :: 0 <= i < |OpsFor(lib, rules, r)| ==> TimeOf(OpsFor(lib, rules, r)[i]) == r.ts
  {
    hide Matches;
    if rules != [] { OpsForAtOnce(lib, rules[..|rules| - 1], r); }
  }

  lemma {:induction false} OpsInTime(lib: Library, rules: seq<Rule>, h: Records, now: int)
    requires Sorted(h, Ts) && (h != [] ==> h[|h| - 1].ts <= now)
    ensures TimeOrdered(OpsOf(lib, rules, h))
    ensures forall i :: 0 <= i < |OpsOf(lib, rules, h)| ==> TimeOf(OpsOf(lib, rules, h)[i]) <= now
  {
    hide OpsFor;
    if h != [] {
      var front, r := h[..|h| - 1], h[|h| - 1];
      assert front != [] ==> Ts(front[|front| - 1]) <= Ts(r);
      SortedPrefix(h, Ts, |h| - 1);
      OpsInTime(lib, rules, front, r.ts);
      OpsForAtOnce(lib, rules, r);
    }
  }

  lemma OrderedThenAtOnce(a: seq<Op>, b: seq<Op>, now: int)
    requires TimeOrdered(a) && (forall i :: 0 <= i < |a| ==> TimeOf(a[i]) <= now)
    requires forall i :: 0 <= i < |b| ==> TimeOf(b[i]) == now
    ensures TimeOrdered(a + b)
  {
  }

  lemma HistoryInTime(lib: Library, rules: seq<Rule>, h: Records, r: LogRecord)
    requires Sorted(h + [r], Ts)
    ensures TimeOrdered(OpsOf(lib, rules, h))
    ensures forall i :: 0 <= i < |OpsOf(lib, rules, h)| ==> TimeOf(OpsOf(lib, rules, h)[i]) <= r.ts
  {
    hide OpsOf, TimeOrdered;
    SortedPrefix(h + [r], Ts, |h|);
    assert (h + [r])[..|h|] == h;
    assert h != [] ==> Ts((h + [r])[|h| - 1]) <= Ts((h + [r])[|h|]);
    OpsInTime(lib, rules, h, r.ts);
  }

  lemma LastEvicts(lib: Library, rules: seq<Rule>, j: nat, r: LogRecord)
    requires j < |rules| && Matches(lib, rules[j], r)
    ensures OpsFor(lib, rules[..j + 1], r) == OpsFor(lib, rules[..j], r)
      + [Op.Add(r, WindowKey(rules[j].name, KeyFor(rules[j], r))), Op.Evict(r.ts)]
  {
    hide Matches;
    assert rules[..j + 1][..j] == rules[..j];
  }

  lemma RunInTime(lib: Library, rules: seq<Rule>, h: Records, r: LogRecord, j: nat)
    requires Sorted(h + [r], Ts) && j < |rules|
    ensures TimeOrdered(OpsOf(lib, rules, h) + OpsFor(lib, rules[..j + 1], r))
  {
    hide OpsOf, OpsFor, TimeOrdered, Sorted;
    HistoryInTime(lib, rules, h, r);
    OpsForAtOnce(lib, rules[..j + 1], r);
    OrderedThenAtOnce(OpsOf(lib, rules, h), OpsFor(lib, rules[..j + 1], r), r.ts);
  }

  lemma AddedInRun(lib: Library, rules: seq<Rule>, h: Records, r: LogRecord, j: nat)
    requires Separate(rules) && j < |rules| && Matches(lib, rules[j], r)
    ensures var group := KeyFor(rules[j], r);
      Added(OpsOf(lib, rules, h) + OpsFor(lib, rules[..j + 1], r), WindowKey(rules[j].name, group))
        == Matching(lib, rules[j], group, h + [r])
  {
    hide Separate, Matches, KeyFor, OpsOf, OpsFor, Added, WindowKey;
    var group := KeyFor(rules[j], r);
    AddedAppend(OpsOf(lib, rules, h), OpsFor(lib, rules[..j + 1], r), WindowKey(rules[j].name, group));
    AddedIsMatching(lib, rules, j, group, h);
    AddedByOneRecord(lib, rules, j + 1, j, group, r);
    assert (h + [r])[..|h|] == h;
  }

  /** What rule j finds in its window, right after entering the record r behind the history h, is what
    the history has to say. */
  lemma QueueIsRelevant(lib: Library, rules: seq<Rule>, h: Records, r: LogRecord, j: nat, cap: int, span: int)
    requires Separate(rules) && Sorted(h + [r], Ts) && j < |rules| && Matches(lib, rules[j], r)
    ensures Content(OpsOf(lib, rules, h) + OpsFor(lib, rules[..j + 1], r),
                    WindowKey(rules[j].name, KeyFor(rules[j], r)), cap, span)
         == Relevant(lib, rules[j], h + [r], r, cap, span)
  {
    hide Separate, Matches, KeyFor, OpsOf, OpsFor, Added, Fresh, Last, Content, TimeOrdered, Sorted, WindowKey, Matching;
    var k := WindowKey(rules[j].name, KeyFor(rules[j], r));
    var ops := OpsOf(lib, rules, h) + OpsFor(lib, rules[..j + 1], r);
    LastEvicts(lib, rules, j, r);
    RunInTime(lib, rules, h, r, j);
    AddedInRun(lib, rules, h, r, j);
    ClosedForm(ops, k, cap, span);
  }

  // ------------------------------------------------ what the rules mean

  /** The comparison of one field for equality, or for difference. */
  predicate Compares(op: CmpOp, field: string, value: string) {
    if op == EQ then field == value else field != value
  }

  function WithCondition(rule: Rule, field: string, op: CmpOp, value: string): Rule {
    rule.(conditions := [Condition(field, op, value)])
  }

  lemma OneCondition(lib: Library, rule: Rule, rec: LogRecord, c: Condition)
    ensures Matches(lib, rule.(conditions := [c]), rec) <==> CmpValue(lib, c.op, FieldOf(c.field, rec), c.value)
  {
    assert c in [c];
  }

  lemma TextFields(rec: LogRecord)
    ensures FieldOf("action", rec) == rec.action && FieldOf("status", rec) == rec.status
    ensures FieldOf("protocol", rec) == rec.protocol && FieldOf("src_ip", rec) == rec.srcIp
    ensures FieldOf("dst_ip", rec) == rec.dstIp && FieldOf("username", rec) == rec.username
  {
  }

  lemma NumberFields(rec: LogRecord)
    ensures FieldOf("dst_port", rec) == ToString(rec.dstPort) && FieldOf("bytes", rec) == ToString(rec.bytes)
    ensures FieldOf("ts", rec) == ToString(rec.ts)
  {
  }

  lemma FieldCompared(lib: Library, rule: Rule, rec: LogRecord, f: string, op: CmpOp, v: string)
    requires op == EQ || op == NE
    ensures Matches(lib, WithCondition(rule, f, op, v), rec) <==> Compares(op, FieldOf(f, rec), v)
  {
    hide FieldOf, Matches;
    OneCondition(lib, rule, rec, Condition(f, op, v));
  }

  /** A rule with a single condition, `eq` or `ne`, matches the records whose field of that name has the value, or has
    it not; numbers are compared in decimal notation. */
  lemma EqualityConditions(lib: Library, rule: Rule, rec: LogRecord, op: CmpOp, v: string)
    requires op == EQ || op == NE
    ensures Matches(lib, WithCondition(rule, "action", op, v), rec) <==> Compares(op, rec.action, v)
    ensures Matches(lib, WithCondition(rule, "status", op, v), rec) <==> Compares(op, rec.status, v)
    ensures Matches(lib, WithCondition(rule, "protocol", op, v), rec) <==> Compares(op, rec.protocol, v)
    ensures Matches(lib, WithCondition(rule, "src_ip", op, v), rec) <==> Compares(op, rec.srcIp, v)
    ensures Matches(lib, WithCondition(rule, "dst_ip", op, v), rec) <==> Compares(op, rec.dstIp, v)
    ensures Matches(lib, WithCondition(rule, "username", op, v), rec) <==> Compares(op, rec.username, v)
    ensures Matches(lib, WithCondition(rule, "dst_port", op, v), rec) <==> Compares(op, ToString(rec.dstPort), v)
    ensures Matches(lib, WithCondition(rule, "bytes", op, v), rec) <==> Compares(op, ToString(rec.bytes), v)
    ensures Matches(lib, WithCondition(rule, "ts", op, v), rec) <==> Compares(op, ToString(rec.ts), v)
  {
    TextFields(rec);
    NumberFields(rec);
    hide Matches, WithCondition, Compares, ToString, FieldOf;
    FieldCompared(lib, rule, rec, "action", op, v);
    FieldCompared(lib, rule, rec, "status", op, v);
    FieldCompared(lib, rule, rec, "protocol", op, v);
    FieldCompared(lib, rule, rec, "src_ip", op, v);
    FieldCompared(lib, rule, rec, "dst_ip", op, v);
    FieldCompared(lib, rule, rec, "username", op, v);
    FieldCompared(lib, rule, rec, "dst_port", op, v);
    FieldCompared(lib, rule, rec, "bytes", op, v);
    FieldCompared(lib, rule, rec, "ts", op, v);
  }

  /** A name that is not a field stands for an empty text. */
  lemma UnknownField(lib: Library, rule: Rule, rec: LogRecord, f: string, op: CmpOp, v: string)
    requires op == EQ || op == NE
    requires f !in {"action", "status", "protocol", "src_ip", "dst_ip", "username", "dst_port", "bytes", "ts"}
    ensures Matches(lib, WithCondition(rule, f, op, v), rec) <==> Compares(op, "", v)
  {
    hide Matches, WithCondition, Compares, ToString;
    FieldCompared(lib, rule, rec, f, op, v);
  }

  /** The other operators are those of the library. */
  lemma LibraryConditions(lib: Library, rule: Rule, rec: LogRecord, f: string, op: CmpOp, v: string)
    requires op != EQ && op != NE
    ensures Matches(lib, WithCondition(rule, f, op, v), rec) <==> lib(op, FieldOf(f, rec), v)
  {
    hide FieldOf;
    OneCondition(lib, rule, rec, Condition(f, op, v));
  }

  /** Several conditions hold together, and no condition always holds. */
  lemma ConditionsTogether(lib: Library, rule: Rule, rec: LogRecord, a: seq<Condition>, b: seq<Condition>)
    ensures Matches(lib, rule.(conditions := []), rec)
    ensures Matches(lib, rule.(conditions := a + b), rec)
      <==> Matches(lib, rule.(conditions := a), rec) && Matches(lib, rule.(conditions := b), rec)
  {
    hide CmpValue, FieldOf;
    assert forall c :: c in a || c in b <==> c in a + b;
  }

  /** The group of a record is its value of the field that the rule names. */
  lemma GroupOfRecord(rule: Rule, rec: LogRecord)
    ensures rule.groupBy == "src_ip" ==> KeyFor(rule, rec) == rec.srcIp
    ensures rule.groupBy == "dst_ip" ==> KeyFor(rule, rec) == rec.dstIp
    ensures rule.groupBy == "username" ==> KeyFor(rule, rec) == rec.username
    ensures rule.groupBy == "protocol" ==> KeyFor(rule, rec) == rec.protocol
    ensures rule.groupBy == "dst_port" ==> KeyFor(rule, rec) == ToString(rec.dstPort)
    ensures rule.groupBy !in {"src_ip", "dst_ip", "username", "protocol", "dst_port"} ==> KeyFor(rule, rec) == ""
  {
  }

  /** The records of the history that match and fall into the group of its last record. */
  ghost function MatchingAt(lib: Library, rule: Rule, group: string, h: Records): set<nat> {
    set i: nat | i < |h| && Matches(lib, rule, h[i]) && KeyFor(rule, h[i]) == group
  }

  /** Of these, the last `cap` that are within the span. */
  ghost function RelevantAt(lib: Library, rule: Rule, h: Records, cap: int, span: int): set<nat>
    requires h != []
  {
    var r := h[|h| - 1];
    var at := MatchingAt(lib, rule, KeyFor(rule, r), h);
    set i: nat | i < |h| && i in at && BehindIn(at, |h|, i) < cap && h[i].ts >= r.ts - span
  }

  /** The bytes of the records at some positions. */
  ghost function BytesAt(h: Records, at: set<nat>): int {
    if h == [] then 0 else BytesAt(h[..|h| - 1], at) + if |h| - 1 in at then h[|h| - 1].bytes else 0
  }

  /** What the rules emit for the last record of the history: one finding for each rule that it matches and whose
    thresholds, those that are set, are reached. */
  ghost function Emitted(lib: Library, rules: seq<Rule>, h: Records, cap: int, span: int): seq<Finding>
    requires h != []
  {
    if rules == [] then []
    else
      var r, rule := h[|h| - 1], rules[|rules| - 1];
      var at := RelevantAt(lib, rule, h, cap, span);
      Emitted(lib, rules[..|rules| - 1], h, cap, span)
        + if && Matches(lib, rule, r)
             && (rule.countGe <= 0 || |at| >= rule.countGe)
             && (rule.sumBytesGe <= 0 || BytesAt(h, at) >= rule.sumBytesGe)
          then [Finding(rule.emitType, KeyFor(rule, r), rule.emitDetails, r.ts)] else []
  }

  lemma {:induction false} MatchingIsSub(lib: Library, rule: Rule, group: string, h: Records)
    ensures Matching(lib, rule, group, h) == Sub(h, MatchingAt(lib, rule, group, h))
  {
    hide Matches, KeyFor;
    if h != [] {
      var front := h[..|h| - 1];
      var a, b := MatchingAt(lib, rule, group, front), MatchingAt(lib, rule, group, h);
      MatchingIsSub(lib, rule, group, front);
      assert forall i :: 0 <= i < |front| ==> front[i] == h[i];
      assert Below(a, |front|) == Below(b, |front|);
      SameSub(front, a, b);
    }
  }

  lemma RelevantIsSub(lib: Library, rule: Rule, h: Records, cap: int, span: int)
    requires h != []
    ensures Relevant(lib, rule, h, h[|h| - 1], cap, span) == Sub(h, RelevantAt(lib, rule, h, cap, span))
  {
    hide Matches, KeyFor, Matching, Fresh, Last, Sub, BehindIn;
    var r := h[|h| - 1];
    var at := MatchingAt(lib, rule, KeyFor(rule, r), h);
    MatchingIsSub(lib, rule, KeyFor(rule, r), h);
    LastIsSub(h, at, cap);
    FreshIsSub(h, LastAt(at, |h|, cap), Ts, r.ts - span);
    assert FreshAt(h, LastAt(at, |h|, cap), Ts, r.ts - span) == RelevantAt(lib, rule, h, cap, span);
  }

  lemma {:induction false} SumOfSub(h: Records, at: set<nat>)
    ensures SumBytes(Sub(h, at)) == BytesAt(h, at)
  {
    if h != [] {
      var front := Sub(h[..|h| - 1], at);
      SumOfSub(h[..|h| - 1], at);
      assert (front + [h[|h| - 1]])[..|front|] == front;
      assert front + [] == front;
    }
  }

  lemma RelevantCounted(lib: Library, rule: Rule, h: Records, cap: int, span: int)
    requires h != []
    ensures var q, at := Relevant(lib, rule, h, h[|h| - 1], cap, span), RelevantAt(lib, rule, h, cap, span);
      |q| == |at| && SumBytes(q) == BytesAt(h, at)
  {
    hide Relevant, Sub, SumBytes, BytesAt;
    var at := RelevantAt(lib, rule, h, cap, span);
    RelevantIsSub(lib, rule, h, cap, span);
    SubLength(h, at);
    SumOfSub(h, at);
    assert Below(at, |h|) == at;
  }

  /** The naive engine emits just that. */
  lemma {:induction false} FindingsAreEmitted(lib: Library, rules: seq<Rule>, h: Records, cap: int, span: int)
    requires h != []
    ensures NaiveFeed(lib, rules, h, h[|h| - 1], cap, span) == Emitted(lib, rules, h, cap, span)
  {
    hide Matches, KeyFor, Relevant, RelevantAt, SumBytes, BytesAt;
    if rules != [] {
      FindingsAreEmitted(lib, rules[..|rules| - 1], h, cap, span);
      RelevantCounted(lib, rules[|rules| - 1], h, cap, span);
    }
  }

  // ---------------------------------------------------------------- the class

  /** A rule that does not match leaves the window alone. */
  lemma LastIdles(lib: Library, rules: seq<Rule>, j: nat, r: LogRecord)
    requires j < |rules| && !Matches(lib, rules[j], r)
    ensures OpsFor(lib, rules[..j + 1], r) == OpsFor(lib, rules[..j], r)
  {
    hide Matches;
    assert rules[..j + 1][..j] == rules[..j];
    assert OpsFor(lib, rules[..j], r) + [] == OpsFor(lib, rules[..j], r);
  }

  lemma NoRulesFeed(lib: Library, h: Records, r: LogRecord, cap: int, span: int)
    ensures OpsFor(lib, [], r) == [] && NaiveFeed(lib, [], h + [r], r, cap, span) == []
  {
  }

  class Engine {
    const lib: Library
    const rules: seq<Rule>
    const win: KeyedSlidingWindow
    ghost var fed: Records

    constructor (lib: Library, rules: seq<Rule>, span: int, cap: int)
      ensures Valid() && fed == [] && this.lib == lib && this.rules == rules
      ensures win.span == span && win.cap == cap && fresh(win)
    {
      this.lib, this.rules := lib, rules;
      win := new KeyedSlidingWindow(span, cap);
      fed := [];
    }

    ghost predicate Valid()
      reads this, win
    {
      win.Valid() && win.ops == OpsOf(lib, rules, fed)
    }

    method MatchesRecord(rule: Rule, rec: LogRecord) returns (ok: bool)
      ensures ok == Matches(lib, rule, rec)
    {
      for i := 0 to |rule.conditions|
        invariant forall c :: c in rule.conditions[..i] ==> CmpValue(lib, c.op, FieldOf(c.field, rec), c.value)
      {
        var c := rule.conditions[i];
        var val := FieldOf(c.field, rec);
        if !CmpValue(lib, c.op, val, c.value) { return false; }
      }
      ok := true;
    }

    method CountBytes(dq: Records) returns (sum: int)
      ensures sum == SumBytes(dq)
    {
      sum := 0;
      for i := 0 to |dq|
        invariant sum == SumBytes(dq[..i])
      {
        assert dq[..i + 1][..i] == dq[..i];
        sum := sum + dq[i].bytes;
      }
      assert dq[..|dq|] == dq;
    }

    /** The thresholds, tested on the records of the rule's window. */
    method Judge(rule: Rule, r: LogRecord, dq: Records) returns (found: seq<Finding>)
      ensures found == Emits(rule, r, dq)
    {
      hide KeyFor, SumBytes;
      var count := |dq|;
      var sumBytes := CountBytes(dq);
      var ok := true;
      if rule.countGe > 0 { ok := ok && count >= rule.countGe; }
      if rule.sumBytesGe > 0 { ok := ok && sumBytes >= rule.sumBytesGe; }
      found := [];
      if ok { found := found + [Finding(rule.emitType, KeyFor(rule, r), rule.emitDetails, r.ts)]; }
    }

    /** Feeds one record to rule j. */
    method FeedRule(j: nat, r: LogRecord, ghost h: Records) returns (found: seq<Finding>)
      requires j < |rules| && win.Valid() && win.ops == OpsOf(lib, rules, h) + OpsFor(lib, rules[..j], r)
      modifies win
      ensures win.Valid() && win.ops == OpsOf(lib, rules, h) + OpsFor(lib, rules[..j + 1], r)
      ensures Separate(rules) && Sorted(h + [r], Ts) ==> found == RuleFinds(lib, rules[j], h + [r], r, win.cap, win.span)
    {
      hide Matches, KeyFor, WindowKey, Separate, Sorted, Relevant, Emits, Content, OpsOf, OpsFor, KeyedSlidingWindow.Valid;
      var rule := rules[j];
      var hit := MatchesRecord(rule, r);
      if !hit {
        LastIdles(lib, rules, j, r);
        return [];
      }
      LastEvicts(lib, rules, j, r);
      var key := WindowKey(rule.name, KeyFor(rule, r));
      win.Add(r, key);
      win.Evict(r.ts);
      assert win.ops == OpsOf(lib, rules, h) + OpsFor(lib, rules[..j + 1], r);
      var dq := win.Get(key);
      found := Judge(rule, r, dq);
      if Separate(rules) && Sorted(h + [r], Ts) { QueueIsRelevant(lib, rules, h, r, j, win.cap, win.span); }
    }

    /** Feeds one record to all rules, in order. In time order, and with rules that keep apart, the findings
      are those of the naive engine. */
    method Feed(r: LogRecord) returns (out: seq<Finding>)
      requires Valid()
      modifies this, win
      ensures Valid() && fed == old(fed) + [r]
      ensures Separate(rules) && Sorted(fed, Ts) ==>
        out == NaiveFeed(lib, rules, fed, r, win.cap, win.span) == Emitted(lib, rules, fed, win.cap, win.span)
    {
      hide Separate, Sorted, RuleFinds, Emitted, OpsFor, KeyedSlidingWindow.Valid;
      ghost var h := fed;
      ghost var good := Separate(rules) && Sorted(h + [r], Ts);
      out := [];
      NoRulesFeed(lib, h, r, win.cap, win.span);
      assert rules[..0] == [] && OpsOf(lib, rules, h) + [] == OpsOf(lib, rules, h);
      for j := 0 to |rules|
        invariant win.Valid() && fed == h
        invariant win.ops == OpsOf(lib, rules, h) + OpsFor(lib, rules[..j], r)
        invariant good ==> out == NaiveFeed(lib, rules[..j], h + [r], r, win.cap, win.span)
      {
        assert rules[..j + 1][..j] == rules[..j];
        var found := FeedRule(j, r, h);
        out := out + found;
      }
      assert rules[..|rules|] == rules;
      fed := fed + [r];
      assert fed[..|fed| - 1] == h;
      FindingsAreEmitted(lib, rules, fed, win.cap, win.span);
    }
  }
}
