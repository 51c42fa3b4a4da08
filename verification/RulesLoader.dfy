/** The hand-written loader of rule files. Every parser function advances a shared index, here returned next to
  its value. One of them, the number parser, does not move the index past the number that it has read. */
module RulesLoader {
  import opened Common
  import opened RulesEngine
  import opened KeyedWindow
  import opened OriginalRecords
  import opened Text

  /** A value and the index behind it, the program's error message, or an exception of std::stod. */
  datatype Res<+T> = Ok(value: T, i: nat) | Fail(error: string) | Throws

  /** std::stod with the cast behind it; none if it throws. */
  type Stod = string -> Option<int>

  predicate IsNumeral(c: char) { IsDigit(c) || c == '.' || c == '-' || c == '+' }

  // ---------------------------------------------------------------- tokens

  /** Skips spaces, and the character if it is there. */
  function Match(s: string, i: nat, c: char): (r: (bool, nat))
    requires i <= |s|
    ensures i <= r.1 <= |s| && (r.0 ==> r.1 > i)
  {
    var j := SkipWs(s, i);
    if j < |s| && s[j] == c then (true, j + 1) else (false, j)
  }

  /** The characters up to the closing quote or the end of the text; a backslash takes the next one as it is. */
  function StringBody(s: string, i: nat, out: string): (r: (string, nat))
    requires i <= |s|
    ensures i <= r.1 <= |s|
    decreases |s| - i
  {
    if i == |s| then (out, i)
    else if s[i] == '"' then (out, i + 1)
    else if s[i] == '\\' && i + 1 < |s| then StringBody(s, i + 2, out + [s[i + 1]])
    else StringBody(s, i + 1, out + [s[i]])
  }

  /** Whether there was an opening quote, the string, and the index. */
  function ParseString(s: string, i: nat): (r: (bool, string, nat))
    requires i <= |s|
    ensures i <= r.2 <= |s| && (r.0 ==> r.2 > i) && (!r.0 ==> r.2 == SkipWs(s, i))
  {
    var j := SkipWs(s, i);
    if j >= |s| || s[j] != '"' then (false, "", j)
    else
      var (out, k) := StringBody(s, j + 1, "");
      (true, out, k)
  }

  function NumeralEnd(s: string, i: nat): (j: nat)
    requires i <= |s|
    ensures i <= j <= |s| && (j > i <==> i < |s| && IsNumeral(s[i]))
    decreases |s| - i
  {
    if i < |s| && IsNumeral(s[i]) then NumeralEnd(s, i + 1) else i
  }

  /** The number, 0 if there is none, and the index, which only spaces have moved. */
  function ParseNumber(stod: Stod, s: string, i: nat): (r: Res<int>)
    requires i <= |s|
    ensures r.Ok? ==> r.i == SkipWs(s, i)
    ensures r.Ok? && r.value != 0 ==> r.i < |s| && IsNumeral(s[r.i])
    ensures !r.Fail?
  {
    var j := SkipWs(s, i);
    var end := NumeralEnd(s, j);
    if end == j then Ok(0, j)
    else if stod(s[j..end]).None? then Throws
    else Ok(stod(s[j..end]).value, j)
  }

  // The program's parser functions, with the index that they share returned next to the value.

  method SkipSpaces(s: string, start: nat) returns (i: nat)
    requires start <= |s|
    ensures i == SkipWs(s, start)
  {
    i := start;
    while i < |s| && IsSpace(s[i])
      invariant start <= i <= |s| && SkipWs(s, i) == SkipWs(s, start)
    {
      i := i + 1;
    }
  }

  method MatchChar(s: string, start: nat, c: char) returns (ok: bool, i: nat)
    requires start <= |s|
    ensures (ok, i) == Match(s, start, c)
  {
    i := SkipSpaces(s, start);
    ok := i < |s| && s[i] == c;
    if ok { i := i + 1; }
  }

  method ParseQuoted(s: string, start: nat) returns (ok: bool, out: string, i: nat)
    requires start <= |s|
    ensures (ok, out, i) == ParseString(s, start)
  {
    i := SkipSpaces(s, start);
    out := "";
    if i >= |s| || s[i] != '"' { return false, "", i; }
    i := i + 1;
    ghost var begin := i;
    while i < |s|
      invariant begin <= i <= |s| && StringBody(s, i, out) == StringBody(s, begin, "")
      decreases |s| - i
    {
      var c := s[i];
      i := i + 1;
      if c == '"' { return true, out, i; }
      if c == '\\' && i < |s| {
        var n := s[i];
        i := i + 1;
        out := out + [n];
      } else {
        out := out + [c];
      }
    }
    ok := true;
  }

  method ParseNumeral(stod: Stod, s: string, start: nat) returns (r: Res<int>)
    requires start <= |s|
    ensures r == ParseNumber(stod, s, start)
  {
    var i := SkipSpaces(s, start);
    var j := i;
    while j < |s| && IsNumeral(s[j])
      invariant i <= j <= |s| && NumeralEnd(s, j) == NumeralEnd(s, i)
    {
      j := j + 1;
    }
    if j == i { return Ok(0, i); }
    var n := stod(s[i..j]);
    r := if n.None? then Throws else Ok(n.value, i);
  }

  // ----------------------------------------------------- objects of members

  /** The members that were found, strings and numbers. */
  datatype Members = Members(strs: map<string, string>, nums: map<string, int>) {
    function StrAt(k: string): string { if k in strs then strs[k] else "" }
    function NumAt(k: string): int { if k in nums then nums[k] else 0 }
  }

  const NOTHING: Members := Members(map[], map[])

  /** One pass of a loop: the loop is over, or goes on behind index i, or the loader gives up. */
  datatype Pass<+T> = Over(value: T, i: nat) | On(value: T, i: nat) | Stop(error: string) | Thrown

  /** Behind a member: spaces and a comma, if there is one. */
  function Comma(s: string, i: nat): (j: nat)
    requires i <= |s|
    ensures i <= j <= |s|
  {
    var j := SkipWs(s, i);
    if j < |s| && s[j] == ',' then j + 1 else j
  }

  /** The name of a member and the index behind its colon; none if there is no colon. */
  function MemberName(s: string, i: nat): (r: Option<(string, nat)>)
    requires i <= |s|
    ensures r.Some? ==> i < r.value.1 <= |s|
  {
    var (_, k, j) := ParseString(s, i);
    var (colon, j') := Match(s, j, ':');
    if colon then Some((k, j')) else None
  }

  /** One pass of the loops over a condition, a count, a sum and an emit object, which differ in the names that they
    read as strings and as numbers. */
  function MemberPass(stod: Stod, strKeys: set<string>, numKeys: set<string>, s: string, i: nat, m: Members)
    : (r: Pass<Members>)
    requires i <= |s|
    ensures r.Over? || r.On? ==> i < r.i <= |s|
  {
    var j := SkipWs(s, i);
    if j < |s| && s[j] == '}' then Over(m, j + 1)
    else
      var name := MemberName(s, j);
      if name.None? then Stop("expected :")
      else
        var (k, at) := name.value;
        if k in strKeys then
          var (_, v, behind) := ParseString(s, at);
          On(m.(strs := m.strs[k := v]), Comma(s, behind))
        else if k in numKeys then
          var n := ParseNumber(stod, s, at);
          if n.Throws? then Thrown else On(m.(nums := m.nums[k := n.value]), Comma(s, n.i))
        else On(m, Comma(s, at))
  }

  function ReadMembers(stod: Stod, strKeys: set<string>, numKeys: set<string>, s: string, i: nat, m: Members)
    : (r: Res<Members>)
    requires i <= |s|
    ensures r.Ok? ==> i < r.i <= |s|
    decreases |s| - i
  {
    match MemberPass(stod, strKeys, numKeys, s, i, m)
    case Over(v, j) => Ok(v, j)
    case On(v, j) => ReadMembers(stod, strKeys, numKeys, s, j, v)
    case Stop(e) => Fail(e)
    case Thrown => Throws
  }

  /** An object behind its opening brace, for which `missing` is the message. */
  function ReadObject(stod: Stod, strKeys: set<string>, numKeys: set<string>, missing: string, s: string, i: nat)
    : (r: Res<Members>)
    requires i <= |s|
    ensures r.Ok? ==> i < r.i <= |s|
  {
    var (brace, j) := Match(s, i, '{');
    if brace then ReadMembers(stod, strKeys, numKeys, s, j, NOTHING) else Fail(missing)
  }

  const CONDITION_KEYS: set<string> := {"field", "op", "value"}

  function OpOf(op: string): CmpOp {
    if op == "ne" then NE
    else if op == ">=" then GE
    else if op == ">" then GT
    else if op == "<=" then LE
    else if op == "<" then LT
    else if op == "regex" then REGEX
    else EQ
  }

  function ConditionPass(stod: Stod, s: string, i: nat, out: seq<Condition>): (r: Pass<seq<Condition>>)
    requires i <= |s|
    ensures r.Over? || r.On? ==> i < r.i <= |s|
  {
    var j := SkipWs(s, i);
    if j < |s| && s[j] == ']' then Over(out, j + 1)
    else
      match ReadObject(stod, CONDITION_KEYS, {}, "expected { in condition", s, j)
      case Ok(m, k) => On(out + [Condition(m.StrAt("field"), OpOf(m.StrAt("op")), m.StrAt("value"))], Comma(s, k))
      case Fail(e) => Stop(e)
      case Throws => Thrown
  }

  function ReadConditions(stod: Stod, s: string, i: nat, out: seq<Condition>): (r: Res<seq<Condition>>)
    requires i <= |s|
    ensures r.Ok? ==> i < r.i <= |s|
    decreases |s| - i
  {
    match ConditionPass(stod, s, i, out)
    case Over(v, j) => Ok(v, j)
    case On(v, j) => ReadConditions(stod, s, j, v)
    case Stop(e) => Fail(e)
    case Thrown => Throws
  }

  // ------------------------------------------------------------------ rules

  const NEW_RULE: Rule := Rule("", [], "", 60, 0, 0, "", "")

  /** What the loops do with the value of an unknown member: a string, or else a number. */
  function SkipValue(stod: Stod, s: string, i: nat): (r: Res<int>)
    requires i <= |s|
    ensures r.Ok? ==> i <= r.i <= |s|
    ensures !r.Fail?
  {
    var (ok, _, j) := ParseString(s, i);
    if ok then Ok(0, j) else ParseNumber(stod, s, i)
  }

  /** The emit object only overwrites what it names. */
  function Emitting(r: Rule, m: Members): Rule {
    r.(emitType := if "type" in m.strs then m.strs["type"] else r.emitType,
       emitDetails := if "details" in m.strs then m.strs["details"] else r.emitDetails)
  }

  /** The value of one member of a rule. */
  function RuleValue(stod: Stod, s: string, at: nat, k: string, r: Rule): (v: Res<Rule>)
    requires at <= |s|
    ensures v.Ok? ==> at <= v.i <= |s|
  {
    if k == "name" then
      var (_, text, j) := ParseString(s, at);
      Ok(r.(name := text), j)
    else if k == "when" then
      var (bracket, j) := Match(s, at, '[');
      if !bracket then Fail("expected [")
      else
        match ReadConditions(stod, s, j, r.conditions)
        case Ok(c, j') => Ok(r.(conditions := c), j')
        case Fail(e) => Fail(e)
        case Throws => Throws
    else if k == "group_by" then
      var (_, text, j) := ParseString(s, at);
      Ok(r.(groupBy := text), j)
    else if k == "within_sec" then
      match ParseNumber(stod, s, at)
      case Ok(n, j) => Ok(r.(withinSec := n), j)
      case Fail(e) => Fail(e)
      case Throws => Throws
    else if k == "count" then
      match ReadObject(stod, {"op"}, {"value"}, "count must be object", s, at)
      case Ok(m, j) => Ok(if m.StrAt("op") == ">=" then r.(countGe := m.NumAt("value")) else r, j)
      case Fail(e) => Fail(e)
      case Throws => Throws
    else if k == "sum_bytes" then
      match ReadObject(stod, {"op"}, {"value"}, "sum_bytes must be object", s, at)
      case Ok(m, j) => Ok(if m.StrAt("op") == ">=" then r.(sumBytesGe := m.NumAt("value")) else r, j)
      case Fail(e) => Fail(e)
      case Throws => Throws
    else if k == "emit" then
      match ReadObject(stod, {"type", "details"}, {}, "emit must be object", s, at)
      case Ok(m, j) => Ok(Emitting(r, m), j)
      case Fail(e) => Fail(e)
      case Throws => Throws
    else
      match SkipValue(stod, s, at)
      case Ok(_, j) => Ok(r, j)
      case Fail(e) => Fail(e)
      case Throws => Throws
  }

  function RulePass(stod: Stod, s: string, i: nat, r: Rule): (p: Pass<Rule>)
    requires i <= |s|
    ensures p.Over? || p.On? ==> i < p.i <= |s|
  {
    var j := SkipWs(s, i);
    if j < |s| && s[j] == '}' then Over(r, j + 1)
    else
      var name := MemberName(s, j);
      if name.None? then Stop("expected :")
      else
        match RuleValue(stod, s, name.value.1, name.value.0, r)
        case Ok(r', j') => On(r', Comma(s, j'))
        case Fail(e) => Stop(e)
        case Throws => Thrown
  }

  function ReadRule(stod: Stod, s: string, i: nat, r: Rule): (q: Res<Rule>)
    requires i <= |s|
    ensures q.Ok? ==> i < q.i <= |s|
    decreases |s| - i
  {
    match RulePass(stod, s, i, r)
    case Over(v, j) => Ok(v, j)
    case On(v, j) => ReadRule(stod, s, j, v)
    case Stop(e) => Fail(e)
    case Thrown => Throws
  }

  function RuleListPass(stod: Stod, s: string, i: nat, rules: seq<Rule>): (p: Pass<seq<Rule>>)
    requires i <= |s|
    ensures p.Over? || p.On? ==> i < p.i <= |s|
  {
    var j := SkipWs(s, i);
    if j < |s| && s[j] == ']' then Over(rules, j + 1)
    else
      var (brace, j') := Match(s, j, '{');
      if !brace then Stop("expected { in rule")
      else
        match ReadRule(stod, s, j', NEW_RULE)
        case Ok(r, k) => On(rules + [r], Comma(s, k))
        case Fail(e) => Stop(e)
        case Throws => Thrown
  }

  function ReadRules(stod: Stod, s: string, i: nat, rules: seq<Rule>): (q: Res<seq<Rule>>)
    requires i <= |s|
    ensures q.Ok? ==> i < q.i <= |s|
    decreases |s| - i
  {
    match RuleListPass(stod, s, i, rules)
    case Over(v, j) => Ok(v, j)
    case On(v, j) => ReadRules(stod, s, j, v)
    case Stop(e) => Fail(e)
    case Thrown => Throws
  }

  function TopPass(stod: Stod, s: string, i: nat, rules: seq<Rule>): (p: Pass<seq<Rule>>)
    requires i <= |s|
    ensures p.Over? || p.On? ==> i < p.i <= |s|
  {
    var j := SkipWs(s, i);
    if j < |s| && s[j] == '}' then Over(rules, j + 1)
    else
      var (ok, key, k) := ParseString(s, j);
      if !ok then Stop("bad key")
      else
        var (colon, at) := Match(s, k, ':');
        if !colon then Stop("expected :")
        else if key == "rules" then
          var (bracket, at') := Match(s, at, '[');
          if !bracket then Stop("rules must be array")
          else
            match ReadRules(stod, s, at', rules)
            case Ok(rs, j') => On(rs, Comma(s, j'))
            case Fail(e) => Stop(e)
            case Throws => Thrown
        else
          match SkipValue(stod, s, at)
          case Ok(_, j') => On(rules, Comma(s, j'))
          case Fail(e) => Stop(e)
          case Throws => Thrown
  }

  function ReadTop(stod: Stod, s: string, i: nat, rules: seq<Rule>): (q: Res<seq<Rule>>)
    requires i <= |s|
    ensures q.Ok? ==> i < q.i <= |s|
    decreases |s| - i
  {
    match TopPass(stod, s, i, rules)
    case Over(v, j) => Ok(v, j)
    case On(v, j) => ReadTop(stod, s, j, v)
    case Stop(e) => Fail(e)
    case Thrown => Throws
  }

  /** The rules in the text of a rule file. */
  function Load(stod: Stod, s: string): (q: Res<seq<Rule>>)
    ensures q.Ok? ==> q.i <= |s|
  {
    var (brace, i) := Match(s, 0, '{');
    if brace then ReadTop(stod, s, i, []) else Fail("expected {")
  }

  // ------------------------------------------------------ the loops

  method ParseComma(s: string, start: nat) returns (i: nat)
    requires start <= |s|
    ensures i == Comma(s, start)
  {
    i := SkipSpaces(s, start);
    if i < |s| && s[i] == ',' { i := i + 1; }
  }

  method ParseName(s: string, start: nat) returns (r: Option<(string, nat)>)
    requires start <= |s|
    ensures r == MemberName(s, start)
  {
    var _, k, i := ParseQuoted(s, start);
    var colon;
    colon, i := MatchChar(s, i, ':');
    r := if colon then Some((k, i)) else None;
  }

  /** The value of a member that the loops do not know. */
  method PassValue(stod: Stod, s: string, start: nat) returns (r: Res<int>)
    requires start <= |s|
    ensures r == SkipValue(stod, s, start)
  {
    var ok, _, i := ParseQuoted(s, start);
    if ok { return Ok(0, i); }
    r := ParseNumeral(stod, s, start);
  }

  /** The loop over the members of a condition, a count, a sum or an emit object. */
  method ParseObject(stod: Stod, strKeys: set<string>, numKeys: set<string>, missing: string, s: string, start: nat)
    returns (r: Res<Members>)
    requires start <= |s|
    ensures r == ReadObject(stod, strKeys, numKeys, missing, s, start)
  {
    hide ParseString, ParseNumber, Match, SkipWs, Comma, MemberName;
    var brace, i := MatchChar(s, start, '{');
    if !brace { return Fail(missing); }
    var m := NOTHING;
    ghost var all := ReadMembers(stod, strKeys, numKeys, s, i, m);
    while true
      invariant i <= |s| && ReadMembers(stod, strKeys, numKeys, s, i, m) == all
      decreases |s| - i
    {
      var j := SkipSpaces(s, i);
      if j < |s| && s[j] == '}' { return Ok(m, j + 1); }
      var name := ParseName(s, j);
      if name.None? { return Fail("expected :"); }
      var (k, at) := name.value;
      if k in strKeys {
        var _, v, behind := ParseQuoted(s, at);
        m, at := m.(strs := m.strs[k := v]), behind;
      } else if k in numKeys {
        var n := ParseNumeral(stod, s, at);
        if n.Throws? { return Throws; }
        m, at := m.(nums := m.nums[k := n.value]), n.i;
      }
      i := ParseComma(s, at);
    }
  }

  method ParseConditions(stod: Stod, s: string, start: nat, conditions: seq<Condition>)
    returns (r: Res<seq<Condition>>)
    requires start <= |s|
    ensures r == ReadConditions(stod, s, start, conditions)
  {
    hide ReadObject, SkipWs, Comma;
    var i, out := start, conditions;
    while true
      invariant i <= |s| && ReadConditions(stod, s, i, out) == ReadConditions(stod, s, start, conditions)
      decreases |s| - i
    {
      var j := SkipSpaces(s, i);
      if j < |s| && s[j] == ']' { return Ok(out, j + 1); }
      var m := ParseObject(stod, CONDITION_KEYS, {}, "expected { in condition", s, j);
      match m {
        case Fail(e) => return Fail(e);
        case Throws => return Throws;
        case Ok(v, k) =>
          out := out + [Condition(v.StrAt("field"), OpOf(v.StrAt("op")), v.StrAt("value"))];
          i := ParseComma(s, k);
      }
    }
  }

  /** The branches over the name of a member of a rule. */
  method ParseRuleValue(stod: Stod, s: string, at: nat, k: string, r: Rule) returns (v: Res<Rule>)
    requires at <= |s|
    ensures v == RuleValue(stod, s, at, k, r)
  {
    hide ReadObject, ReadConditions, ParseString, ParseNumber, Match, SkipValue;
    if k == "name" {
      var _, text, i := ParseQuoted(s, at);
      v := Ok(r.(name := text), i);
    } else if k == "when" {
      var bracket, i := MatchChar(s, at, '[');
      if !bracket { return Fail("expected ["); }
      var c := ParseConditions(stod, s, i, r.conditions);
      v := match c case Ok(cs, j) => Ok(r.(conditions := cs), j) case Fail(e) => Fail(e) case Throws => Throws;
    } else if k == "group_by" {
      var _, text, i := ParseQuoted(s, at);
      v := Ok(r.(groupBy := text), i);
    } else if k == "within_sec" {
      var n := ParseNumeral(stod, s, at);
      v := match n case Ok(x, j) => Ok(r.(withinSec := x), j) case Fail(e) => Fail(e) case Throws => Throws;
    } else if k == "count" {
      var m := ParseObject(stod, {"op"}, {"value"}, "count must be object", s, at);
      v := match m
        case Ok(x, j) => Ok(if x.StrAt("op") == ">=" then r.(countGe := x.NumAt("value")) else r, j)
        case Fail(e) => Fail(e)
        case Throws => Throws;
    } else if k == "sum_bytes" {
      var m := ParseObject(stod, {"op"}, {"value"}, "sum_bytes must be object", s, at);
      v := match m
        case Ok(x, j) => Ok(if x.StrAt("op") == ">=" then r.(sumBytesGe := x.NumAt("value")) else r, j)
        case Fail(e) => Fail(e)
        case Throws => Throws;
    } else if k == "emit" {
      var m := ParseObject(stod, {"type", "details"}, {}, "emit must be object", s, at);
      v := match m case Ok(x, j) => Ok(Emitting(r, x), j) case Fail(e) => Fail(e) case Throws => Throws;
    } else {
      var n := PassValue(stod, s, at);
      v := match n case Ok(_, j) => Ok(r, j) case Fail(e) => Fail(e) case Throws => Throws;
    }
  }

  /** The loop over the members of one rule. */
  method ParseRule(stod: Stod, s: string, start: nat) returns (q: Res<Rule>)
    requires start <= |s|
    ensures q == ReadRule(stod, s, start, NEW_RULE)
  {
    hide RuleValue, MemberName, SkipWs, Comma;
    var i, r := start, NEW_RULE;
    while true
      invariant i <= |s| && ReadRule(stod, s, i, r) == ReadRule(stod, s, start, NEW_RULE)
      decreases |s| - i
    {
      var j := SkipSpaces(s, i);
      if j < |s| && s[j] == '}' { return Ok(r, j + 1); }
      var name := ParseName(s, j);
      if name.None? { return Fail("expected :"); }
      var v := ParseRuleValue(stod, s, name.value.1, name.value.0, r);
      match v {
        case Fail(e) => return Fail(e);
        case Throws => return Throws;
        case Ok(r', k) =>
          r := r';
          i := ParseComma(s, k);
      }
    }
  }

  /** The loop over the rules of an array. */
  method ParseRules(stod: Stod, s: string, start: nat, rules: seq<Rule>) returns (q: Res<seq<Rule>>)
    requires start <= |s|
    ensures q == ReadRules(stod, s, start, rules)
  {
    hide ReadRule, Match, SkipWs, Comma;
    var i, out := start, rules;
    while true
      invariant i <= |s| && ReadRules(stod, s, i, out) == ReadRules(stod, s, start, rules)
      decreases |s| - i
    {
      var j := SkipSpaces(s, i);
      if j < |s| && s[j] == ']' { return Ok(out, j + 1); }
      var brace;
      brace, j := MatchChar(s, j, '{');
      if !brace { return Fail("expected { in rule"); }
      var r := ParseRule(stod, s, j);
      match r {
        case Fail(e) => return Fail(e);
        case Throws => return Throws;
        case Ok(rule, k) =>
          out := out + [rule];
          i := ParseComma(s, k);
      }
    }
  }

  /** The loader: the loop over the members of the file. */
  method LoadRules(stod: Stod, s: string) returns (q: Res<seq<Rule>>)
    ensures q == Load(stod, s)
  {
    hide ReadRules, Match, SkipWs, Comma, ParseString, SkipValue;
    var brace, i := MatchChar(s, 0, '{');
    if !brace { return Fail("expected {"); }
    var rules: seq<Rule> := [];
    ghost var begin := i;
    while true
      invariant i <= |s| && ReadTop(stod, s, i, rules) == ReadTop(stod, s, begin, [])
      decreases |s| - i
    {
      var j := SkipSpaces(s, i);
      if j < |s| && s[j] == '}' { return Ok(rules, j + 1); }
      var ok, key, k := ParseQuoted(s, j);
      if !ok { return Fail("bad key"); }
      var colon, at := MatchChar(s, k, ':');
      if !colon { return Fail("expected :"); }
      if key == "rules" {
        var bracket;
        bracket, at := MatchChar(s, at, '[');
        if !bracket { return Fail("rules must be array"); }
        var rs := ParseRules(stod, s, at, rules);
        match rs {
          case Fail(e) => return Fail(e);
          case Throws => return Throws;
          case Ok(v, j') => rules, at := v, j';
        }
      } else {
        var n := PassValue(stod, s, at);
        match n {
          case Fail(e) => return Fail(e);
          case Throws => return Throws;
          case Ok(_, j') => at := j';
        }
      }
      i := ParseComma(s, at);
    }
  }

  // ------------------------------------------------ numbers are never passed

  /** In front of a number every loop over members gives up. */
  lemma NumberStops(s: string, i: nat)
    requires i < |s| && IsNumeral(s[i])
    ensures SkipWs(s, i) == i && Comma(s, i) == i && s[i] != '}' && MemberName(s, i) == None
  {
  }

  predicate ZeroNums(m: Members) {
    forall k :: k in m.nums ==> m.nums[k] == 0
  }

  /** A pass that reads a number other than zero is the last one. */
  lemma MemberPassZero(stod: Stod, strKeys: set<string>, numKeys: set<string>, s: string, i: nat, m: Members)
    requires i <= |s| && ZeroNums(m)
    requires var p := MemberPass(stod, strKeys, numKeys, s, i, m);
      p.On? && ReadMembers(stod, strKeys, numKeys, s, p.i, p.value).Ok?
    ensures ZeroNums(MemberPass(stod, strKeys, numKeys, s, i, m).value)
  {
    hide ParseString, Match, StringBody, NumeralEnd, ParseNumber, MemberName, Comma, SkipWs;
    var p := MemberPass(stod, strKeys, numKeys, s, i, m);
    if !ZeroNums(p.value) {
      var (k, at) := MemberName(s, SkipWs(s, i)).value;
      var n := ParseNumber(stod, s, at);
      assert n.value != 0 && p.i == Comma(s, n.i);
      NumberStops(s, n.i);
    }
  }

  lemma {:induction false} MembersHaveNoNumber(stod: Stod, strKeys: set<string>, numKeys: set<string>, s: string, i: nat,
                                               m: Members)
    requires i <= |s| && ZeroNums(m) && ReadMembers(stod, strKeys, numKeys, s, i, m).Ok?
    ensures ZeroNums(ReadMembers(stod, strKeys, numKeys, s, i, m).value)
    decreases |s| - i
  {
    hide ParseString, Match, SkipWs, StringBody, NumeralEnd;
    var p := MemberPass(stod, strKeys, numKeys, s, i, m);
    if p.On? {
      MemberPassZero(stod, strKeys, numKeys, s, i, m);
      MembersHaveNoNumber(stod, strKeys, numKeys, s, p.i, p.value);
    }
  }

  /** A rule without thresholds, and with a span that was not given or is zero. */
  predicate Unlimited(r: Rule) {
    r.countGe == 0 && r.sumBytesGe == 0 && (r.withinSec == 60 || r.withinSec == 0)
  }

  lemma ObjectHasNoNumber(stod: Stod, strKeys: set<string>, numKeys: set<string>, missing: string, s: string, i: nat)
    requires i <= |s| && ReadObject(stod, strKeys, numKeys, missing, s, i).Ok?
    ensures forall k :: ReadObject(stod, strKeys, numKeys, missing, s, i).value.NumAt(k) == 0
  {
    hide ReadMembers, Match;
    MembersHaveNoNumber(stod, strKeys, numKeys, s, Match(s, i, '{').1, NOTHING);
  }

  /** The value of a member leaves the rule unlimited, or a number stands behind it. */
  lemma ValueUnlimited(stod: Stod, s: string, at: nat, k: string, r: Rule)
    requires at <= |s| && Unlimited(r) && RuleValue(stod, s, at, k, r).Ok?
    ensures var v := RuleValue(stod, s, at, k, r);
      Unlimited(v.value) || (v.i < |s| && IsNumeral(s[v.i]))
  {
    hide ParseString, ReadObject, ReadConditions, Match, ParseNumber, SkipValue;
    if k == "count" {
      ObjectHasNoNumber(stod, {"op"}, {"value"}, "count must be object", s, at);
    } else if k == "sum_bytes" {
      ObjectHasNoNumber(stod, {"op"}, {"value"}, "sum_bytes must be object", s, at);
    }
  }

  lemma {:induction false} RuleIsUnlimited(stod: Stod, s: string, i: nat, r: Rule)
    requires i <= |s| && Unlimited(r) && ReadRule(stod, s, i, r).Ok?
    ensures Unlimited(ReadRule(stod, s, i, r).value)
    decreases |s| - i
  {
    hide RuleValue, MemberName, SkipWs, Comma;
    var p := RulePass(stod, s, i, r);
    if p.On? {
      var (k, at) := MemberName(s, SkipWs(s, i)).value;
      var v := RuleValue(stod, s, at, k, r);
      ValueUnlimited(stod, s, at, k, r);
      if v.i < |s| && IsNumeral(s[v.i]) {
        NumberStops(s, v.i);
      }
      RuleIsUnlimited(stod, s, p.i, p.value);
    }
  }

  lemma NewRuleUnlimited()
    ensures Unlimited(NEW_RULE)
  {
  }

  lemma {:induction false} RulesAreUnlimited(stod: Stod, s: string, i: nat, rules: seq<Rule>)
    requires i <= |s| && (forall r :: r in rules ==> Unlimited(r)) && ReadRules(stod, s, i, rules).Ok?
    ensures forall r :: r in ReadRules(stod, s, i, rules).value ==> Unlimited(r)
    decreases |s| - i
  {
    hide ReadRule, Match, SkipWs, Comma, Unlimited;
    var p := RuleListPass(stod, s, i, rules);
    if p.On? {
      assert Unlimited(NEW_RULE) by { NewRuleUnlimited(); }
      RuleIsUnlimited(stod, s, Match(s, SkipWs(s, i), '{').1, NEW_RULE);
      RulesAreUnlimited(stod, s, p.i, p.value);
    }
  }

  lemma {:induction false} TopIsUnlimited(stod: Stod, s: string, i: nat, rules: seq<Rule>)
    requires i <= |s| && (forall r :: r in rules ==> Unlimited(r)) && ReadTop(stod, s, i, rules).Ok?
    ensures forall r :: r in ReadTop(stod, s, i, rules).value ==> Unlimited(r)
    decreases |s| - i
  {
    hide ReadRules, Match, SkipWs, Comma, Unlimited, SkipValue, ParseString;
    var p := TopPass(stod, s, i, rules);
    if p.On? {
      var (_, key, k) := ParseString(s, SkipWs(s, i));
      if key == "rules" {
        RulesAreUnlimited(stod, s, Match(s, Match(s, k, ':').1, '[').1, rules);
      }
      TopIsUnlimited(stod, s, p.i, p.value);
    }
  }

  /** On every text: if the loader succeeds at all, no rule that it returns has a threshold. */
  lemma LoadedRulesAreUnlimited(stod: Stod, s: string)
    requires Load(stod, s).Ok?
    ensures forall r :: r in Load(stod, s).value ==> Unlimited(r)
  {
    hide ReadTop, Unlimited;
    TopIsUnlimited(stod, s, Match(s, 0, '{').1, []);
  }

  /** So a rule from a file emits for every record that matches it, whatever the window holds. */
  lemma LoadedRulesAlwaysEmit(stod: Stod, s: string, r: Rule, rec: LogRecord, q: Records)
    requires Load(stod, s).Ok? && r in Load(stod, s).value
    ensures Emits(r, rec, q) == [Finding(r.emitType, KeyFor(r, rec), r.emitDetails, rec.ts)]
  {
    hide Load, KeyFor;
    LoadedRulesAreUnlimited(stod, s);
  }
}
