/** Rule files as sequences of tokens, spelled with any white space between them and any escapes in their strings, and
  what the loader makes of them. */
module RulesLayout {
  import opened Common
  import opened Decimal
  import opened RulesEngine
  import opened RulesLoader
  import opened Text

  // ------------------------------------------------------- spelled tokens

  datatype Token = Mark(c: char) | Quote(v: string) | Numeral(text: string)

  /** The first position from i on without white space. */
  function Past(s: string, i: nat): (j: nat)
    requires i <= |s|
    ensures i <= j <= |s|
    decreases |s| - i
  {
    if i < |s| && s[i] in {' ', '\t', '\n', 11 as char, 12 as char, '\r'} then Past(s, i + 1) else i
  }

  /** Where the closing quote of the string v ends, if from i on stands v, each character as it is or behind a backslash,
    which quotes and backslashes need. */
  function BodyEnd(s: string, i: nat, v: string): (e: Option<nat>)
    ensures e.Some? ==> i < e.value <= |s|
    decreases |v|
  {
    if v == "" then
      if i < |s| && s[i] == '"' then Some(i + 1) else None
    else if i < |s| && s[i] == v[0] && v[0] != '"' && v[0] != '\\' then BodyEnd(s, i + 1, v[1..])
    else if i + 1 < |s| && s[i] == '\\' && s[i + 1] == v[0] then BodyEnd(s, i + 2, v[1..])
    else None
  }

  /** Where the token ends, if it begins at i. */
  function TokenEnd(s: string, i: nat, t: Token): (e: Option<nat>)
    ensures e.Some? ==> i < e.value <= |s|
  {
    match t
    case Mark(c) => if i < |s| && s[i] == c then Some(i + 1) else None
    case Quote(v) => if i < |s| && s[i] == '"' then BodyEnd(s, i + 1, v) else None
    case Numeral(text) => if text != "" && IsNumeral(text[0]) && At(s, i, text) then Some(i + |text|) else None
  }

  /** Where the tokens end, if from i on they stand one after the other, with any white space in front of each. */
  function SpelledEnd(s: string, i: nat, ts: seq<Token>): (e: Option<nat>)
    requires i <= |s|
    ensures e.Some? ==> i <= e.value <= |s|
    decreases |ts|
  {
    if ts == [] then Some(i)
    else
      var e := TokenEnd(s, Past(s, i), ts[0]);
      if e.None? then None else SpelledEnd(s, e.value, ts[1..])
  }

  predicate Spells(s: string, i: nat, ts: seq<Token>, j: nat) {
    i <= |s| && SpelledEnd(s, i, ts) == Some(j)
  }

  // ----------------------------------------------- a text for any white space

  predicate IsGap(g: string) {
    forall c :: c in g ==> c in {' ', '\t', '\n', 11 as char, 12 as char, '\r'}
  }

  function Escaped(v: string): string {
    if v == "" then ""
    else (if v[0] == '"' || v[0] == '\\' then ['\\', v[0]] else [v[0]]) + Escaped(v[1..])
  }

  function TokenText(t: Token): string {
    match t
    case Mark(c) => [c]
    case Quote(v) => "\"" + (Escaped(v) + "\"")
    case Numeral(text) => text
  }

  /** The tokens written out, each behind its gap. */
  function Written(ts: seq<Token>, gaps: seq<string>): string
    requires |ts| == |gaps|
  {
    if ts == [] then "" else gaps[0] + (TokenText(ts[0]) + Written(ts[1..], gaps[1..]))
  }

  predicate IsToken(t: Token) {
    match t
    case Mark(c) => c in {'{', '}', '[', ']', ':', ','}
    case Quote(_) => true
    case Numeral(text) => text != "" && IsNumeral(text[0])
  }

  lemma {:induction false} GapPassed(s: string, i: nat, g: string)
    requires At(s, i, g) && IsGap(g) && i + |g| < |s| && s[i + |g|] !in {' ', '\t', '\n', 11 as char, 12 as char, '\r'}
    ensures Past(s, i) == i + |g|
    decreases |g|
  {
    if g != "" {
      assert s[i..i + |g|][0] == s[i] == g[0] && g[0] in g;
      assert s[i + 1..i + 1 + |g[1..]|] == s[i..i + |g|][1..] == g[1..];
      assert forall c :: c in g[1..] ==> c in g;
      GapPassed(s, i + 1, g[1..]);
    }
  }

  lemma AtParts(s: string, i: nat, a: string, b: string)
    requires At(s, i, a + b)
    ensures At(s, i, a) && At(s, i + |a|, b)
  {
    assert s[i..i + |a|] == s[i..i + |a + b|][..|a|];
    assert s[i + |a|..i + |a| + |b|] == s[i..i + |a + b|][|a|..];
  }

  lemma AtChar(s: string, i: nat, t: string, k: nat)
    requires At(s, i, t) && k < |t|
    ensures i + k < |s| && s[i + k] == t[k]
  {
    assert s[i..i + |t|][k] == s[i + k];
  }

  lemma {:induction false} BodyWritten(s: string, i: nat, v: string)
    requires At(s, i, Escaped(v) + "\"")
    ensures BodyEnd(s, i, v) == Some(i + |Escaped(v)| + 1)
    decreases |v|
  {
    if v == "" {
      AtChar(s, i, Escaped(v) + "\"", 0);
    } else {
      var e := if v[0] == '"' || v[0] == '\\' then ['\\', v[0]] else [v[0]];
      assert Escaped(v) + "\"" == e + (Escaped(v[1..]) + "\"");
      AtParts(s, i, e, Escaped(v[1..]) + "\"");
      AtChar(s, i, e, 0);
      AtChar(s, i, e, |e| - 1);
      BodyWritten(s, i + |e|, v[1..]);
    }
  }

  lemma TokenWritten(s: string, i: nat, t: Token)
    requires IsToken(t) && At(s, i, TokenText(t))
    ensures TokenEnd(s, i, t) == Some(i + |TokenText(t)|)
    ensures i < |s| && s[i] !in {' ', '\t', '\n', 11 as char, 12 as char, '\r'}
  {
    AtChar(s, i, TokenText(t), 0);
    match t
    case Mark(_) =>
    case Numeral(_) =>
    case Quote(v) =>
      AtParts(s, i, "\"", Escaped(v) + "\"");
      BodyWritten(s, i + 1, v);
  }

  lemma AtFits(s: string, i: nat, t: string)
    requires At(s, i, t)
    ensures i + |t| <= |s|
  {
  }

  /** Whatever the gaps, what is written spells the tokens. */
  lemma {:induction false} WrittenSpells(s: string, i: nat, ts: seq<Token>, gaps: seq<string>)
    requires |ts| == |gaps| && (forall t :: t in ts ==> IsToken(t)) && (forall g :: g in gaps ==> IsGap(g))
    requires At(s, i, Written(ts, gaps))
    ensures Spells(s, i, ts, i + |Written(ts, gaps)|)
    decreases |ts|
  {
    hide At, TokenText, TokenEnd, IsGap, IsToken, Past;
    if ts == [] {
      AtFits(s, i, "");
    } else {
      var g, t, rest := gaps[0], TokenText(ts[0]), Written(ts[1..], gaps[1..]);
      AtFits(s, i, g + (t + rest));
      AtParts(s, i, g, t + rest);
      AtParts(s, i + |g|, t, rest);
      TokenWritten(s, i + |g|, ts[0]);
      GapPassed(s, i, g);
      WrittenSpells(s, i + |g| + |t|, ts[1..], gaps[1..]);
    }
  }

  // -------------------------------------------------- the loader on tokens

  lemma {:induction false} SkipIsPast(s: string, i: nat)
    requires i <= |s|
    ensures SkipWs(s, i) == Past(s, i)
    decreases |s| - i
  {
    if i < |s| && IsSpace(s[i]) { SkipIsPast(s, i + 1); }
  }

  /** The token matcher skips white space, and then wants its character. */
  lemma MatchMeans(s: string, i: nat, c: char)
    requires i <= |s|
    ensures SkipWs(s, i) == Past(s, i)
    ensures var k := Past(s, i); Match(s, i, c) == if k < |s| && s[k] == c then (true, k + 1) else (false, k)
  {
    SkipIsPast(s, i);
    hide SkipWs, Past;
  }

  lemma {:induction false} PastTwice(s: string, i: nat)
    requires i <= |s|
    ensures Past(s, Past(s, i)) == Past(s, i)
    decreases |s| - i
  {
    if Past(s, i) != i { PastTwice(s, i + 1); }
  }

  lemma SpelledSplit(s: string, i: nat, a: seq<Token>, b: seq<Token>, j: nat) returns (m: nat)
    requires Spells(s, i, a + b, j)
    ensures Spells(s, i, a, m) && Spells(s, m, b, j)
    decreases |a|
  {
    if a == [] {
      assert a + b == b;
      m := i;
    } else {
      assert (a + b)[1..] == a[1..] + b;
      m := SpelledSplit(s, TokenEnd(s, Past(s, i), a[0]).value, a[1..], b, j);
    }
  }

  /** The first token, and the rest. */
  lemma FirstToken(s: string, i: nat, t: Token, rest: seq<Token>, j: nat) returns (m: nat)
    requires Spells(s, i, [t] + rest, j)
    ensures i <= |s| && TokenEnd(s, Past(s, i), t) == Some(m) && Spells(s, m, rest, j)
  {
    assert ([t] + rest)[1..] == rest;
    m := TokenEnd(s, Past(s, i), t).value;
  }

  /** White space in front of the tokens may have been skipped. */
  lemma FromPast(s: string, i: nat, ts: seq<Token>, j: nat)
    requires Spells(s, i, ts, j) && ts != []
    ensures Spells(s, Past(s, i), ts, j)
  {
    PastTwice(s, i);
  }

  lemma MarkRead(s: string, i: nat, c: char, rest: seq<Token>, j: nat) returns (m: nat)
    requires Spells(s, i, [Mark(c)] + rest, j)
    ensures i <= |s| && Match(s, i, c) == (true, m) && Spells(s, m, rest, j)
    ensures m == Past(s, i) + 1 && s[Past(s, i)] == c && SkipWs(s, i) == Past(s, i)
  {
    hide Match, Past, SkipWs;
    m := FirstToken(s, i, Mark(c), rest, j);
    MatchMeans(s, i, c);
  }

  lemma {:induction false} BodyRead(s: string, i: nat, v: string, out: string)
    requires BodyEnd(s, i, v).Some?
    ensures i <= |s| && StringBody(s, i, out) == (out + v, BodyEnd(s, i, v).value)
    decreases |v|
  {
    if v == "" {
      assert out + v == out;
    } else {
      assert out + v == out + [v[0]] + v[1..];
      if i < |s| && s[i] == v[0] && v[0] != '"' && v[0] != '\\' {
        BodyRead(s, i + 1, v[1..], out + [v[0]]);
      } else {
        BodyRead(s, i + 2, v[1..], out + [v[0]]);
      }
    }
  }

  /** A string reads back, whatever the escapes. */
  lemma QuoteRead(s: string, i: nat, v: string, rest: seq<Token>, j: nat) returns (m: nat)
    requires Spells(s, i, [Quote(v)] + rest, j)
    ensures i <= |s| && ParseString(s, i) == (true, v, m) && Spells(s, m, rest, j)
    ensures Past(s, i) < |s| && s[Past(s, i)] == '"' && SkipWs(s, i) == Past(s, i)
  {
    hide Past, SkipWs, StringBody;
    m := FirstToken(s, i, Quote(v), rest, j);
    SkipIsPast(s, i);
    BodyRead(s, Past(s, i) + 1, v, "");
    assert "" + v == v;
  }

  /** A string that the end of the text cuts off is read up to there. */
  lemma {:induction false} CutOffRead(s: string, i: nat, out: string)
    requires i <= |s| && forall k :: i <= k < |s| ==> s[k] != '"' && s[k] != '\\'
    ensures StringBody(s, i, out) == (out + s[i..], |s|)
    decreases |s| - i
  {
    if i == |s| {
      assert out + s[i..] == out;
    } else {
      CutOffRead(s, i + 1, out + [s[i]]);
      assert out + s[i..] == out + [s[i]] + s[i + 1..];
    }
  }

  /** In front of a numeral stops every loop. */
  predicate Stuck(s: string, i: nat) {
    i < |s| && IsNumeral(s[i])
  }

  lemma NumeralRead(stod: Stod, s: string, i: nat, text: string, rest: seq<Token>, j: nat)
    requires Spells(s, i, [Numeral(text)] + rest, j)
    ensures i <= |s| && Stuck(s, Past(s, i)) && !ParseString(s, i).0
    ensures var n := ParseNumber(stod, s, i); n.Throws? || (n.Ok? && n.i == Past(s, i))
  {
    hide Past, SkipWs, NumeralEnd, StringBody;
    var m := FirstToken(s, i, Numeral(text), rest, j);
    SkipIsPast(s, i);
    AtChar(s, Past(s, i), text, 0);
  }

  lemma StuckStops(s: string, i: nat)
    requires Stuck(s, i)
    ensures Comma(s, i) == i && SkipWs(s, i) == i && s[i] != '}' && s[i] != ']' && MemberName(s, i) == None
    ensures !ParseString(s, i).0 && !Match(s, i, '{').0
  {
    NumberStops(s, i);
    assert !IsSpace(s[i]);
  }

  function Sep(comma: bool): seq<Token> { if comma then [Mark(',')] else [] }

  lemma NotAComma(s: string, i: nat, ts: seq<Token>, j: nat)
    requires Spells(s, i, ts, j) && ts != [] && ts[0] != Mark(',')
    ensures Past(s, i) < |s| && s[Past(s, i)] != ','
  {
    hide Past, BodyEnd;
    match ts[0]
    case Mark(_) =>
    case Quote(_) =>
    case Numeral(text) => AtChar(s, Past(s, i), text, 0);
  }

  /** A comma, if there is one, is passed. */
  lemma CommaRead(s: string, i: nat, comma: bool, rest: seq<Token>, j: nat)
    requires Spells(s, i, Sep(comma) + rest, j) && rest != [] && rest[0] != Mark(',')
    ensures i <= |s| && Spells(s, Comma(s, i), rest, j)
  {
    hide Past, SkipWs, BodyEnd;
    SkipIsPast(s, i);
    if comma {
      var m := MarkRead(s, i, ',', rest, j);
    } else {
      assert Sep(comma) + rest == rest;
      NotAComma(s, i, rest, j);
      FromPast(s, i, rest, j);
    }
  }

  function Named(k: string): seq<Token> { [Quote(k), Mark(':')] }

  lemma NameRead(s: string, i: nat, k: string, rest: seq<Token>, j: nat) returns (m: nat)
    requires Spells(s, i, Named(k) + rest, j)
    ensures i <= |s| && SkipWs(s, i) < |s| && s[SkipWs(s, i)] == '"' && SkipWs(s, i) == Past(s, i)
    ensures ParseString(s, Past(s, i)).0 && ParseString(s, Past(s, i)).1 == k
    ensures Match(s, ParseString(s, Past(s, i)).2, ':') == (true, m)
    ensures MemberName(s, Past(s, i)) == Some((k, m)) && Spells(s, m, rest, j)
  {
    hide Past, SkipWs, ParseString, Match;
    var tail := [Mark(':')] + rest;
    assert Named(k) + rest == [Quote(k)] + tail;
    var e := QuoteRead(s, i, k, tail, j);
    FromPast(s, i, [Quote(k)] + tail, j);
    PastTwice(s, i);
    e := QuoteRead(s, Past(s, i), k, tail, j);
    m := MarkRead(s, e, ':', rest, j);
  }

  // -------------------------------------------------------------- objects

  /** A member with a string value; commas behind members, here as in the following, are up to the file. */
  datatype Pair = Pair(key: string, value: string, comma: bool)

  function PairsTokens(ps: seq<Pair>): seq<Token> {
    if ps == [] then [] else Named(ps[0].key) + [Quote(ps[0].value)] + Sep(ps[0].comma) + PairsTokens(ps[1..])
  }

  function Closed(ts: seq<Token>): seq<Token> { ts + [Mark('}')] }

  function ObjectTokens(ps: seq<Pair>): seq<Token> { [Mark('{')] + Closed(PairsTokens(ps)) }

  /** The members that are read: of several with one name the last one counts. */
  function WithAll(m: Members, ps: seq<Pair>): Members
    decreases |ps|
  {
    if ps == [] then m else WithAll(m.(strs := m.strs[ps[0].key := ps[0].value]), ps[1..])
  }

  predicate KeysIn(ps: seq<Pair>, keys: set<string>) {
    forall p :: p in ps ==> p.key in keys
  }

  lemma FirstPair(ps: seq<Pair>, rest: seq<Token>)
    requires ps != []
    ensures PairsTokens(ps) + rest
         == Named(ps[0].key) + ([Quote(ps[0].value)] + (Sep(ps[0].comma) + (PairsTokens(ps[1..]) + rest)))
  {
  }

  /** Behind a comma stands a name, or what closes the object. */
  lemma PairsBegin(ps: seq<Pair>, rest: seq<Token>)
    requires rest != [] && rest[0] != Mark(',')
    ensures PairsTokens(ps) + rest != [] && (PairsTokens(ps) + rest)[0] != Mark(',')
  {
  }

  lemma PairRead(stod: Stod, strKeys: set<string>, numKeys: set<string>, s: string, i: nat, m: Members, p: Pair,
                 rest: seq<Token>, j: nat)
    requires p.key in strKeys && rest != [] && rest[0] != Mark(',')
    requires Spells(s, i, Named(p.key) + ([Quote(p.value)] + (Sep(p.comma) + rest)), j)
    ensures i <= |s|
    ensures var pass := MemberPass(stod, strKeys, numKeys, s, i, m);
      pass.On? && pass.value == m.(strs := m.strs[p.key := p.value]) && Spells(s, pass.i, rest, j)
  {
    hide Spells, ParseString, Match, Comma, MemberName, SkipWs, Past;
    var at := NameRead(s, i, p.key, [Quote(p.value)] + (Sep(p.comma) + rest), j);
    var e := QuoteRead(s, at, p.value, Sep(p.comma) + rest, j);
    CommaRead(s, e, p.comma, rest, j);
  }

  lemma NoPairs(rest: seq<Token>)
    ensures PairsTokens([]) + rest == rest
  {
  }

  lemma SpellsInRange(s: string, i: nat, ts: seq<Token>, j: nat)
    requires Spells(s, i, ts, j)
    ensures i <= j <= |s|
  {
  }

  lemma {:induction false} PairsRead(stod: Stod, strKeys: set<string>, numKeys: set<string>, s: string, i: nat, m: Members,
                                     ps: seq<Pair>, rest: seq<Token>, j: nat) returns (k: nat)
    requires KeysIn(ps, strKeys) && rest != [] && rest[0] != Mark(',')
    requires Spells(s, i, PairsTokens(ps) + rest, j)
    ensures i <= |s| && k <= |s| && Spells(s, k, rest, j)
    ensures ReadMembers(stod, strKeys, numKeys, s, i, m) == ReadMembers(stod, strKeys, numKeys, s, k, WithAll(m, ps))
    decreases |ps|
  {
    hide Spells, MemberPass, PairsTokens;
    if ps == [] {
      assert PairsTokens(ps) + rest == rest by { NoPairs(rest); }
      k := i;
      SpellsInRange(s, i, rest, j);
    } else {
      FirstPair(ps, rest);
      PairsBegin(ps[1..], rest);
      PairRead(stod, strKeys, numKeys, s, i, m, ps[0], PairsTokens(ps[1..]) + rest, j);
      var pass := MemberPass(stod, strKeys, numKeys, s, i, m);
      k := PairsRead(stod, strKeys, numKeys, s, pass.i, pass.value, ps[1..], rest, j);
    }
  }

  lemma MembersClosed(stod: Stod, strKeys: set<string>, numKeys: set<string>, s: string, i: nat, m: Members,
                      rest: seq<Token>, j: nat) returns (k: nat)
    requires Spells(s, i, [Mark('}')] + rest, j)
    ensures i <= |s| && ReadMembers(stod, strKeys, numKeys, s, i, m) == Ok(m, k) && Spells(s, k, rest, j)
  {
    hide Spells, Match, MemberName, SkipWs, Past;
    k := MarkRead(s, i, '}', rest, j);
  }

  lemma ObjectRead(stod: Stod, strKeys: set<string>, numKeys: set<string>, missing: string, s: string, i: nat,
                   ps: seq<Pair>, rest: seq<Token>, j: nat) returns (k: nat)
    requires KeysIn(ps, strKeys) && Spells(s, i, ObjectTokens(ps) + rest, j)
    ensures i <= |s| && Spells(s, k, rest, j)
    ensures ReadObject(stod, strKeys, numKeys, missing, s, i) == Ok(WithAll(NOTHING, ps), k)
  {
    hide Spells, ReadMembers, Match, PairsTokens, KeysIn;
    assert ObjectTokens(ps) + rest == [Mark('{')] + (PairsTokens(ps) + ([Mark('}')] + rest));
    var b := MarkRead(s, i, '{', PairsTokens(ps) + ([Mark('}')] + rest), j);
    var e := PairsRead(stod, strKeys, numKeys, s, b, NOTHING, ps, [Mark('}')] + rest, j);
    k := MembersClosed(stod, strKeys, numKeys, s, e, WithAll(NOTHING, ps), rest, j);
  }

  // ------------------------------------------------------------ conditions

  datatype Clause = Clause(members: seq<Pair>, comma: bool)

  function ClausesTokens(cs: seq<Clause>): seq<Token> {
    if cs == [] then [] else ObjectTokens(cs[0].members) + Sep(cs[0].comma) + ClausesTokens(cs[1..])
  }

  /** The operators by name; every other name means equality. */
  function OperatorOf(op: string): CmpOp {
    if op == ">=" then GE else if op == ">" then GT else if op == "<=" then LE else if op == "<" then LT
    else if op == "ne" then NE else if op == "regex" then REGEX else EQ
  }

  function ConditionOf(c: Clause): Condition {
    var m := WithAll(NOTHING, c.members);
    Condition(m.StrAt("field"), OperatorOf(m.StrAt("op")), m.StrAt("value"))
  }

  lemma OperatorsAgree(op: string)
    ensures OpOf(op) == OperatorOf(op)
  {
  }

  function ConditionsOf(cs: seq<Clause>): seq<Condition> {
    if cs == [] then [] else [ConditionOf(cs[0])] + ConditionsOf(cs[1..])
  }

  const CLAUSE_KEYS: set<string> := {"field", "op", "value"}

  predicate ClausesOk(cs: seq<Clause>) {
    forall c :: c in cs ==> KeysIn(c.members, CLAUSE_KEYS)
  }

  lemma ClausesBegin(cs: seq<Clause>, rest: seq<Token>)
    requires rest != [] && rest[0] != Mark(',')
    ensures ClausesTokens(cs) + rest != [] && (ClausesTokens(cs) + rest)[0] != Mark(',')
  {
    if cs != [] { assert (ClausesTokens(cs) + rest)[0] == Mark('{'); }
  }

  lemma NoClauses(rest: seq<Token>)
    ensures ClausesTokens([]) + rest == rest
  {
  }

  lemma Regrouped(a: seq<Token>, b: seq<Token>, c: seq<Token>, d: seq<Token>)
    ensures a + b + c + d == a + (b + (c + d))
  {
  }

  lemma FirstClauseOk(cs: seq<Clause>)
    requires cs != []
    ensures ClausesOk(cs) <==> KeysIn(cs[0].members, CLAUSE_KEYS) && ClausesOk(cs[1..])
  {
    hide KeysIn;
    assert cs[0] in cs && forall c :: c in cs <==> c == cs[0] || c in cs[1..];
  }

  lemma FirstClause(cs: seq<Clause>, rest: seq<Token>)
    requires cs != []
    ensures ClausesTokens(cs) + rest == ObjectTokens(cs[0].members) + (Sep(cs[0].comma) + (ClausesTokens(cs[1..]) + rest))
    ensures ClausesOk(cs) <==> KeysIn(cs[0].members, CLAUSE_KEYS) && ClausesOk(cs[1..])
  {
    hide ObjectTokens, KeysIn, Sep, ClausesOk;
    FirstClauseOk(cs);
    Regrouped(ObjectTokens(cs[0].members), Sep(cs[0].comma), ClausesTokens(cs[1..]), rest);
  }

  lemma ClauseRead(stod: Stod, s: string, i: nat, out: seq<Condition>, c: Clause, rest: seq<Token>, j: nat)
    requires KeysIn(c.members, CLAUSE_KEYS) && rest != [] && rest[0] != Mark(',')
    requires Spells(s, i, ObjectTokens(c.members) + (Sep(c.comma) + rest), j)
    ensures i <= |s|
    ensures var pass := ConditionPass(stod, s, i, out);
      pass.On? && pass.value == out + [ConditionOf(c)] && Spells(s, pass.i, rest, j)
  {
    hide Spells, ReadObject, Match, Comma, SkipWs, Past, PairsTokens, KeysIn, WithAll, OpOf, OperatorOf, Members.StrAt;
    var ts := Closed(PairsTokens(c.members)) + (Sep(c.comma) + rest);
    assert ObjectTokens(c.members) + (Sep(c.comma) + rest) == [Mark('{')] + ts;
    var b := MarkRead(s, i, '{', ts, j);
    FromPast(s, i, [Mark('{')] + ts, j);
    var e := ObjectRead(stod, CONDITION_KEYS, {}, "expected { in condition", s, Past(s, i), c.members, Sep(c.comma) + rest, j);
    CommaRead(s, e, c.comma, rest, j);
    OperatorsAgree(WithAll(NOTHING, c.members).StrAt("op"));
  }

  lemma ConditionsClosed(stod: Stod, s: string, i: nat, out: seq<Condition>, rest: seq<Token>, j: nat) returns (k: nat)
    requires Spells(s, i, [Mark(']')] + rest, j)
    ensures i <= |s| && ReadConditions(stod, s, i, out) == Ok(out, k) && Spells(s, k, rest, j)
  {
    hide Spells, Match, SkipWs, Past, ReadObject;
    k := MarkRead(s, i, ']', rest, j);
  }

  lemma ConditionsJoin(out: seq<Condition>, cs: seq<Clause>)
    requires cs != []
    ensures out + [ConditionOf(cs[0])] + ConditionsOf(cs[1..]) == out + ConditionsOf(cs)
  {
  }

  lemma NoConditions(out: seq<Condition>)
    ensures out + ConditionsOf([]) == out
  {
  }

  lemma OnePass(stod: Stod, s: string, i: nat, out: seq<Condition>)
    requires i <= |s| && ConditionPass(stod, s, i, out).On?
    ensures var p := ConditionPass(stod, s, i, out);
      ReadConditions(stod, s, i, out) == ReadConditions(stod, s, p.i, p.value)
  {
    hide ConditionPass;
  }

  lemma {:induction false} ClausesRead(stod: Stod, s: string, i: nat, out: seq<Condition>, cs: seq<Clause>,
                                       rest: seq<Token>, j: nat) returns (k: nat)
    requires ClausesOk(cs) && Spells(s, i, ClausesTokens(cs) + ([Mark(']')] + rest), j)
    ensures i <= |s| && Spells(s, k, rest, j)
    ensures ReadConditions(stod, s, i, out) == Ok(out + ConditionsOf(cs), k)
    decreases |cs|
  {
    hide Spells, ReadConditions, ConditionPass, ClausesTokens, ConditionOf, ConditionsOf, KeysIn, ClausesOk, ObjectTokens, Sep;
    var closing := [Mark(']')] + rest;
    if cs == [] {
      NoClauses(closing);
      k := ConditionsClosed(stod, s, i, out, rest, j);
      assert out + ConditionsOf(cs) == out by { NoConditions(out); }
    } else {
      FirstClause(cs, closing);
      ClausesBegin(cs[1..], closing);
      ClauseRead(stod, s, i, out, cs[0], ClausesTokens(cs[1..]) + closing, j);
      var pass := ConditionPass(stod, s, i, out);
      OnePass(stod, s, i, out);
      k := ClausesRead(stod, s, pass.i, pass.value, cs[1..], rest, j);
      ConditionsJoin(out, cs);
    }
  }

  // ------------------------------------------------------------ one rule

  /** The members of a rule: those that it has, in any order and number, and others. */
  datatype Member =
    | Name(v: string)
    | When(clauses: seq<Clause>)
    | GroupBy(v: string)
    | Within(number: string)
    | Count(ops: seq<Pair>)
    | CountNumber(ops: seq<Pair>, number: string, behind: seq<Token>)
    | SumBytes(ops: seq<Pair>)
    | SumBytesNumber(ops: seq<Pair>, number: string, behind: seq<Token>)
    | Emit(pairs: seq<Pair>)
    | Other(k: string, v: string)
    | OtherNumber(k: string, number: string)

  const MEMBER_NAMES: set<string> := {"name", "when", "group_by", "within_sec", "count", "sum_bytes", "emit"}

  /** An object with operators, a number called `value`, and whatever comes behind. */
  function NumberObject(ops: seq<Pair>, number: string, behind: seq<Token>): seq<Token> {
    [Mark('{')] + (PairsTokens(ops) + (Named("value") + ([Numeral(number)] + behind)))
  }

  function ValueTokens(m: Member): seq<Token> {
    match m
    case Name(v) => [Quote(v)]
    case When(cs) => [Mark('[')] + (ClausesTokens(cs) + [Mark(']')])
    case GroupBy(v) => [Quote(v)]
    case Within(n) => [Numeral(n)]
    case Count(ops) => ObjectTokens(ops)
    case CountNumber(ops, n, behind) => NumberObject(ops, n, behind)
    case SumBytes(ops) => ObjectTokens(ops)
    case SumBytesNumber(ops, n, behind) => NumberObject(ops, n, behind)
    case Emit(ps) => ObjectTokens(ps)
    case Other(_, v) => [Quote(v)]
    case OtherNumber(_, n) => [Numeral(n)]
  }

  function NameOf(m: Member): string {
    match m
    case Name(_) => "name"
    case When(_) => "when"
    case GroupBy(_) => "group_by"
    case Within(_) => "within_sec"
    case Count(_) => "count"
    case CountNumber(_, _, _) => "count"
    case SumBytes(_) => "sum_bytes"
    case SumBytesNumber(_, _, _) => "sum_bytes"
    case Emit(_) => "emit"
    case Other(k, _) => k
    case OtherNumber(k, _) => k
  }

  predicate HasNumber(m: Member) {
    m.Within? || m.CountNumber? || m.SumBytesNumber? || m.OtherNumber?
  }

  /** The names inside the objects are those that the loader knows, and the others are not members of a rule. */
  predicate MemberOk(m: Member) {
    match m
    case When(cs) => ClausesOk(cs)
    case Count(ops) => KeysIn(ops, {"op"})
    case CountNumber(ops, _, _) => KeysIn(ops, {"op"})
    case SumBytes(ops) => KeysIn(ops, {"op"})
    case SumBytesNumber(ops, _, _) => KeysIn(ops, {"op"})
    case Emit(ps) => KeysIn(ps, {"type", "details"})
    case Other(k, _) => k !in MEMBER_NAMES
    case OtherNumber(k, _) => k !in MEMBER_NAMES
    case _ => true
  }

  /** What a member without a number makes of the rule. A threshold object without a number sets the threshold to 0. */
  function Applied(r: Rule, m: Member): Rule {
    match m
    case Name(v) => r.(name := v)
    case When(cs) => r.(conditions := r.conditions + ConditionsOf(cs))
    case GroupBy(v) => r.(groupBy := v)
    case Count(ops) => if WithAll(NOTHING, ops).StrAt("op") == ">=" then r.(countGe := 0) else r
    case SumBytes(ops) => if WithAll(NOTHING, ops).StrAt("op") == ">=" then r.(sumBytesGe := 0) else r
    case Emit(ps) =>
      var m := WithAll(NOTHING, ps);
      r.(emitType := if "type" in m.strs then m.strs["type"] else r.emitType,
         emitDetails := if "details" in m.strs then m.strs["details"] else r.emitDetails)
    case _ => r
  }

  lemma {:induction false} NoNumbersIn(m: Members, ps: seq<Pair>)
    ensures WithAll(m, ps).nums == m.nums
    decreases |ps|
  {
    if ps != [] { NoNumbersIn(m.(strs := m.strs[ps[0].key := ps[0].value]), ps[1..]); }
  }

  /** The value is read, and the rule is what the member makes of it. */
  ghost predicate ValueTaken(stod: Stod, s: string, at: nat, r: Rule, m: Member, rest: seq<Token>, j: nat)
    requires at <= |s|
  {
    var v := RuleValue(stod, s, at, NameOf(m), r);
    v.Ok? && v.value == Applied(r, m) && Spells(s, v.i, rest, j)
  }

  /** The value is not read, or the index stands in front of a numeral. */
  ghost predicate ValueRefused(stod: Stod, s: string, at: nat, r: Rule, m: Member)
    requires at <= |s|
  {
    var v := RuleValue(stod, s, at, NameOf(m), r);
    v.Ok? ==> Stuck(s, v.i)
  }

  lemma NameValue(stod: Stod, s: string, at: nat, r: Rule, v: string, rest: seq<Token>, j: nat)
    requires Spells(s, at, [Quote(v)] + rest, j)
    ensures at <= |s| && ValueTaken(stod, s, at, r, Name(v), rest, j)
  {
    hide Spells, ParseString, Match, ReadConditions, ReadObject, ParseNumber, SkipValue, Past, SkipWs;
    var e := QuoteRead(s, at, v, rest, j);
  }

  lemma GroupValue(stod: Stod, s: string, at: nat, r: Rule, v: string, rest: seq<Token>, j: nat)
    requires Spells(s, at, [Quote(v)] + rest, j)
    ensures at <= |s| && ValueTaken(stod, s, at, r, GroupBy(v), rest, j)
  {
    hide Spells, ParseString, Match, ReadConditions, ReadObject, ParseNumber, SkipValue, Past, SkipWs;
    var e := QuoteRead(s, at, v, rest, j);
  }

  lemma WhenValue(stod: Stod, s: string, at: nat, r: Rule, cs: seq<Clause>, rest: seq<Token>, j: nat)
    requires ClausesOk(cs) && Spells(s, at, [Mark('[')] + (ClausesTokens(cs) + ([Mark(']')] + rest)), j)
    ensures at <= |s| && ValueTaken(stod, s, at, r, When(cs), rest, j)
  {
    hide Spells, ParseString, Match, ReadConditions, ReadObject, ParseNumber, SkipValue, Past, SkipWs, ClausesTokens,
      ConditionsOf, ClausesOk;
    var b := MarkRead(s, at, '[', ClausesTokens(cs) + ([Mark(']')] + rest), j);
    var k := ClausesRead(stod, s, b, r.conditions, cs, rest, j);
  }

  lemma ThresholdValue(stod: Stod, s: string, at: nat, r: Rule, ops: seq<Pair>, rest: seq<Token>, j: nat)
    requires KeysIn(ops, {"op"}) && Spells(s, at, ObjectTokens(ops) + rest, j)
    ensures at <= |s| && ValueTaken(stod, s, at, r, Count(ops), rest, j)
    ensures ValueTaken(stod, s, at, r, SumBytes(ops), rest, j)
  {
    hide Spells, ParseString, Match, ReadConditions, ReadObject, ParseNumber, SkipValue, ObjectTokens, WithAll, KeysIn,
      Members.StrAt;
    NoNumbersIn(NOTHING, ops);
    var k := ObjectRead(stod, {"op"}, {"value"}, "count must be object", s, at, ops, rest, j);
    var k' := ObjectRead(stod, {"op"}, {"value"}, "sum_bytes must be object", s, at, ops, rest, j);
  }

  lemma EmitValue(stod: Stod, s: string, at: nat, r: Rule, ps: seq<Pair>, rest: seq<Token>, j: nat)
    requires KeysIn(ps, {"type", "details"}) && Spells(s, at, ObjectTokens(ps) + rest, j)
    ensures at <= |s| && ValueTaken(stod, s, at, r, Emit(ps), rest, j)
  {
    hide Spells, ParseString, Match, ReadConditions, ReadObject, ParseNumber, SkipValue, ObjectTokens, WithAll, KeysIn;
    var k := ObjectRead(stod, {"type", "details"}, {}, "emit must be object", s, at, ps, rest, j);
  }

  lemma OtherValue(stod: Stod, s: string, at: nat, r: Rule, k: string, v: string, rest: seq<Token>, j: nat)
    requires k !in MEMBER_NAMES && Spells(s, at, [Quote(v)] + rest, j)
    ensures at <= |s| && ValueTaken(stod, s, at, r, Other(k, v), rest, j)
  {
    hide Spells, ParseString, Match, ReadConditions, ReadObject, ParseNumber, Past, SkipWs;
    var e := QuoteRead(s, at, v, rest, j);
  }

  lemma WithinValue(stod: Stod, s: string, at: nat, r: Rule, n: string, rest: seq<Token>, j: nat)
    requires Spells(s, at, [Numeral(n)] + rest, j)
    ensures at <= |s| && ValueRefused(stod, s, at, r, Within(n))
  {
    hide Spells, ParseString, Match, ReadConditions, ReadObject, ParseNumber, SkipValue, Past, Stuck;
    NumeralRead(stod, s, at, n, rest, j);
  }

  lemma OtherNumberValue(stod: Stod, s: string, at: nat, r: Rule, k: string, n: string, rest: seq<Token>, j: nat)
    requires k !in MEMBER_NAMES && Spells(s, at, [Numeral(n)] + rest, j)
    ensures at <= |s| && ValueRefused(stod, s, at, r, OtherNumber(k, n))
  {
    hide Spells, ParseString, Match, ReadConditions, ReadObject, ParseNumber, Past, Stuck;
    NumeralRead(stod, s, at, n, rest, j);
  }

  lemma StuckMembers(stod: Stod, strKeys: set<string>, numKeys: set<string>, s: string, i: nat, m: Members)
    requires Stuck(s, i)
    ensures !ReadMembers(stod, strKeys, numKeys, s, i, m).Ok?
  {
    hide Stuck, SkipWs, Comma, MemberName, ParseString, Match;
    StuckStops(s, i);
  }

  lemma NumberMemberRefused(stod: Stod, s: string, k: nat, m: Members, n: string, behind: seq<Token>, j: nat)
    requires Spells(s, k, Named("value") + ([Numeral(n)] + behind), j)
    ensures k <= |s| && !ReadMembers(stod, {"op"}, {"value"}, s, k, m).Ok?
  {
    hide Spells, ParseString, Match, ParseNumber, MemberName, Comma, SkipWs, Past, Stuck;
    var at := NameRead(s, k, "value", [Numeral(n)] + behind, j);
    NumeralRead(stod, s, at, n, behind, j);
    var e := Past(s, at);
    StuckStops(s, e);
    var pass := MemberPass(stod, {"op"}, {"value"}, s, k, m);
    if pass.On? { StuckMembers(stod, {"op"}, {"value"}, s, e, pass.value); }
  }

  lemma NumberObjectRefused(stod: Stod, missing: string, s: string, at: nat, ops: seq<Pair>, n: string,
                            behind: seq<Token>, j: nat)
    requires KeysIn(ops, {"op"}) && Spells(s, at, NumberObject(ops, n, behind), j)
    ensures at <= |s| && !ReadObject(stod, {"op"}, {"value"}, missing, s, at).Ok?
  {
    hide Spells, ParseString, Match, ParseNumber, PairsTokens, KeysIn, MemberPass, ReadMembers, WithAll, Stuck;
    var number := [Numeral(n)] + behind;
    var named := Named("value") + number;
    var b := MarkRead(s, at, '{', PairsTokens(ops) + named, j);
    var k := PairsRead(stod, {"op"}, {"value"}, s, b, NOTHING, ops, named, j);
    NumberMemberRefused(stod, s, k, WithAll(NOTHING, ops), n, behind, j);
  }

  lemma ThresholdRefused(stod: Stod, s: string, at: nat, r: Rule, ops: seq<Pair>, n: string, behind: seq<Token>,
                         rest: seq<Token>, j: nat)
    requires KeysIn(ops, {"op"}) && Spells(s, at, NumberObject(ops, n, behind) + rest, j)
    ensures at <= |s| && ValueRefused(stod, s, at, r, CountNumber(ops, n, behind))
    ensures ValueRefused(stod, s, at, r, SumBytesNumber(ops, n, behind))
  {
    hide Spells, ParseString, Match, ReadConditions, ReadObject, ParseNumber, SkipValue, KeysIn, PairsTokens, Stuck;
    assert NumberObject(ops, n, behind) + rest == NumberObject(ops, n, behind + rest);
    NumberObjectRefused(stod, "count must be object", s, at, ops, n, behind + rest, j);
    NumberObjectRefused(stod, "sum_bytes must be object", s, at, ops, n, behind + rest, j);
  }

  lemma ValueRead(stod: Stod, s: string, at: nat, r: Rule, m: Member, rest: seq<Token>, j: nat)
    requires MemberOk(m) && Spells(s, at, ValueTokens(m) + rest, j)
    ensures at <= |s|
    ensures if HasNumber(m) then ValueRefused(stod, s, at, r, m) else ValueTaken(stod, s, at, r, m, rest, j)
  {
    hide Spells, ValueTaken, ValueRefused, ObjectTokens, NumberObject, ClausesTokens, ClausesOk, KeysIn;
    match m
    case Name(v) => NameValue(stod, s, at, r, v, rest, j);
    case When(cs) =>
      assert ValueTokens(m) + rest == [Mark('[')] + (ClausesTokens(cs) + ([Mark(']')] + rest));
      WhenValue(stod, s, at, r, cs, rest, j);
    case GroupBy(v) => GroupValue(stod, s, at, r, v, rest, j);
    case Within(n) => WithinValue(stod, s, at, r, n, rest, j);
    case Count(ops) => ThresholdValue(stod, s, at, r, ops, rest, j);
    case CountNumber(ops, n, behind) => ThresholdRefused(stod, s, at, r, ops, n, behind, rest, j);
    case SumBytes(ops) => ThresholdValue(stod, s, at, r, ops, rest, j);
    case SumBytesNumber(ops, n, behind) => ThresholdRefused(stod, s, at, r, ops, n, behind, rest, j);
    case Emit(ps) => EmitValue(stod, s, at, r, ps, rest, j);
    case Other(k, v) => OtherValue(stod, s, at, r, k, v, rest, j);
    case OtherNumber(k, n) => OtherNumberValue(stod, s, at, r, k, n, rest, j);
  }

  lemma StuckRule(stod: Stod, s: string, i: nat, r: Rule)
    requires Stuck(s, i)
    ensures !ReadRule(stod, s, i, r).Ok?
  {
    hide Stuck, SkipWs, Comma, MemberName, ParseString, Match, RuleValue;
    StuckStops(s, i);
  }

  /** One member of a rule, and a comma behind it or not. */
  datatype RuleMember = RuleMember(m: Member, comma: bool)

  function RuleMemberTokens(x: RuleMember): seq<Token> {
    Named(NameOf(x.m)) + (ValueTokens(x.m) + Sep(x.comma))
  }

  lemma RuleMemberRead(stod: Stod, s: string, i: nat, r: Rule, x: RuleMember, rest: seq<Token>, j: nat)
    requires MemberOk(x.m) && rest != [] && rest[0] != Mark(',')
    requires Spells(s, i, Named(NameOf(x.m)) + (ValueTokens(x.m) + (Sep(x.comma) + rest)), j)
    ensures i <= |s|
    ensures if HasNumber(x.m) then !ReadRule(stod, s, i, r).Ok?
      else var p := RulePass(stod, s, i, r); p.On? && p.value == Applied(r, x.m) && Spells(s, p.i, rest, j)
  {
    hide Spells, ValueTokens, NameOf, Applied, MemberOk, RuleValue, Comma, MemberName, SkipWs, Past, ParseString, Match, Stuck;
    var at := NameRead(s, i, NameOf(x.m), ValueTokens(x.m) + (Sep(x.comma) + rest), j);
    ValueRead(stod, s, at, r, x.m, Sep(x.comma) + rest, j);
    var v := RuleValue(stod, s, at, NameOf(x.m), r);
    if v.Ok? {
      if HasNumber(x.m) {
        StuckStops(s, v.i);
        StuckRule(stod, s, v.i, v.value);
      } else {
        CommaRead(s, v.i, x.comma, rest, j);
      }
    }
  }

  type RuleTree = seq<RuleMember>

  function MembersTokens(xs: RuleTree): seq<Token> {
    if xs == [] then [] else RuleMemberTokens(xs[0]) + MembersTokens(xs[1..])
  }

  predicate TreeOk(xs: RuleTree) {
    forall x :: x in xs ==> MemberOk(x.m)
  }

  predicate NumberFree(xs: RuleTree) {
    forall x :: x in xs ==> !HasNumber(x.m)
  }

  function AllApplied(r: Rule, xs: RuleTree): Rule
    decreases |xs|
  {
    if xs == [] then r else AllApplied(Applied(r, xs[0].m), xs[1..])
  }

  lemma MembersBegin(xs: RuleTree, rest: seq<Token>)
    requires rest != [] && rest[0] != Mark(',')
    ensures MembersTokens(xs) + rest != [] && (MembersTokens(xs) + rest)[0] != Mark(',')
  {
    if xs != [] { assert (MembersTokens(xs) + rest)[0] == Quote(NameOf(xs[0].m)); }
  }

  lemma FirstMember(xs: RuleTree, rest: seq<Token>)
    requires xs != []
    ensures MembersTokens(xs) + rest == Named(NameOf(xs[0].m)) +
      (ValueTokens(xs[0].m) + (Sep(xs[0].comma) + (MembersTokens(xs[1..]) + rest)))
  {
    hide ValueTokens, NameOf;
  }

  lemma RuleClosed(stod: Stod, s: string, i: nat, r: Rule, rest: seq<Token>, j: nat) returns (k: nat)
    requires Spells(s, i, [Mark('}')] + rest, j)
    ensures i <= |s| && ReadRule(stod, s, i, r) == Ok(r, k) && Spells(s, k, rest, j)
  {
    hide Spells, Match, SkipWs, Past, MemberName, RuleValue;
    k := MarkRead(s, i, '}', rest, j);
  }

  /** A rule behind its opening brace: it is what its members make of a new one, or there is a number in it and the
    loader gives up. */
  lemma {:induction false} RuleRead(stod: Stod, s: string, i: nat, r: Rule, xs: RuleTree, rest: seq<Token>, j: nat)
    returns (k: nat)
    requires TreeOk(xs) && Spells(s, i, MembersTokens(xs) + ([Mark('}')] + rest), j)
    ensures i <= |s|
    ensures if NumberFree(xs) then ReadRule(stod, s, i, r) == Ok(AllApplied(r, xs), k) && Spells(s, k, rest, j)
      else !ReadRule(stod, s, i, r).Ok?
    decreases |xs|
  {
    hide Spells, RulePass, ValueTokens, NameOf, Applied, MemberOk, HasNumber;
    k := i;
    var closing := [Mark('}')] + rest;
    if xs == [] {
      assert MembersTokens(xs) + closing == closing;
      k := RuleClosed(stod, s, i, r, rest, j);
    } else {
      FirstMember(xs, closing);
      MembersBegin(xs[1..], closing);
      assert xs[0] in xs && forall x :: x in xs <==> x == xs[0] || x in xs[1..];
      RuleMemberRead(stod, s, i, r, xs[0], MembersTokens(xs[1..]) + closing, j);
      if !HasNumber(xs[0].m) {
        var p := RulePass(stod, s, i, r);
        k := RuleRead(stod, s, p.i, p.value, xs[1..], rest, j);
      }
    }
  }

  // -------------------------------------------------------------- the file

  datatype RuleItem = RuleItem(members: RuleTree, comma: bool)

  /** A new rule, before its members are read. */
  const EMPTY_RULE: Rule := Rule("", [], "", 60, 0, 0, "", "")

  function RulesTokens(xs: seq<RuleItem>): seq<Token> {
    if xs == [] then []
    else [Mark('{')] + Closed(MembersTokens(xs[0].members)) + Sep(xs[0].comma) + RulesTokens(xs[1..])
  }

  function RulesOf(xs: seq<RuleItem>): seq<Rule> {
    if xs == [] then [] else [AllApplied(EMPTY_RULE, xs[0].members)] + RulesOf(xs[1..])
  }

  predicate ItemsOk(xs: seq<RuleItem>) {
    forall x :: x in xs ==> TreeOk(x.members)
  }

  predicate ItemsNumberFree(xs: seq<RuleItem>) {
    forall x :: x in xs ==> NumberFree(x.members)
  }

  lemma ItemRead(stod: Stod, s: string, i: nat, acc: seq<Rule>, x: RuleItem, rest: seq<Token>, j: nat)
    requires TreeOk(x.members) && rest != [] && rest[0] != Mark(',')
    requires Spells(s, i, [Mark('{')] + (MembersTokens(x.members) + ([Mark('}')] + (Sep(x.comma) + rest))), j)
    ensures i <= |s|
    ensures var p := RuleListPass(stod, s, i, acc);
      if NumberFree(x.members) then p.On? && p.value == acc + [AllApplied(EMPTY_RULE, x.members)] && Spells(s, p.i, rest, j)
      else p.Stop? || p.Thrown?
  {
    hide Spells, MembersTokens, TreeOk, NumberFree, AllApplied, ReadRule, Match, SkipWs, Past, Comma;
    var ts := MembersTokens(x.members) + ([Mark('}')] + (Sep(x.comma) + rest));
    FromPast(s, i, [Mark('{')] + ts, j);
    PastTwice(s, i);
    var b := MarkRead(s, i, '{', ts, j);
    b := MarkRead(s, Past(s, i), '{', ts, j);
    var k := RuleRead(stod, s, b, NEW_RULE, x.members, Sep(x.comma) + rest, j);
    if NumberFree(x.members) { CommaRead(s, k, x.comma, rest, j); }
  }

  lemma ItemsBegin(xs: seq<RuleItem>, rest: seq<Token>)
    requires rest != [] && rest[0] != Mark(',')
    ensures RulesTokens(xs) + rest != [] && (RulesTokens(xs) + rest)[0] != Mark(',')
  {
    if xs != [] { assert (RulesTokens(xs) + rest)[0] == Mark('{'); }
  }

  lemma FirstItem(xs: seq<RuleItem>, rest: seq<Token>)
    requires xs != []
    ensures RulesTokens(xs) + rest == [Mark('{')] +
      (MembersTokens(xs[0].members) + ([Mark('}')] + (Sep(xs[0].comma) + (RulesTokens(xs[1..]) + rest))))
  {
    hide MembersTokens;
  }

  lemma FirstOfItems(xs: seq<RuleItem>)
    requires xs != []
    ensures ItemsOk(xs) <==> TreeOk(xs[0].members) && ItemsOk(xs[1..])
    ensures ItemsNumberFree(xs) <==> NumberFree(xs[0].members) && ItemsNumberFree(xs[1..])
  {
    hide TreeOk, NumberFree;
    assert xs[0] in xs && forall x :: x in xs <==> x == xs[0] || x in xs[1..];
  }

  lemma NoItems(rest: seq<Token>)
    ensures RulesTokens([]) + rest == rest && ItemsNumberFree([])
  {
  }

  lemma RulesClosed(stod: Stod, s: string, i: nat, acc: seq<Rule>, rest: seq<Token>, j: nat) returns (k: nat)
    requires Spells(s, i, [Mark(']')] + rest, j)
    ensures i <= |s| && ReadRules(stod, s, i, acc) == Ok(acc, k) && Spells(s, k, rest, j)
  {
    hide Spells, Match, SkipWs, Past, ReadRule;
    k := MarkRead(s, i, ']', rest, j);
  }

  lemma RulesJoin(acc: seq<Rule>, xs: seq<RuleItem>)
    requires xs != []
    ensures acc + [AllApplied(EMPTY_RULE, xs[0].members)] + RulesOf(xs[1..]) == acc + RulesOf(xs)
  {
    hide AllApplied;
  }

  lemma NoRules(acc: seq<Rule>)
    ensures acc + RulesOf([]) == acc
  {
  }

  lemma OneRulePass(stod: Stod, s: string, i: nat, acc: seq<Rule>)
    requires i <= |s|
    ensures var p := RuleListPass(stod, s, i, acc);
      && (p.On? ==> ReadRules(stod, s, i, acc) == ReadRules(stod, s, p.i, p.value))
      && (p.Stop? || p.Thrown? ==> !ReadRules(stod, s, i, acc).Ok?)
  {
    hide RuleListPass;
  }

  lemma {:induction false} RulesRead(stod: Stod, s: string, i: nat, acc: seq<Rule>, xs: seq<RuleItem>, rest: seq<Token>,
                                     j: nat) returns (k: nat)
    requires ItemsOk(xs) && Spells(s, i, RulesTokens(xs) + ([Mark(']')] + rest), j)
    ensures i <= |s|
    ensures if ItemsNumberFree(xs) then ReadRules(stod, s, i, acc) == Ok(acc + RulesOf(xs), k) && Spells(s, k, rest, j)
      else !ReadRules(stod, s, i, acc).Ok?
    decreases |xs|
  {
    hide Spells, ReadRules, RuleListPass, RulesTokens, RulesOf, ItemsOk, ItemsNumberFree, TreeOk, NumberFree, AllApplied, Sep;
    k := i;
    var closing := [Mark(']')] + rest;
    if xs == [] {
      NoItems(closing);
      k := RulesClosed(stod, s, i, acc, rest, j);
      NoRules(acc);
    } else {
      FirstItem(xs, closing);
      ItemsBegin(xs[1..], closing);
      FirstOfItems(xs);
      ItemRead(stod, s, i, acc, xs[0], RulesTokens(xs[1..]) + closing, j);
      OneRulePass(stod, s, i, acc);
      if NumberFree(xs[0].members) {
        var p := RuleListPass(stod, s, i, acc);
        k := RulesRead(stod, s, p.i, p.value, xs[1..], rest, j);
        RulesJoin(acc, xs);
      }
    }
  }

  /** The members of a file: lists of rules, and others, with a string or with a number. */
  datatype Part = Rules(items: seq<RuleItem>) | Ignored(k: string, v: string) | IgnoredNumber(k: string, number: string)

  datatype FileMember = FileMember(part: Part, comma: bool)

  function PartTokens(p: Part): seq<Token> {
    match p
    case Rules(xs) => Named("rules") + ([Mark('[')] + (RulesTokens(xs) + [Mark(']')]))
    case Ignored(k, v) => Named(k) + [Quote(v)]
    case IgnoredNumber(k, n) => Named(k) + [Numeral(n)]
  }

  predicate PartOk(p: Part) {
    match p
    case Rules(xs) => ItemsOk(xs)
    case Ignored(k, _) => k != "rules"
    case IgnoredNumber(k, _) => k != "rules"
  }

  predicate PartNumberFree(p: Part) {
    match p
    case Rules(xs) => ItemsNumberFree(xs)
    case Ignored(_, _) => true
    case IgnoredNumber(_, _) => false
  }

  function RulesOfPart(p: Part): seq<Rule> {
    if p.Rules? then RulesOf(p.items) else []
  }

  type File = seq<FileMember>

  function PartsTokens(f: File): seq<Token> {
    if f == [] then [] else PartTokens(f[0].part) + Sep(f[0].comma) + PartsTokens(f[1..])
  }

  function FileTokens(f: File): seq<Token> { [Mark('{')] + Closed(PartsTokens(f)) }

  predicate FileOk(f: File) {
    forall x :: x in f ==> PartOk(x.part)
  }

  predicate FileNumberFree(f: File) {
    forall x :: x in f ==> PartNumberFree(x.part)
  }

  function AllRules(f: File): seq<Rule> {
    if f == [] then [] else RulesOfPart(f[0].part) + AllRules(f[1..])
  }

  lemma StuckTop(stod: Stod, s: string, i: nat, acc: seq<Rule>)
    requires Stuck(s, i)
    ensures !ReadTop(stod, s, i, acc).Ok?
  {
    hide Stuck, SkipWs, Comma, MemberName, ParseString, Match;
    StuckStops(s, i);
  }

  lemma RulesPart(stod: Stod, s: string, i: nat, acc: seq<Rule>, xs: seq<RuleItem>, comma: bool, rest: seq<Token>, j: nat)
    requires ItemsOk(xs) && rest != [] && rest[0] != Mark(',')
    requires Spells(s, i, Named("rules") + ([Mark('[')] + (RulesTokens(xs) + ([Mark(']')] + (Sep(comma) + rest)))), j)
    ensures i <= |s|
    ensures var p := TopPass(stod, s, i, acc);
      if ItemsNumberFree(xs) then p.On? && p.value == acc + RulesOf(xs) && Spells(s, p.i, rest, j) else p.Stop? || p.Thrown?
  {
    hide Spells, RulesTokens, ItemsOk, ItemsNumberFree, RulesOf, ReadRules, Match, SkipWs, Past, Comma, ParseString, SkipValue;
    var ts := RulesTokens(xs) + ([Mark(']')] + (Sep(comma) + rest));
    var at := NameRead(s, i, "rules", [Mark('[')] + ts, j);
    var b := MarkRead(s, at, '[', ts, j);
    var k := RulesRead(stod, s, b, acc, xs, Sep(comma) + rest, j);
    if ItemsNumberFree(xs) { CommaRead(s, k, comma, rest, j); }
  }

  lemma IgnoredPart(stod: Stod, s: string, i: nat, acc: seq<Rule>, k: string, v: string, comma: bool, rest: seq<Token>, j: nat)
    requires k != "rules" && rest != [] && rest[0] != Mark(',')
    requires Spells(s, i, Named(k) + ([Quote(v)] + (Sep(comma) + rest)), j)
    ensures i <= |s|
    ensures var p := TopPass(stod, s, i, acc); p.On? && p.value == acc && Spells(s, p.i, rest, j)
  {
    hide Spells, ReadRules, Match, SkipWs, Past, Comma, ParseString, ParseNumber;
    var at := NameRead(s, i, k, [Quote(v)] + (Sep(comma) + rest), j);
    var e := QuoteRead(s, at, v, Sep(comma) + rest, j);
    CommaRead(s, e, comma, rest, j);
  }

  lemma NumberPart(stod: Stod, s: string, i: nat, acc: seq<Rule>, k: string, n: string, rest: seq<Token>, j: nat)
    requires k != "rules" && Spells(s, i, Named(k) + ([Numeral(n)] + rest), j)
    ensures i <= |s| && !ReadTop(stod, s, i, acc).Ok?
  {
    hide Spells, ReadRules, Match, SkipWs, Past, Comma, ParseString, ParseNumber, Stuck;
    var at := NameRead(s, i, k, [Numeral(n)] + rest, j);
    NumeralRead(stod, s, at, n, rest, j);
    StuckStops(s, Past(s, at));
    StuckTop(stod, s, Past(s, at), acc);
  }

  lemma PartRead(stod: Stod, s: string, i: nat, acc: seq<Rule>, x: FileMember, rest: seq<Token>, j: nat)
    requires PartOk(x.part) && rest != [] && rest[0] != Mark(',')
    requires Spells(s, i, PartTokens(x.part) + (Sep(x.comma) + rest), j)
    ensures i <= |s|
    ensures if PartNumberFree(x.part)
      then var p := TopPass(stod, s, i, acc); p.On? && p.value == acc + RulesOfPart(x.part) && Spells(s, p.i, rest, j)
      else !ReadTop(stod, s, i, acc).Ok?
  {
    hide Spells, RulesTokens, ItemsOk, ItemsNumberFree, RulesOf, TopPass;
    var sep := Sep(x.comma) + rest;
    match x.part
    case Rules(xs) =>
      assert PartTokens(x.part) + sep == Named("rules") + ([Mark('[')] + (RulesTokens(xs) + ([Mark(']')] + sep)));
      RulesPart(stod, s, i, acc, xs, x.comma, rest, j);
    case Ignored(k, v) =>
      assert PartTokens(x.part) + sep == Named(k) + ([Quote(v)] + sep);
      IgnoredPart(stod, s, i, acc, k, v, x.comma, rest, j);
      assert acc + [] == acc;
    case IgnoredNumber(k, n) =>
      assert PartTokens(x.part) + sep == Named(k) + ([Numeral(n)] + sep);
      NumberPart(stod, s, i, acc, k, n, sep, j);
  }

  lemma PartsBegin(f: File, rest: seq<Token>)
    requires rest != [] && rest[0] != Mark(',')
    ensures PartsTokens(f) + rest != [] && (PartsTokens(f) + rest)[0] != Mark(',')
  {
    if f != [] {
      var t := PartTokens(f[0].part);
      assert |t| > 0 && t[0].Quote?;
      assert (PartsTokens(f) + rest)[0] == t[0];
    }
  }

  lemma NothingSpelled(s: string, i: nat, j: nat)
    requires Spells(s, i, [], j)
    ensures i == j
  {
  }

  lemma TopClosed(stod: Stod, s: string, i: nat, acc: seq<Rule>, j: nat)
    requires Spells(s, i, [Mark('}')], j)
    ensures i <= |s| && ReadTop(stod, s, i, acc) == Ok(acc, j)
  {
    hide Spells, Match, SkipWs, Past, ParseString;
    assert [Mark('}')] + [] == [Mark('}')];
    var k := MarkRead(s, i, '}', [], j);
    NothingSpelled(s, k, j);
  }

  lemma {:induction false} PartsRead(stod: Stod, s: string, i: nat, acc: seq<Rule>, f: File, j: nat)
    requires FileOk(f) && Spells(s, i, PartsTokens(f) + [Mark('}')], j)
    ensures i <= |s|
    ensures if FileNumberFree(f) then ReadTop(stod, s, i, acc) == Ok(acc + AllRules(f), j)
      else !ReadTop(stod, s, i, acc).Ok?
    decreases |f|
  {
    hide Spells, TopPass, PartTokens, PartOk, PartNumberFree, RulesOfPart;
    var closing := [Mark('}')];
    if f == [] {
      assert PartsTokens(f) + closing == closing;
      TopClosed(stod, s, i, acc, j);
      assert acc + AllRules(f) == acc;
    } else {
      var rest := PartsTokens(f[1..]) + closing;
      assert PartsTokens(f) + closing == PartTokens(f[0].part) + (Sep(f[0].comma) + rest);
      PartsBegin(f[1..], closing);
      assert f[0] in f && forall x :: x in f <==> x == f[0] || x in f[1..];
      PartRead(stod, s, i, acc, f[0], rest, j);
      if PartNumberFree(f[0].part) {
        var p := TopPass(stod, s, i, acc);
        PartsRead(stod, s, p.i, p.value, f[1..], j);
        assert acc + RulesOfPart(f[0].part) + AllRules(f[1..]) == acc + AllRules(f);
      }
    }
  }

  /** Loading a file, whatever its white space, commas and escapes, the order of its members and the members that the loader
    does not know: it gives the rules that the file spells if there is no number in it, and fails otherwise. What stands
    behind the closing brace does not matter. */
  lemma FileLoads(stod: Stod, s: string, f: File, j: nat)
    requires FileOk(f) && Spells(s, 0, FileTokens(f), j)
    ensures if FileNumberFree(f) then Load(stod, s) == Ok(AllRules(f), j) else !Load(stod, s).Ok?
  {
    hide Spells, PartsTokens, ReadTop, Match, FileOk, FileNumberFree, AllRules;
    assert FileTokens(f) == [Mark('{')] + (PartsTokens(f) + [Mark('}')]);
    var b := MarkRead(s, 0, '{', PartsTokens(f) + [Mark('}')], j);
    PartsRead(stod, s, b, [], f, j);
    assert [] + AllRules(f) == AllRules(f);
  }

  // --------------------------------------------------------------- numbers

  const NUMERALS: set<char> := {'0', '1', '2', '3', '4', '5', '6', '7', '8', '9', '.', '-', '+'}

  lemma NumeralCharacters(c: char)
    ensures IsNumeral(c) <==> c in NUMERALS
  {
  }

  lemma {:induction false} NumeralEnds(s: string, i: nat, text: string)
    requires At(s, i, text) && (forall c :: c in text ==> c in NUMERALS)
    requires i + |text| < |s| ==> s[i + |text|] !in NUMERALS
    ensures i <= |s| && NumeralEnd(s, i) == i + |text|
    decreases |text|
  {
    if i < |s| { NumeralCharacters(s[i]); }
    if text != "" {
      assert s[i..i + |text|][0] == s[i] == text[0] && text[0] in text;
      assert s[i + 1..i + 1 + |text[1..]|] == s[i..i + |text|][1..] == text[1..];
      assert forall c :: c in text[1..] ==> c in text;
      NumeralEnds(s, i + 1, text[1..]);
    }
  }

  /** The number parser takes all the characters that can belong to a number, and leaves the index in front of them. */
  lemma NumberValue(stod: Stod, s: string, i: nat, text: string)
    requires i <= |s| && text != "" && At(s, Past(s, i), text) && (forall c :: c in text ==> c in NUMERALS)
    requires Past(s, i) + |text| < |s| ==> s[Past(s, i) + |text|] !in NUMERALS
    ensures ParseNumber(stod, s, i) == if stod(text).None? then Throws else Ok(stod(text).value, Past(s, i))
  {
    hide NumeralEnd, SkipWs, Past, NUMERALS;
    SkipIsPast(s, i);
    NumeralEnds(s, Past(s, i), text);
    assert s[Past(s, i)..Past(s, i) + |text|] == text;
  }

  // ---------------------------------------------------------------- errors

  /** The next character behind white space. */
  predicate Next(s: string, i: nat, c: char) {
    i <= |s| && Past(s, i) < |s| && s[Past(s, i)] == c
  }

  /** What is refused at the top of a file: anything but an object, a member without a name, a name without a colon, and
    rules that are not a list. */
  lemma TopErrors(stod: Stod, s: string, i: nat, acc: seq<Rule>, at: nat)
    requires i <= |s|
    ensures !Next(s, 0, '{') ==> Load(stod, s) == Fail("expected {")
    ensures !Next(s, i, '}') && !Next(s, i, '"') ==> ReadTop(stod, s, i, acc) == Fail("bad key")
    ensures Next(s, i, '"') ==>
      var (_, k, e) := ParseString(s, Past(s, i));
      && (!Next(s, e, ':') ==> ReadTop(stod, s, i, acc) == Fail("expected :"))
      && (Next(s, e, ':') && k == "rules" && !Next(s, Past(s, e) + 1, '[') ==>
          ReadTop(stod, s, i, acc) == Fail("rules must be array"))
  {
    hide ReadRules, StringBody, SkipValue, SkipWs;
    MatchMeans(s, 0, '{');
    SkipIsPast(s, i);
    PastTwice(s, i);
    SkipIsPast(s, Past(s, i));
    var (_, k, e) := ParseString(s, Past(s, i));
    MatchMeans(s, e, ':');
    if Next(s, e, ':') { MatchMeans(s, Past(s, e) + 1, '['); }
  }

  lemma RuleWithoutColon(stod: Stod, s: string, i: nat, r: Rule)
    requires i <= |s| && SkipWs(s, i) == Past(s, i)
    ensures var e := ParseString(s, Past(s, i)).2;
      !Next(s, i, '}') && !Match(s, e, ':').0 ==> ReadRule(stod, s, i, r) == Fail("expected :")
  {
    hide Match, ParseString, RuleValue, SkipWs, Past;
  }

  /** What is refused in a list of rules, in a rule, and in a list of conditions. */
  lemma ListErrors(stod: Stod, s: string, i: nat, acc: seq<Rule>, r: Rule, out: seq<Condition>)
    requires i <= |s|
    ensures !Next(s, i, ']') && !Next(s, i, '{') ==> ReadRules(stod, s, i, acc) == Fail("expected { in rule")
    ensures !Next(s, i, ']') && !Next(s, i, '{') ==> ReadConditions(stod, s, i, out) == Fail("expected { in condition")
    ensures !Next(s, i, '}') ==>
      !Next(s, ParseString(s, Past(s, i)).2, ':') ==> ReadRule(stod, s, i, r) == Fail("expected :")
  {
    hide ReadRule, ReadMembers, StringBody, SkipWs, RuleValue;
    SkipIsPast(s, i);
    PastTwice(s, i);
    SkipIsPast(s, Past(s, i));
    MatchMeans(s, Past(s, i), '{');
    MatchMeans(s, ParseString(s, Past(s, i)).2, ':');
    RuleWithoutColon(stod, s, i, r);
  }

  /** What is refused as the value of a member of a rule. */
  lemma ValueErrors(stod: Stod, s: string, at: nat, r: Rule)
    requires at <= |s|
    ensures !Next(s, at, '[') ==> RuleValue(stod, s, at, "when", r) == Fail("expected [")
    ensures !Next(s, at, '{') ==> RuleValue(stod, s, at, "count", r) == Fail("count must be object")
    ensures !Next(s, at, '{') ==> RuleValue(stod, s, at, "sum_bytes", r) == Fail("sum_bytes must be object")
    ensures !Next(s, at, '{') ==> RuleValue(stod, s, at, "emit", r) == Fail("emit must be object")
  {
    hide ReadConditions, ReadMembers, ParseString, SkipValue, ParseNumber, Match;
    MatchMeans(s, at, '[');
    MatchMeans(s, at, '{');
  }

  /** A character that begins no string and no number, and that is none of those that the loops look for. */
  predicate StrayNext(s: string, i: nat) {
    i <= |s| && Past(s, i) < |s| && s[Past(s, i)] !in NUMERALS + {'"', ':', ',', '}'}
  }

  lemma PastStays(s: string, i: nat)
    requires i <= |s|
    ensures SkipWs(s, Past(s, i)) == Past(s, i)
  {
    PastTwice(s, i);
    SkipIsPast(s, Past(s, i));
  }

  lemma StrayStops(stod: Stod, s: string, i: nat, r: Rule, acc: seq<Rule>)
    requires i < |s| && SkipWs(s, i) == i && s[i] !in {'"', ':', ',', '}'}
    ensures Comma(s, i) == i && !ReadRule(stod, s, i, r).Ok? && !ReadTop(stod, s, i, acc).Ok?
  {
    hide SkipWs, StringBody, RuleValue, ReadRules;
  }

  /** The loops do not get past such a character where a value should stand: a word like `true`, a list or an object as the
    value of a member that the loader does not know makes loading fail. */
  lemma StrayValueRefused(stod: Stod, s: string, at: nat, k: string, r: Rule, acc: seq<Rule>)
    requires StrayNext(s, at) && k !in MEMBER_NAMES
    ensures var v := RuleValue(stod, s, at, k, r);
      v == Ok(r, Past(s, at)) && !ReadRule(stod, s, Comma(s, v.i), r).Ok?
    ensures SkipValue(stod, s, at) == Ok(0, Past(s, at)) && !ReadTop(stod, s, Comma(s, Past(s, at)), acc).Ok?
  {
    hide ReadConditions, ReadObject, ReadRules, StringBody, SkipWs, Past, ReadRule, ReadTop;
    SkipIsPast(s, at);
    NumeralCharacters(s[Past(s, at)]);
    StrayStops(stod, s, Past(s, at), r, acc);
    PastStays(s, at);
  }

  lemma OneMemberPass(stod: Stod, strKeys: set<string>, numKeys: set<string>, s: string, i: nat, m: Members)
    requires i <= |s|
    ensures var p := MemberPass(stod, strKeys, numKeys, s, i, m);
      p.On? ==> ReadMembers(stod, strKeys, numKeys, s, i, m) == ReadMembers(stod, strKeys, numKeys, s, p.i, p.value)
  {
    hide MemberPass;
  }

  lemma NotAMark(s: string, i: nat, c: char, ts: seq<Token>, j: nat)
    requires Spells(s, i, ts, j) && ts != [] && ts[0] != Mark(c) && c in {':', ','}
    ensures i <= |s| && Past(s, i) < |s| && s[Past(s, i)] != c
  {
    hide Past, BodyEnd;
    match ts[0]
    case Mark(_) =>
    case Quote(_) =>
    case Numeral(text) => AtChar(s, Past(s, i), text, 0);
  }

  lemma LoneQuoteRefused(stod: Stod, strKeys: set<string>, numKeys: set<string>, s: string, i: nat, m: Members, v: string,
                         rest: seq<Token>, j: nat)
    requires rest != [] && rest[0] != Mark(':') && Spells(s, i, [Quote(v)] + rest, j)
    ensures i <= |s| && !ReadMembers(stod, strKeys, numKeys, s, i, m).Ok?
  {
    hide Spells, ParseString, Match, SkipWs, Past;
    var e := QuoteRead(s, i, v, rest, j);
    FromPast(s, i, [Quote(v)] + rest, j);
    PastTwice(s, i);
    e := QuoteRead(s, Past(s, i), v, rest, j);
    NotAMark(s, e, ':', rest, j);
    MatchMeans(s, e, ':');
  }

  /** A member with a string value that an object is not known to have makes loading fail: the value is taken for a name. */
  lemma UnknownPairRefused(stod: Stod, strKeys: set<string>, numKeys: set<string>, s: string, i: nat, m: Members, p: Pair,
                           rest: seq<Token>, j: nat)
    requires p.key !in strKeys && p.key !in numKeys && rest != [] && rest[0] != Mark(':')
    requires Spells(s, i, Named(p.key) + ([Quote(p.value)] + rest), j)
    ensures i <= |s| && !ReadMembers(stod, strKeys, numKeys, s, i, m).Ok?
  {
    hide Spells, ParseString, Match, Comma, MemberName, SkipWs, Past, ReadMembers;
    var values := [Quote(p.value)] + rest;
    var at := NameRead(s, i, p.key, values, j);
    assert Sep(false) + values == values;
    CommaRead(s, at, false, values, j);
    OneMemberPass(stod, strKeys, numKeys, s, i, m);
    LoneQuoteRefused(stod, strKeys, numKeys, s, Comma(s, at), m, p.value, rest, j);
  }

  // ------------------------------------------------ files for lists of rules

  function OperatorName(op: CmpOp): string {
    match op
    case EQ => "eq"
    case NE => "ne"
    case GE => ">="
    case GT => ">"
    case LE => "<="
    case LT => "<"
    case REGEX => "regex"
  }

  function ClauseOf(c: Condition, comma: bool): Clause {
    Clause([Pair("field", c.field, true), Pair("op", OperatorName(c.op), true), Pair("value", c.value, false)], comma)
  }

  /** With a comma behind each but the last. */
  function ClausesOf(cs: seq<Condition>): seq<Clause> {
    if cs == [] then [] else [ClauseOf(cs[0], |cs| > 1)] + ClausesOf(cs[1..])
  }

  /** The object of a threshold. */
  function Threshold(n: int): (seq<Pair>, string, seq<Token>) {
    ([Pair("op", ">=", true)], ToString(n), [Mark('}')])
  }

  /** The numbers that differ from those of a new rule. */
  function NumbersOf(r: Rule): RuleTree {
    (if r.withinSec == 60 then [] else [RuleMember(Within(ToString(r.withinSec)), true)])
    + (if r.countGe == 0 then []
       else var (ops, n, behind) := Threshold(r.countGe); [RuleMember(CountNumber(ops, n, behind), true)])
    + (if r.sumBytesGe == 0 then []
       else var (ops, n, behind) := Threshold(r.sumBytesGe); [RuleMember(SumBytesNumber(ops, n, behind), true)])
  }

  function TreeOf(r: Rule): RuleTree {
    [RuleMember(Name(r.name), true), RuleMember(When(ClausesOf(r.conditions)), true), RuleMember(GroupBy(r.groupBy), true)]
    + (NumbersOf(r)
       + [RuleMember(Emit([Pair("type", r.emitType, true), Pair("details", r.emitDetails, false)]), false)])
  }

  function ItemsOf(rules: seq<Rule>): seq<RuleItem> {
    if rules == [] then [] else [RuleItem(TreeOf(rules[0]), |rules| > 1)] + ItemsOf(rules[1..])
  }

  function FileOf(rules: seq<Rule>): File {
    [FileMember(Rules(ItemsOf(rules)), false)]
  }

  /** A rule without a span of its own and without thresholds. */
  predicate Plain(r: Rule) {
    r.withinSec == 60 && r.countGe == 0 && r.sumBytesGe == 0
  }

  predicate AllPlain(rules: seq<Rule>) {
    forall r :: r in rules ==> Plain(r)
  }

  lemma ClauseIsCondition(c: Condition, comma: bool)
    ensures KeysIn(ClauseOf(c, comma).members, CLAUSE_KEYS) && ConditionOf(ClauseOf(c, comma)) == c
  {
    var ps := ClauseOf(c, comma).members;
    var m1 := NOTHING.(strs := NOTHING.strs["field" := c.field]);
    var m2 := m1.(strs := m1.strs["op" := OperatorName(c.op)]);
    var m3 := m2.(strs := m2.strs["value" := c.value]);
    var ps1, ps2 := ps[1..], ps[1..][1..];
    assert WithAll(NOTHING, ps) == WithAll(m1, ps1) == WithAll(m2, ps2) == WithAll(m3, ps2[1..]) == m3;
  }

  lemma {:induction false} ClausesAreConditions(cs: seq<Condition>)
    ensures ClausesOk(ClausesOf(cs)) && ConditionsOf(ClausesOf(cs)) == cs
  {
    hide ClauseOf, ConditionOf, KeysIn;
    if cs != [] {
      ClauseIsCondition(cs[0], |cs| > 1);
      ClausesAreConditions(cs[1..]);
      var all := ClausesOf(cs);
      assert all[0] == ClauseOf(cs[0], |cs| > 1) && all[1..] == ClausesOf(cs[1..]);
      assert cs == [cs[0]] + cs[1..];
    }
  }

  lemma EmitIsEmit(r: Rule, q: Rule)
    ensures var m := Emit([Pair("type", q.emitType, true), Pair("details", q.emitDetails, false)]);
      MemberOk(m) && Applied(r, m) == r.(emitType := q.emitType, emitDetails := q.emitDetails)
  {
    var ps := [Pair("type", q.emitType, true), Pair("details", q.emitDetails, false)];
    var m1 := NOTHING.(strs := NOTHING.strs["type" := q.emitType]);
    var m2 := m1.(strs := m1.strs["details" := q.emitDetails]);
    var ps1 := ps[1..];
    assert WithAll(NOTHING, ps) == WithAll(m1, ps1) == WithAll(m2, ps1[1..]) == m2;
  }

  lemma NumbersAreNumbers(r: Rule)
    ensures forall x :: x in NumbersOf(r) ==> MemberOk(x.m) && HasNumber(x.m)
    ensures Plain(r) <==> NumbersOf(r) == []
  {
  }

  lemma FrontIsOk(r: Rule)
    ensures MemberOk(Name(r.name)) && MemberOk(When(ClausesOf(r.conditions))) && MemberOk(GroupBy(r.groupBy))
    ensures !HasNumber(Name(r.name)) && !HasNumber(When(ClausesOf(r.conditions))) && !HasNumber(GroupBy(r.groupBy))
    ensures forall ps :: !HasNumber(Emit(ps))
  {
    hide ClausesOf, ClausesOk;
    ClausesAreConditions(r.conditions);
  }

  lemma TreeParts(r: Rule)
    ensures TreeOk(TreeOf(r)) && (NumberFree(TreeOf(r)) <==> Plain(r))
  {
    hide NumbersOf, ClausesOf, ClausesOk, KeysIn, MemberOk, HasNumber, Plain;
    var front := [RuleMember(Name(r.name), true), RuleMember(When(ClausesOf(r.conditions)), true),
      RuleMember(GroupBy(r.groupBy), true)];
    var emit := Emit([Pair("type", r.emitType, true), Pair("details", r.emitDetails, false)]);
    FrontIsOk(r);
    EmitIsEmit(r, r);
    NumbersAreNumbers(r);
    forall x ensures x in TreeOf(r) <==> x in front || x in NumbersOf(r) || x == RuleMember(emit, false) { }
    assert NumbersOf(r) != [] ==> NumbersOf(r)[0] in TreeOf(r);
  }

  lemma TreeIsRule(r: Rule)
    requires Plain(r)
    ensures AllApplied(EMPTY_RULE, TreeOf(r)) == r
  {
    hide ClausesOf, ConditionsOf;
    ClausesAreConditions(r.conditions);
    var xs := TreeOf(r);
    var r1 := EMPTY_RULE.(name := r.name);
    var r2 := r1.(conditions := r.conditions);
    var r3 := r2.(groupBy := r.groupBy);
    assert r1.conditions + r.conditions == r.conditions;
    EmitIsEmit(r3, r);
    var xs1, xs2 := xs[1..], xs[1..][1..];
    var xs3 := xs2[1..];
    assert AllApplied(EMPTY_RULE, xs) == AllApplied(r1, xs1) == AllApplied(r2, xs2) == AllApplied(r3, xs3);
    var emit := Emit([Pair("type", r.emitType, true), Pair("details", r.emitDetails, false)]);
    assert xs3 == [RuleMember(emit, false)];
    var none := xs3[1..];
    assert none == [];
    hide Applied;
    assert AllApplied(r3, xs3) == AllApplied(Applied(r3, emit), none) == Applied(r3, emit);
  }

  lemma NothingOk()
    ensures ItemsOk([]) && ItemsNumberFree([])
  {
  }

  lemma {:induction false} ItemsAreRules(rules: seq<Rule>)
    ensures ItemsOk(ItemsOf(rules)) && (ItemsNumberFree(ItemsOf(rules)) <==> AllPlain(rules))
    ensures AllPlain(rules) ==> RulesOf(ItemsOf(rules)) == rules
  {
    hide TreeOf, TreeOk, NumberFree, AllApplied, Plain, ItemsOk, ItemsNumberFree;
    if rules == [] {
      NothingOk();
    } else {
      var all := ItemsOf(rules);
      assert all[0] == RuleItem(TreeOf(rules[0]), |rules| > 1) && all[1..] == ItemsOf(rules[1..]);
      TreeParts(rules[0]);
      if Plain(rules[0]) { TreeIsRule(rules[0]); }
      ItemsAreRules(rules[1..]);
      FirstOfItems(all);
      assert rules == [rules[0]] + rules[1..];
    }
  }

  /** Loading the file of a rule list, with any white space and escapes, gives the list if and only if no rule has a span
    of its own or a threshold; otherwise loading fails. */
  lemma RulesRoundTrip(stod: Stod, rules: seq<Rule>, s: string, j: nat)
    requires Spells(s, 0, FileTokens(FileOf(rules)), j)
    ensures AllPlain(rules) <==> Load(stod, s) == Ok(rules, j)
    ensures !AllPlain(rules) ==> !Load(stod, s).Ok?
  {
    hide Spells, FileTokens, ItemsOf, ItemsOk, ItemsNumberFree, RulesOf, AllPlain;
    var f := FileOf(rules);
    ItemsAreRules(rules);
    assert f[0] in f && f[1..] == [];
    assert AllRules(f) == RulesOf(ItemsOf(rules)) + AllRules([]) == RulesOf(ItemsOf(rules));
    FileLoads(stod, s, f, j);
  }

  // ----------------------------------------------- such a text for any gaps

  lemma AtWhole(s: string)
    ensures At(s, 0, s)
  {
  }

  predicate AllTokens(ts: seq<Token>) {
    forall t :: t in ts ==> IsToken(t)
  }

  lemma TokensJoin(a: seq<Token>, b: seq<Token>)
    ensures AllTokens(a + b) <==> AllTokens(a) && AllTokens(b)
  {
    hide IsToken;
    assert forall t :: t in a + b <==> t in a || t in b;
  }

  lemma {:induction false} PairsAreTokens(ps: seq<Pair>)
    ensures AllTokens(PairsTokens(ps))
  {
    if ps != [] {
      var front := Named(ps[0].key) + [Quote(ps[0].value)] + Sep(ps[0].comma);
      PairsAreTokens(ps[1..]);
      TokensJoin(front, PairsTokens(ps[1..]));
    }
  }

  lemma ObjectsAreTokens(ps: seq<Pair>)
    ensures AllTokens(ObjectTokens(ps))
  {
    PairsAreTokens(ps);
    TokensJoin(PairsTokens(ps), [Mark('}')]);
    TokensJoin([Mark('{')], Closed(PairsTokens(ps)));
  }

  lemma {:induction false} ClausesAreTokens(cs: seq<Clause>)
    ensures AllTokens(ClausesTokens(cs))
  {
    hide ObjectTokens;
    if cs != [] {
      ObjectsAreTokens(cs[0].members);
      ClausesAreTokens(cs[1..]);
      TokensJoin(ObjectTokens(cs[0].members), Sep(cs[0].comma));
      TokensJoin(ObjectTokens(cs[0].members) + Sep(cs[0].comma), ClausesTokens(cs[1..]));
    }
  }

  lemma NumberIsToken(n: int)
    ensures IsToken(Numeral(ToString(n)))
  {
    var c := ToString(n)[0];
    assert n >= 0 ==> c == Digits(n)[0];
  }

  lemma NumberObjectsAreTokens(ops: seq<Pair>, n: int)
    ensures AllTokens(NumberObject(ops, ToString(n), [Mark('}')]))
  {
    hide ToString;
    NumberIsToken(n);
    PairsAreTokens(ops);
    var tail := Named("value") + ([Numeral(ToString(n))] + [Mark('}')]);
    TokensJoin(PairsTokens(ops), tail);
    TokensJoin([Mark('{')], PairsTokens(ops) + tail);
  }

  /** The numbers of the member, if any, are printed integers. */
  predicate Printed(m: Member) {
    match m
    case Within(n) => IsToken(Numeral(n))
    case CountNumber(ops, n, behind) => AllTokens(NumberObject(ops, n, behind))
    case SumBytesNumber(ops, n, behind) => AllTokens(NumberObject(ops, n, behind))
    case OtherNumber(_, n) => IsToken(Numeral(n))
    case _ => true
  }

  lemma MarksAreTokens()
    ensures AllTokens([Mark('[')]) && AllTokens([Mark(']')]) && AllTokens([Mark('{')]) && AllTokens([Mark('}')])
  {
  }

  lemma QuotesAreTokens(v: string)
    ensures AllTokens([Quote(v)])
  {
  }

  lemma ValuesAreTokens(m: Member)
    requires Printed(m)
    ensures AllTokens(ValueTokens(m))
  {
    hide ObjectTokens, NumberObject, ClausesTokens, IsToken;
    match m
    case When(cs) =>
      ClausesAreTokens(cs);
      TokensJoin(ClausesTokens(cs), [Mark(']')]);
      TokensJoin([Mark('[')], ClausesTokens(cs) + [Mark(']')]);
      MarksAreTokens();
    case Count(ops) => ObjectsAreTokens(ops);
    case SumBytes(ops) => ObjectsAreTokens(ops);
    case Emit(ps) => ObjectsAreTokens(ps);
    case CountNumber(_, _, _) =>
    case SumBytesNumber(_, _, _) =>
    case Within(_) =>
    case OtherNumber(_, _) =>
    case Name(v) => QuotesAreTokens(v);
    case GroupBy(v) => QuotesAreTokens(v);
    case Other(_, v) => QuotesAreTokens(v);
  }

  lemma {:induction false} MembersAreTokens(xs: RuleTree)
    requires forall x :: x in xs ==> Printed(x.m)
    ensures AllTokens(MembersTokens(xs))
  {
    hide ValueTokens, NameOf, Printed;
    if xs != [] {
      var x := xs[0];
      assert forall y :: y in xs[1..] ==> y in xs;
      ValuesAreTokens(x.m);
      MembersAreTokens(xs[1..]);
      TokensJoin(ValueTokens(x.m), Sep(x.comma));
      TokensJoin(Named(NameOf(x.m)), ValueTokens(x.m) + Sep(x.comma));
      TokensJoin(RuleMemberTokens(x), MembersTokens(xs[1..]));
    }
  }

  lemma TreesArePrinted(r: Rule)
    ensures forall x :: x in TreeOf(r) ==> Printed(x.m)
  {
    hide ClausesOf, NumberObject, ToString, AllTokens;
    NumberIsToken(r.withinSec);
    NumberObjectsAreTokens([Pair("op", ">=", true)], r.countGe);
    NumberObjectsAreTokens([Pair("op", ">=", true)], r.sumBytesGe);
  }

  lemma {:induction false} RulesAreTokens(rules: seq<Rule>)
    ensures AllTokens(RulesTokens(ItemsOf(rules)))
  {
    hide TreeOf, MembersTokens, Printed;
    if rules != [] {
      var xs := ItemsOf(rules);
      assert xs[0] == RuleItem(TreeOf(rules[0]), |rules| > 1) && xs[1..] == ItemsOf(rules[1..]);
      var body := MembersTokens(TreeOf(rules[0]));
      TreesArePrinted(rules[0]);
      MembersAreTokens(TreeOf(rules[0]));
      RulesAreTokens(rules[1..]);
      MarksAreTokens();
      TokensJoin(body, [Mark('}')]);
      TokensJoin([Mark('{')], Closed(body));
      TokensJoin([Mark('{')] + Closed(body), Sep(xs[0].comma));
      TokensJoin([Mark('{')] + Closed(body) + Sep(xs[0].comma), RulesTokens(xs[1..]));
    }
  }

  lemma FilesAreTokens(rules: seq<Rule>)
    ensures AllTokens(FileTokens(FileOf(rules)))
  {
    hide RulesTokens, ItemsOf;
    var f, xs := FileOf(rules), ItemsOf(rules);
    var list := [Mark('[')] + (RulesTokens(xs) + [Mark(']')]);
    RulesAreTokens(rules);
    MarksAreTokens();
    TokensJoin(RulesTokens(xs), [Mark(']')]);
    TokensJoin([Mark('[')], RulesTokens(xs) + [Mark(']')]);
    TokensJoin(Named("rules"), list);
    assert f[1..] == [];
    assert PartsTokens(f) == Named("rules") + list;
    TokensJoin(PartsTokens(f), [Mark('}')]);
    TokensJoin([Mark('{')], Closed(PartsTokens(f)));
  }

  /** For any gaps of white space, one in front of each token, there is such a text. */
  lemma RulesWritten(stod: Stod, rules: seq<Rule>, gaps: seq<string>)
    requires |gaps| == |FileTokens(FileOf(rules))| && forall g :: g in gaps ==> IsGap(g)
    ensures var s := Written(FileTokens(FileOf(rules)), gaps);
      AllPlain(rules) <==> Load(stod, s) == Ok(rules, |s|)
  {
    hide FileTokens, FileOf, IsGap, IsToken, AllPlain;
    var s := Written(FileTokens(FileOf(rules)), gaps);
    FilesAreTokens(rules);
    AtWhole(s);
    WrittenSpells(s, 0, FileTokens(FileOf(rules)), gaps);
    RulesRoundTrip(stod, rules, s, |s|);
  }
}
