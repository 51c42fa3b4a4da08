/** The NDJSON reader of the current version: it does not parse JSON but looks for the first occurrence of a quoted
  key and reads the value behind the next colon. On the canonical line of a record that is enough. */
module Ndjson {
  import opened Common
  import opened Decimal
  import opened Records
  import opened Text

  const MAX: int := 0x7FFF_FFFF_FFFF_FFFF   // of long long

  // ------------------------------------------------------------ searching

  /** std::string::find. */
  function Find(s: string, pat: string, from: nat): (r: Option<nat>)
    requires from <= |s|
    ensures r.Some? ==> from <= r.value <= |s| && At(s, r.value, pat)
    ensures forall j :: from <= j < (if r.Some? then r.value else |s|) ==> !At(s, j, pat)
    decreases |s| - from
  {
    if At(s, from, pat) then Some(from)
    else if from == |s| then None
    else Find(s, pat, from + 1)
  }

  lemma FindIs(s: string, pat: string, from: nat, at: nat)
    requires from <= at <= |s| && At(s, at, pat)
    requires forall j :: from <= j < at ==> !At(s, j, pat)
    ensures Find(s, pat, from) == Some(at)
  {
  }

  // -------------------------------------------------------------- integers

  /** What reading an integer gives. Overflow of the accumulator is undefined in the program. */
  datatype IntResult = NoInt | Int(value: int) | Overflow

  /** The value of the digits from position i on, behind those that gave val. */
  function ReadDigits(s: string, i: nat, val: int): IntResult
    requires i <= |s|
    decreases |s| - i
  {
    if i < |s| && IsDigit(s[i]) then
      var v := val * 10 + (s[i] as int - '0' as int);
      if v > MAX then Overflow else ReadDigits(s, i + 1, v)
    else Int(val)
  }

  function Negated(r: IntResult): IntResult {
    if r.Int? then Int(-r.value) else r
  }

  function IntAt(s: string, start: nat): IntResult
    requires start <= |s|
  {
    var signed := start < |s| && (s[start] == '-' || s[start] == '+');
    var i := if signed then start + 1 else start;
    if i < |s| && IsDigit(s[i]) then
      if signed && s[start] == '-' then Negated(ReadDigits(s, i, 0)) else ReadDigits(s, i, 0)
    else NoInt
  }

  method ParseInt(s: string, start: nat) returns (r: IntResult)
    requires start <= |s|
    ensures r == IntAt(s, start)
  {
    var neg, i := false, start;
    if i < |s| && (s[i] == '-' || s[i] == '+') {
      neg := s[i] == '-';
      i := i + 1;
    }
    ghost var begin := i;
    var val, any := 0, false;
    while i < |s| && IsDigit(s[i])
      invariant begin <= i <= |s| && 0 <= val <= MAX && any == (i > begin)
      invariant any ==> IsDigit(s[begin])
      invariant ReadDigits(s, i, val) == ReadDigits(s, begin, 0)
    {
      any := true;
      if val * 10 + (s[i] as int - '0' as int) > MAX { return Overflow; }
      val := val * 10 + (s[i] as int - '0' as int);
      i := i + 1;
    }
    if !any { return NoInt; }
    r := Int(if neg then -val else val);
  }

  // --------------------------------------------------------------- getters

  /** The text between the next two quotes behind the next colon behind the key. */
  function GetString(s: string, key: string): Option<string> {
    var pos := Find(s, key, 0);
    if pos.None? then None else
    var colon := Find(s, ":", pos.value);
    if colon.None? then None else
    var open := Find(s, "\"", colon.value);
    if open.None? then None else
    var end := Find(s, "\"", open.value + 1);
    if end.None? then None else Some(s[open.value + 1..end.value])
  }

  /** The integer behind the next colon behind the key. */
  function GetInt(s: string, key: string): IntResult {
    var pos := Find(s, key, 0);
    if pos.None? then NoInt else
    var colon := Find(s, ":", pos.value);
    if colon.None? then NoInt else IntAt(s, SkipWs(s, colon.value + 1))
  }

  method GetJsonInt(s: string, key: string) returns (r: IntResult)
    ensures r == GetInt(s, key)
  {
    var found := Find(s, key, 0);
    if found.None? { return NoInt; }
    found := Find(s, ":", found.value);
    if found.None? { return NoInt; }
    var pos := found.value + 1;
    ghost var begin := pos;
    while pos < |s| && IsSpace(s[pos])
      invariant begin <= pos <= |s| && SkipWs(s, pos) == SkipWs(s, begin)
    {
      pos := pos + 1;
    }
    r := ParseInt(s, pos);
  }

  // ---------------------------------------------------------------- a line

  datatype ParseResult = Parsed(rec: LogRecord) | Missing(field: string) | Overflowed

  /** The cast of a long long to a 32-bit int. */
  function ToInt32(v: int): int {
    (v + 0x8000_0000) % 0x1_0000_0000 - 0x8000_0000
  }

  function Quoted(name: string): string { "\"" + name + "\"" }

  function OrElse(s: Option<string>, default: string): string {
    if s.Some? then s.value else default
  }

  /** The checks in the order in which the fields are read. Of the last four fields all but a malformed
    `bytes` have defaults. */
  function Assemble(ts: IntResult, srcIp: Option<string>, dstIp: Option<string>, srcPort: IntResult, dstPort: IntResult,
                    action: Option<string>, status: Option<string>, bytes: IntResult, username: Option<string>)
    : ParseResult
  {
    if ts.Overflow? then Overflowed
    else if ts.NoInt? then Missing("ts")
    else if srcIp.None? then Missing("src_ip")
    else if dstIp.None? then Missing("dst_ip")
    else if srcPort.Overflow? then Overflowed
    else if srcPort.NoInt? then Missing("src_port")
    else if dstPort.Overflow? then Overflowed
    else if dstPort.NoInt? then Missing("dst_port")
    else if bytes.Overflow? then Overflowed
    else
      Parsed(LogRecord(ts.value, srcIp.value, dstIp.value, ToInt32(srcPort.value), ToInt32(dstPort.value),
        OrElse(action, "connect"), OrElse(status, "ok"), if bytes.Int? then bytes.value else 0, OrElse(username, "-")))
  }

  function ParseLine(s: string): ParseResult {
    Assemble(GetInt(s, Quoted("ts")), GetString(s, Quoted("src_ip")), GetString(s, Quoted("dst_ip")),
      GetInt(s, Quoted("src_port")), GetInt(s, Quoted("dst_port")), GetString(s, Quoted("action")),
      GetString(s, Quoted("status")), GetInt(s, Quoted("bytes")), GetString(s, Quoted("username")))
  }

  // ----------------------------------------------------- the canonical line

  datatype Value = Num(n: int) | Str(s: string)
  datatype Field = Field(name: string, value: Value)

  function ValueText(v: Value): string {
    match v
    case Num(n) => ToString(n)
    case Str(s) => Quoted(s)
  }

  function FieldText(f: Field): string {
    Quoted(f.name) + ":" + ValueText(f.value)
  }

  /** The fields, each behind its separator: a brace for the first, commas for the others; then the closing brace. */
  function Tail(fields: seq<Field>): string {
    if fields == [] then "}"
    else FieldText(fields[0]) + (if |fields| == 1 then "" else ",") + Tail(fields[1..])
  }

  function Line(fields: seq<Field>): string { "{" + Tail(fields) }

  function FieldsOf(r: LogRecord): seq<Field> {
    [Field("ts", Num(r.ts)), Field("src_ip", Str(r.srcIp)), Field("dst_ip", Str(r.dstIp)),
     Field("src_port", Num(r.srcPort)), Field("dst_port", Num(r.dstPort)), Field("action", Str(r.action)),
     Field("status", Str(r.status)), Field("bytes", Num(r.bytes)), Field("username", Str(r.username))]
  }

  predicate Without(s: string, c: char) { c !in s }

  /** A name that cannot be mistaken for what stands between a name and a value, or behind a value. */
  predicate CleanName(n: string) {
    Without(n, '"') && Without(n, ':') && Without(n, ',') && n != ""
  }

  predicate CleanValue(v: Value) { v.Str? ==> Without(v.s, '"') }

  ghost predicate Clean(fields: seq<Field>) {
    forall f :: f in fields ==> CleanName(f.name) && CleanValue(f.value)
  }

  // ------------------------------------------- where a quoted name can occur

  /** Between two consecutive quotes stands the name, or the quoted name does not occur at the first one. */
  lemma BetweenQuotes(a: string, c: string, d: string, name: string)
    requires Without(c, '"') && Without(name, '"')
    ensures At(a + Quoted(c) + d, |a|, Quoted(name)) <==> c == name
  {
    var s, q := a + Quoted(c) + d, Quoted(name);
    assert s[|a| + 1..|a| + 1 + |c|] == c && s[|a| + 1 + |c|] == '"';
    if |a| + |q| <= |s| {
      var sub := s[|a|..|a| + |q|];
      if |name| < |c| {
        assert sub[|name| + 1] == c[|name|] && q[|name| + 1] == '"';
      } else if |name| > |c| {
        assert sub[|c| + 1] == '"' && q[|c| + 1] == name[|c|];
      } else {
        assert sub == Quoted(c);
        assert Quoted(c)[1..|c| + 1] == c && q[1..|c| + 1] == name;
      }
    }
  }

  lemma NotAQuote(s: string, name: string, i: nat)
    requires i < |s| && s[i] != '"'
    ensures !At(s, i, Quoted(name))
  {
    assert i + |Quoted(name)| <= |s| ==> s[i..i + |Quoted(name)|][0] == s[i];
  }

  lemma OccursShift(a: string, b: string, pat: string, i: nat)
    ensures At(a + b, |a| + i, pat) <==> At(b, i, pat)
  {
    if |a| + i + |pat| <= |a + b| {
      assert (a + b)[|a| + i..|a| + i + |pat|] == b[i..i + |pat|];
    }
  }

  lemma NumberHasNoQuote(n: int)
    ensures forall j :: 0 <= j < |ToString(n)| ==> ToString(n)[j] == '-' || IsDigit(ToString(n)[j])
  {
  }

  /** Between its quotes a text without quotes has none. */
  lemma QuoteOfQuoted(c: string, rest: string, i: nat)
    requires Without(c, '"') && i < |c| + 2 && (Quoted(c) + rest)[i] == '"'
    ensures i == 0 || i == |c| + 1
  {
    var q := Quoted(c);
    assert (q + rest)[i] == q[i];
    assert forall j :: 0 < j < |c| + 1 ==> q[j] == c[j - 1];
  }

  lemma NoQuoteInNumber(n: int, tail: string, i: nat)
    requires i <= |ToString(n)| && tail != [] && tail[0] != '"'
    ensures (ToString(n) + tail)[i] != '"'
  {
    hide ToString;
    NumberHasNoQuote(n);
  }

  lemma FieldParts(f: Field, tail: string)
    ensures FieldText(f) + tail == Quoted(f.name) + (":" + (ValueText(f.value) + tail))
    ensures |FieldText(f)| == |f.name| + 3 + |ValueText(f.value)|
  {
    hide ValueText;
    var q, v := Quoted(f.name), ValueText(f.value);
    assert q + ":" + v + tail == q + (":" + (v + tail));
  }

  lemma QuotedLength(name: string)
    ensures |Quoted(name)| == |name| + 2
  {
  }

  /** Where the quotes of a field are. */
  lemma QuoteInField(f: Field, tail: string, i: nat)
    requires CleanName(f.name) && CleanValue(f.value) && tail != [] && tail[0] != '"' && i <= |FieldText(f)|
    requires (FieldText(f) + tail)[i] == '"'
    ensures i == 0 || i == |f.name| + 1 || (f.value.Str? && (i == |f.name| + 3 || i == |f.name| + 4 + |f.value.s|))
  {
    hide Quoted, FieldText, ToString, Without;
    FieldParts(f, tail);
    QuotedLength(f.name);
    var n, behind := |f.name|, ValueText(f.value) + tail;
    if i < n + 2 {
      QuoteOfQuoted(f.name, ":" + behind, i);
    } else if i > n + 2 {
      assert (Quoted(f.name) + (":" + behind))[i] == behind[i - n - 3];
      match f.value
      case Num(v) => NoQuoteInNumber(v, tail, i - n - 3);
      case Str(v) =>
        QuotedLength(v);
        if i - n - 3 < |v| + 2 { QuoteOfQuoted(v, tail, i - n - 3); }
    }
  }

  lemma AfterName(f: Field, tail: string, name: string)
    requires CleanName(name) && CleanName(f.name)
    ensures !At(FieldText(f) + tail, |f.name| + 1, Quoted(name))
  {
    var s := FieldText(f) + tail;
    assert name[0] != ':';
    assert s[|f.name| + 2] == ':';
    var i := |f.name| + 1;
    assert i + |Quoted(name)| <= |s| ==> s[i..i + |Quoted(name)|][1] == ':';
    assert Quoted(name)[1] == name[0];
  }

  lemma AtName(f: Field, tail: string, name: string)
    requires CleanName(name) && CleanName(f.name) && f.name != name
    ensures !At(FieldText(f) + tail, 0, Quoted(name))
  {
    hide At, Quoted;
    var d := ":" + ValueText(f.value) + tail;
    assert FieldText(f) + tail == [] + Quoted(f.name) + d;
    BetweenQuotes([], f.name, d, name);
  }

  lemma AtValue(f: Field, tail: string, name: string)
    requires CleanName(name) && CleanValue(f.value) && f.value.Str? && f.value.s != name
    ensures !At(FieldText(f) + tail, |f.name| + 3, Quoted(name))
  {
    hide At, Quoted;
    var a := Quoted(f.name) + ":";
    assert FieldText(f) + tail == a + Quoted(f.value.s) + tail;
    QuotedLength(f.name);
    BetweenQuotes(a, f.value.s, tail, name);
  }

  /** What may follow a field: the closing brace, or a comma and the next name. */
  predicate Separator(tail: string) {
    tail == "}" || (|tail| >= 2 && tail[0] == ',' && tail[1] == '"')
  }

  /** A quoted name takes more than the last two characters. */
  lemma EndOfLine(s: string, name: string, i: nat)
    requires CleanName(name) && i + 2 >= |s|
    ensures !At(s, i, Quoted(name))
  {
  }

  lemma AtClosingQuote(f: Field, tail: string, name: string)
    requires CleanName(name) && f.value.Str? && Separator(tail)
    ensures !At(FieldText(f) + tail, |f.name| + 4 + |f.value.s|, Quoted(name))
  {
    hide At;
    var a := Quoted(f.name) + ":" + "\"" + f.value.s;
    if tail == "}" {
      EndOfLine(FieldText(f) + tail, name, |a|);
    } else {
      assert FieldText(f) + tail == a + Quoted(",") + tail[2..];
      BetweenQuotes(a, ",", tail[2..], name);
    }
  }

  /** The quoted name does not start inside one field or at what separates it from the next, if the name of the field
    differs from it, and the value differs from it or stands further on. */
  lemma NotInField(f: Field, tail: string, name: string, i: nat)
    requires CleanName(name) && CleanName(f.name) && CleanValue(f.value) && Separator(tail)
    requires f.name != name && (f.value != Str(name) || i < |f.name| + 3) && i <= |FieldText(f)|
    ensures !At(FieldText(f) + tail, i, Quoted(name))
  {
    hide At, FieldText, Quoted, CleanName, CleanValue;
    var s := FieldText(f) + tail;
    if s[i] != '"' {
      NotAQuote(s, name, i);
    } else {
      QuoteInField(f, tail, i);
      var n := |f.name|;
      if i == 0 {
        AtName(f, tail, name);
      } else if i == n + 1 {
        AfterName(f, tail, name);
      } else if i == n + 3 {
        AtValue(f, tail, name);
      } else {
        AtClosingQuote(f, tail, name);
      }
    }
  }

  // ------------------------------------------------ the first occurrence

  /** Where field k begins in the tail. */
  function Offset(fields: seq<Field>, k: nat): nat
    requires k < |fields|
  {
    if k == 0 then 0 else |FieldText(fields[0])| + 1 + Offset(fields[1..], k - 1)
  }

  /** None of the first k fields has the name, or has it as its value. */
  ghost predicate Avoids(fields: seq<Field>, k: nat, name: string)
    requires k <= |fields|
  {
    forall i :: 0 <= i < k ==> fields[i].name != name && fields[i].value != Str(name)
  }

  ghost predicate FirstNamed(fields: seq<Field>, k: nat)
    requires k < |fields|
  {
    Avoids(fields, k, fields[k].name)
  }

  lemma TailInFront(fields: seq<Field>)
    requires fields != []
    ensures Tail(fields) != [] && Tail(fields)[0] == '"'
  {
  }

  lemma Joined(a: string, b: string, c: string)
    ensures (a + b) + c == a + (b + c)
  {
  }

  lemma TailSplits(fields: seq<Field>)
    requires |fields| > 1
    ensures var f, rest := fields[0], Tail(fields[1..]);
      Tail(fields) == (FieldText(f) + ",") + rest == FieldText(f) + ("," + rest)
  {
    hide FieldText;
    var f, rest := FieldText(fields[0]), Tail(fields[1..]);
    assert Tail(fields) == (f + ",") + rest;
    hide Tail;
    Joined(f, ",", rest);
  }

  /** A quoted name does not occur before field k if the fields before avoid it. */
  lemma {:induction false} NotBefore(fields: seq<Field>, k: nat, name: string)
    requires Clean(fields) && CleanName(name) && k < |fields| && Avoids(fields, k, name)
    ensures var p, s := Offset(fields, k), Tail(fields);
      p <= |s| && s[p..] == Tail(fields[k..]) && forall j :: 0 <= j < p ==> !At(s, j, Quoted(name))
    decreases k
  {
    hide At, FieldText, CleanName, CleanValue, Quoted, Tail;
    var s := Tail(fields);
    if k == 0 {
      assert s[0..] == s && fields[0..] == fields;
    } else {
      var f, rest := fields[0], fields[1..];
      assert f in fields && rest[k - 1..] == fields[k..];
      assert forall x :: x in rest ==> x in fields;
      NotBefore(rest, k - 1, name);
      TailInFront(rest);
      var front, p := FieldText(f) + ",", Offset(rest, k - 1);
      TailSplits(fields);
      assert s[|front| + p..] == Tail(rest)[p..];
      forall j | 0 <= j < |front| + p ensures !At(s, j, Quoted(name)) {
        if j < |front| {
          NotInField(f, "," + Tail(rest), name, j);
        } else {
          OccursShift(front, Tail(rest), Quoted(name), j - |front|);
        }
      }
    }
  }

  lemma NameInFront(fields: seq<Field>)
    requires fields != []
    ensures At(Tail(fields), 0, Quoted(fields[0].name))
  {
    var q := Quoted(fields[0].name);
    assert Tail(fields)[0..|q|] == q;
  }

  lemma NameIsClean(fields: seq<Field>, k: nat)
    requires Clean(fields) && k < |fields|
    ensures CleanName(fields[k].name) && CleanValue(fields[k].value)
  {
    assert fields[k] in fields;
  }

  /** The first occurrence in the tail is, one further on, the first in the line. */
  lemma LineFind(fields: seq<Field>, name: string, p: nat)
    requires p <= |Tail(fields)| && At(Tail(fields), p, Quoted(name))
    requires forall j :: 0 <= j < p ==> !At(Tail(fields), j, Quoted(name))
    ensures Find(Line(fields), Quoted(name), 0) == Some(1 + p)
  {
    hide At, Find, Tail;
    var s, q := Line(fields), Quoted(name);
    OccursShift("{", Tail(fields), q, p);
    forall j | 0 <= j < 1 + p ensures !At(s, j, q) {
      if j == 0 { NotAQuote(s, name, 0); } else { OccursShift("{", Tail(fields), q, j - 1); }
    }
    FindIs(s, q, 0, 1 + p);
  }

  lemma FoundInLine(fields: seq<Field>, k: nat)
    requires Clean(fields) && k < |fields| && FirstNamed(fields, k)
    ensures Find(Line(fields), Quoted(fields[k].name), 0) == Some(1 + Offset(fields, k))
    ensures 1 + Offset(fields, k) <= |Line(fields)| && Line(fields)[1 + Offset(fields, k)..] == Tail(fields[k..])
  {
    hide At, Tail, FieldText, Offset, Clean, Avoids, CleanName;
    var name, p := fields[k].name, Offset(fields, k);
    NameIsClean(fields, k);
    NotBefore(fields, k, name);
    NameInFront(fields[k..]);
    OccursShift(Tail(fields)[..p], Tail(fields)[p..], Quoted(name), 0);
    assert Tail(fields)[..p] + Tail(fields)[p..] == Tail(fields);
    LineFind(fields, name, p);
    assert Line(fields)[1 + p..] == Tail(fields)[p..];
  }

  // ---------------------------------------------------- reading the value

  lemma CharOccurs(s: string, c: char, i: nat)
    ensures At(s, i, [c]) <==> i < |s| && s[i] == c
  {
    if i < |s| { assert s[i..i + 1] == [s[i]]; }
  }

  /** The first occurrence of a character behind a stretch without it. */
  lemma FindChar(s: string, c: char, from: nat, at: nat)
    requires from <= at < |s| && s[at] == c && forall j :: from <= j < at ==> s[j] != c
    ensures Find(s, [c], from) == Some(at)
  {
    forall j | from <= j <= at ensures At(s, j, [c]) <==> s[j] == c { CharOccurs(s, c, j); }
    FindIs(s, [c], from, at);
  }

  /** A field at position p of the text. */
  ghost predicate FieldAt(s: string, p: nat, f: Field, z: string) {
    p <= |s| && s[p..] == FieldText(f) + z
  }

  predicate NoColon(s: string, from: nat, to: nat)
    requires to <= |s|
  {
    forall j :: from <= j < to ==> s[j] != ':'
  }

  /** From a position in front of the field, the next colon is that of the field. */
  lemma ColonOfField(s: string, from: nat, p: nat, f: Field, z: string)
    requires FieldAt(s, p, f, z) && CleanName(f.name) && from <= p && NoColon(s, from, p)
    ensures p + |f.name| + 2 < |s| && s[p + |f.name| + 2] == ':' && Find(s, ":", from) == Some(p + |f.name| + 2)
    ensures s[p + |f.name| + 3..] == ValueText(f.value) + z
  {
    hide Find;
    var n := |f.name|;
    var r := s[p..];
    assert r == Quoted(f.name) + (":" + (ValueText(f.value) + z));
    assert r[n + 3..] == ValueText(f.value) + z && s[p + n + 3..] == r[n + 3..];
    assert s[p + n + 2] == r[n + 2] == ':';
    forall j | from <= j < p + n + 2 ensures s[j] != ':' {
      if j >= p {
        assert s[j] == r[j - p] == Quoted(f.name)[j - p];
        if 0 < j - p < n + 1 { assert Quoted(f.name)[j - p] == f.name[j - p - 1]; }
      }
    }
    FindChar(s, ':', from, p + n + 2);
  }

  lemma NoIntAtQuote(s: string, i: nat)
    requires i < |s| && s[i] == '"'
    ensures IntAt(s, SkipWs(s, i)) == NoInt
  {
  }

  lemma SliceAt(s: string, i: nat, r: string)
    requires i <= |s| && s[i..] == r
    ensures |s| == i + |r| && forall j :: 0 <= j < |r| ==> s[i + j] == r[j]
  {
    forall j | 0 <= j < |r| ensures s[i + j] == r[j] { assert s[i..][j] == s[i + j]; }
  }

  lemma QuotedStarts(name: string, y: string)
    ensures var q := Quoted(name) + y;
      |q| >= |name| + 2 && q[0] == '"' && q[1..1 + |name|] == name && q[1 + |name|] == '"'
  {
  }

  lemma QuotedAt(s: string, open: nat, name: string, y: string)
    requires open <= |s| && s[open..] == Quoted(name) + y && Without(name, '"')
    ensures open + 1 + |name| < |s| && s[open] == '"' && s[open + 1..open + 1 + |name|] == name
    ensures Find(s, "\"", open + 1) == Some(open + 1 + |name|)
  {
    hide Find, Quoted;
    var q, end := Quoted(name) + y, open + 1 + |name|;
    QuotedStarts(name, y);
    SliceAt(s, open, q);
    assert s[open + 1..end] == s[open..][1..1 + |name|] == name;
    forall j | open + 1 <= j < end ensures s[j] != '"' { assert s[j] == s[open + 1..end][j - open - 1]; }
    FindChar(s, '"', open + 1, end);
  }

  /** A quoted value behind the colon at position c. */
  lemma QuotedValue(s: string, c: nat, v: string, z: string)
    requires c < |s| && s[c] == ':' && s[c + 1..] == Quoted(v) + z && Without(v, '"')
    ensures c + 2 <= |s| && s[c + 1] == '"' && Find(s, "\"", c) == Some(c + 1) && Find(s, "\"", c + 2) == Some(c + 2 + |v|)
    ensures c + 2 + |v| <= |s| && s[c + 2..c + 2 + |v|] == v
  {
    hide Find, Quoted;
    QuotedAt(s, c + 1, v, z);
    FindChar(s, '"', c, c + 1);
  }

  lemma OneDigit(s: string, i: nat, val: nat, d: nat)
    requires i < |s| && d < 10 && s[i] == Digit(d) && val * 10 + d <= MAX
    ensures ReadDigits(s, i, val) == ReadDigits(s, i + 1, val * 10 + d)
  {
  }

  lemma {:induction false} DigitsRead(s: string, i: nat, n: nat)
    requires n <= MAX && i + |Digits(n)| <= |s| && s[i..i + |Digits(n)|] == Digits(n)
    ensures ReadDigits(s, i, 0) == ReadDigits(s, i + |Digits(n)|, n)
    decreases n
  {
    hide ReadDigits;
    var d := Digits(n);
    if n < 10 {
      assert s[i] == s[i..i + 1][0] == Digit(n);
      OneDigit(s, i, 0, n);
    } else {
      var m := |d| - 1;
      assert Digits(n / 10) == d[..m] == s[i..i + m];
      DigitsRead(s, i, n / 10);
      assert s[i + m] == s[i..i + |d|][m] == Digit(n % 10);
      OneDigit(s, i + m, n / 10, n % 10);
    }
  }

  lemma UnsignedRead(s: string, i: nat, n: nat, z: string)
    requires n <= MAX && z != [] && !IsDigit(z[0])
    requires i <= |s| && s[i..] == Digits(n) + z
    ensures i < |s| && IsDigit(s[i]) && ReadDigits(s, i, 0) == Int(n)
  {
    hide Digits;
    var d := Digits(n);
    SliceAt(s, i, d + z);
    assert s[i..i + |d|] == s[i..][..|d|] == d;
    assert s[i] == (d + z)[0] == d[0];
    assert s[i + |d|] == (d + z)[|d|] == z[0];
    DigitsRead(s, i, n);
  }

  lemma NegativeRead(s: string, i: nat, m: int, z: string)
    requires 0 <= m <= MAX && z != [] && !IsDigit(z[0])
    requires i <= |s| && s[i..] == ['-'] + (Digits(m) + z)
    ensures SkipWs(s, i) == i && IntAt(s, i) == Int(-m)
  {
    hide ReadDigits, Digits;
    assert s[i] == s[i..][0] == '-';
    assert s[i + 1..] == s[i..][1..] == Digits(m) + z;
    UnsignedRead(s, i + 1, m, z);
  }

  lemma PositiveRead(s: string, i: nat, n: nat, z: string)
    requires n <= MAX && z != [] && !IsDigit(z[0])
    requires i <= |s| && s[i..] == Digits(n) + z
    ensures SkipWs(s, i) == i && IntAt(s, i) == Int(n)
  {
    hide ReadDigits, Digits;
    UnsignedRead(s, i, n, z);
  }

  lemma NumberRead(s: string, i: nat, n: int, z: string)
    requires -MAX <= n <= MAX && z != [] && !IsDigit(z[0])
    requires i <= |s| && s[i..] == ToString(n) + z
    ensures SkipWs(s, i) == i && IntAt(s, i) == Int(n)
  {
    hide ReadDigits, Digits, IntAt, SkipWs;
    if n < 0 {
      assert ToString(n) + z == ['-'] + (Digits(-n) + z);
      NegativeRead(s, i, -n, z);
    } else {
      PositiveRead(s, i, n, z);
    }
  }

  lemma StringReadAt(s: string, key: string, from: nat, c: nat, v: string, z: string)
    requires from <= c < |s| && s[c] == ':' && s[c + 1..] == Quoted(v) + z && Without(v, '"')
    requires Find(s, key, 0) == Some(from) && Find(s, ":", from) == Some(c)
    ensures GetString(s, key) == Some(v) && GetInt(s, key) == NoInt
  {
    hide Find, Quoted, Without, IntAt;
    QuotedValue(s, c, v, z);
    NoIntAtQuote(s, c + 1);
  }

  lemma IntReadAt(s: string, key: string, from: nat, c: nat, n: int, z: string)
    requires from <= c < |s| && s[c] == ':' && s[c + 1..] == ToString(n) + z && -MAX <= n <= MAX
    requires z != [] && !IsDigit(z[0]) && Find(s, key, 0) == Some(from) && Find(s, ":", from) == Some(c)
    ensures GetInt(s, key) == Int(n)
  {
    hide Find, ToString, IntAt;
    NumberRead(s, c + 1, n, z);
  }

  /** Once the key has been found, at `from`, what is read is the value of the first field behind. */
  lemma FieldBehindRead(s: string, key: string, from: nat, p: nat, f: Field, z: string)
    requires FieldAt(s, p, f, z) && CleanName(f.name) && CleanValue(f.value) && from <= p && NoColon(s, from, p)
    requires z != [] && !IsDigit(z[0]) && Find(s, key, 0) == Some(from)
    ensures match f.value
      case Str(v) => GetString(s, key) == Some(v) && GetInt(s, key) == NoInt
      case Num(n) => -MAX <= n <= MAX ==> GetInt(s, key) == Int(n)
  {
    hide FieldAt, Find, FieldText, CleanName, NoColon, GetString, GetInt, Quoted, ToString;
    ColonOfField(s, from, p, f, z);
    var c := p + |f.name| + 2;
    match f.value
    case Str(v) => StringReadAt(s, key, from, c, v, z);
    case Num(n) => if -MAX <= n <= MAX { IntReadAt(s, key, from, c, n, z); }
  }

  lemma QuotedBehind(s: string, c: nat, front: string, name: string, y: string)
    requires c < |s| && s[c] == ':' && s[c + 1..] == front + (Quoted(name) + y) && Without(name, '"')
    requires forall j :: 0 <= j < |front| ==> front[j] != '"'
    ensures var open := c + 1 + |front|;
      && open + 1 + |name| <= |s| && Find(s, "\"", c) == Some(open)
      && Find(s, "\"", open + 1) == Some(open + 1 + |name|) && s[open + 1..open + 1 + |name|] == name
  {
    hide Find, Quoted;
    var open := c + 1 + |front|;
    assert s[open..] == s[c + 1..][|front|..] == Quoted(name) + y;
    forall j | c + 1 <= j < open ensures s[j] != '"' { assert s[j] == s[c + 1..][j - c - 1] == front[j - c - 1]; }
    QuotedAt(s, open, name, y);
    FindChar(s, '"', c, open);
  }

  /** The next quotes behind a number are those of the next name. */
  lemma NextName(s: string, c: nat, n: int, name: string, y: string)
    requires c < |s| && s[c] == ':' && s[c + 1..] == ToString(n) + ("," + (Quoted(name) + y)) && Without(name, '"')
    ensures var open := c + 2 + |ToString(n)|;
      && open + 1 + |name| <= |s| && Find(s, "\"", c) == Some(open)
      && Find(s, "\"", open + 1) == Some(open + 1 + |name|) && s[open + 1..open + 1 + |name|] == name
  {
    hide Find, ToString, Quoted;
    var t := ToString(n);
    NumberHasNoQuote(n);
    assert ToString(n) + ("," + (Quoted(name) + y)) == (t + ",") + (Quoted(name) + y);
    assert forall j :: 0 <= j < |t + ","| ==> (t + ",")[j] != '"';
    QuotedBehind(s, c, t + ",", name, y);
  }

  /** A string read where a number stands is the next name. */
  lemma NextNameRead(s: string, key: string, from: nat, p: nat, f: Field, name: string, y: string)
    requires FieldAt(s, p, f, "," + (Quoted(name) + y)) && f.value.Num? && CleanName(f.name) && Without(name, '"')
    requires from <= p && NoColon(s, from, p) && Find(s, key, 0) == Some(from)
    ensures GetString(s, key) == Some(name)
  {
    hide FieldAt, Find, FieldText, CleanName, NoColon, Quoted;
    ColonOfField(s, from, p, f, "," + (Quoted(name) + y));
    NextName(s, p + |f.name| + 2, f.value.n, name, y);
  }

  // ------------------------------------------------------- the round trip

  /** What stands behind a field. */
  function Behind(fields: seq<Field>): (z: string)
    requires fields != []
    ensures z != [] && (z[0] == '}' || z[0] == ',')
  {
    (if |fields| == 1 then "" else ",") + Tail(fields[1..])
  }

  /** What stands behind the first name. */
  function BehindName(fields: seq<Field>): string
    requires fields != []
  {
    ":" + ValueText(fields[0].value) + Behind(fields)
  }

  lemma TailStarts(fields: seq<Field>)
    requires fields != []
    ensures Tail(fields) == FieldText(fields[0]) + Behind(fields)
  {
    hide FieldText;
  }

  lemma TailSplit(fields: seq<Field>)
    requires fields != []
    ensures Tail(fields) == Quoted(fields[0].name) + BehindName(fields)
  {
    hide Quoted, ValueText, Behind;
    TailStarts(fields);
    var q, v, b := Quoted(fields[0].name), ValueText(fields[0].value), Behind(fields);
    assert q + ":" + v + b == q + (":" + v + b);
  }

  lemma NameBehind(fields: seq<Field>, k: nat)
    requires Clean(fields) && k + 1 < |fields|
    ensures Without(fields[k + 1].name, '"')
    ensures Behind(fields[k..]) == "," + (Quoted(fields[k + 1].name) + BehindName(fields[k + 1..]))
  {
    var rest := fields[k + 1..];
    NameIsClean(fields, k + 1);
    assert fields[k..][1..] == rest && rest[0] == fields[k + 1];
    TailSplit(rest);
  }

  /** What the getters give when the value of field m is read. A string read where a number stands is the name of the
    field behind. */
  ghost predicate GivesField(line: string, name: string, fields: seq<Field>, m: nat)
    requires m < |fields|
  {
    match fields[m].value
    case Str(v) => GetString(line, Quoted(name)) == Some(v) && GetInt(line, Quoted(name)) == NoInt
    case Num(n) =>
      && (-MAX <= n <= MAX ==> GetInt(line, Quoted(name)) == Int(n))
      && (m + 1 < |fields| ==> GetString(line, Quoted(name)) == Some(fields[m + 1].name))
  }

  /** On any line of fields, reading by name gives the value of a field that the fields before it avoid. */
  lemma ValueRead(fields: seq<Field>, k: nat)
    requires Clean(fields) && k < |fields| && FirstNamed(fields, k)
    ensures GivesField(Line(fields), fields[k].name, fields, k)
  {
    hide Find, FirstNamed, FieldText, CleanName, CleanValue, GetString, GetInt, Line, Offset;
    var f, s, p := fields[k], Line(fields), 1 + Offset(fields, k);
    FoundInLine(fields, k);
    NameIsClean(fields, k);
    assert FieldAt(s, p, f, Behind(fields[k..]));
    if f.value.Num? && k + 1 < |fields| {
      NameBehind(fields, k);
      NextNameRead(s, Quoted(f.name), p, p, f, fields[k + 1].name, BehindName(fields[k + 1..]));
    }
    FieldBehindRead(s, Quoted(f.name), p, p, f, Behind(fields[k..]));
  }

  lemma TailOfTwo(fields: seq<Field>, i: nat)
    requires i + 1 < |fields|
    ensures Tail(fields[i..]) == FieldText(fields[i]) + "," + Tail(fields[i + 1..])
  {
    hide FieldText;
    assert fields[i..][1..] == fields[i + 1..];
  }

  lemma TailAtValue(fields: seq<Field>, i: nat, name: string)
    requires i + 1 < |fields| && fields[i].value == Str(name)
    ensures Tail(fields[i..]) == FieldText(fields[i]) + "," + Tail(fields[i + 1..])
    ensures Tail(fields[i..]) == (Quoted(fields[i].name) + ":") + (Quoted(name) + ("," + Tail(fields[i + 1..])))
  {
    hide Quoted, Tail;
    TailOfTwo(fields, i);
    var a, q, t := Quoted(fields[i].name) + ":", Quoted(name), Tail(fields[i + 1..]);
    assert a + q + "," + t == a + (q + ("," + t));
  }

  /** The tail in front of the value of field i, and from there on. */
  lemma TailParts(fields: seq<Field>, i: nat, name: string) returns (front: string)
    requires Clean(fields) && CleanName(name) && i + 1 < |fields| && Avoids(fields, i, name)
    requires fields[i].value == Str(name)
    ensures |front| == Offset(fields, i) + |fields[i].name| + 3
    ensures Tail(fields) == front + (Quoted(name) + ("," + Tail(fields[i + 1..])))
  {
    hide At, Clean, Avoids, CleanName, Quoted, Tail, FieldText, Offset;
    var t, o, head := Tail(fields), Offset(fields, i), Quoted(fields[i].name) + ":";
    NotBefore(fields, i, name);
    TailAtValue(fields, i, name);
    QuotedLength(fields[i].name);
    front := t[..o] + head;
    assert t == t[..o] + t[o..];
  }

  lemma FieldTextLength(f: Field)
    ensures |FieldText(f)| >= |f.name| + 3
  {
  }

  lemma NotInHead(t: string, o: nat, f: Field, rest: string, name: string)
    requires o <= |t| && t[o..] == FieldText(f) + "," + rest && rest != [] && rest[0] == '"'
    requires CleanName(name) && CleanName(f.name) && CleanValue(f.value) && f.name != name
    ensures forall j :: o <= j < o + |f.name| + 3 ==> !At(t, j, Quoted(name))
  {
    hide At, CleanName, CleanValue, FieldText, Quoted;
    assert t == t[..o] + t[o..];
    FieldTextLength(f);
    forall j | o <= j < o + |f.name| + 3 ensures !At(t, j, Quoted(name)) {
      NotInField(f, "," + rest, name, j - o);
      assert t[o..] == FieldText(f) + ("," + rest);
      OccursShift(t[..o], t[o..], Quoted(name), j - o);
    }
  }

  lemma NameInFrontOf(name: string, rest: string)
    ensures At(Quoted(name) + rest, 0, Quoted(name))
  {
    assert (Quoted(name) + rest)[0..|Quoted(name)|] == Quoted(name);
  }

  /** The value of field i is the first occurrence of the name. */
  lemma NameInValue(fields: seq<Field>, i: nat, name: string)
    requires Clean(fields) && CleanName(name) && i + 1 < |fields| && Avoids(fields, i, name)
    requires fields[i].name != name && fields[i].value == Str(name)
    ensures var v, t := Offset(fields, i) + |fields[i].name| + 3, Tail(fields);
      && v <= |t| && At(t, v, Quoted(name)) && (forall j :: 0 <= j < v ==> !At(t, j, Quoted(name)))
  {
    hide At, Clean, Avoids, Quoted, CleanName, CleanValue, Tail, FieldText, Offset;
    var f, t, o, rest := fields[i], Tail(fields), Offset(fields, i), Tail(fields[i + 1..]);
    NameIsClean(fields, i);
    NotBefore(fields, i, name);
    var front := TailParts(fields, i, name);
    NameInFrontOf(name, "," + rest);
    OccursShift(front, Quoted(name) + ("," + rest), Quoted(name), 0);
    TailInFront(fields[i + 1..]);
    TailAtValue(fields, i, name);
    NotInHead(t, o, f, rest, name);
  }

  lemma LineIs(fields: seq<Field>)
    ensures Line(fields) == "{" + Tail(fields)
  {
  }

  lemma Middle(a: string, b: string, c: string)
    ensures var s := a + (b + c);
      s[|a| + |b|..] == c && forall j :: |a| <= j < |a| + |b| ==> s[j] == b[j - |a|]
  {
  }

  lemma NoColonInName(name: string)
    requires CleanName(name)
    ensures forall j :: 0 <= j < |Quoted(name) + ","| ==> (Quoted(name) + ",")[j] != ':'
  {
    var mid := Quoted(name) + ",";
    assert forall j :: 0 < j <= |name| ==> mid[j] == name[j - 1];
  }

  lemma LineBehindValue(front: string, name: string, fields: seq<Field>)
    requires fields != [] && CleanName(name)
    ensures var s, p := front + (Quoted(name) + ("," + Tail(fields))), |front| + |name| + 3;
      p <= |s| && NoColon(s, |front|, p) && FieldAt(s, p, fields[0], Behind(fields))
  {
    hide Tail, FieldText, CleanName, Quoted, Behind;
    var mid := Quoted(name) + ",";
    var s := front + (Quoted(name) + ("," + Tail(fields)));
    assert s == front + (mid + Tail(fields));
    QuotedLength(name);
    Middle(front, mid, Tail(fields));
    TailStarts(fields);
    NoColonInName(name);
  }

  /** A string value that equals a name diverts the reading of that name: if fields before i avoid the name and field i
    has it as its value, what is read is the value of field i + 1, as a string or as an integer. */
  lemma DivertedRead(fields: seq<Field>, i: nat, name: string)
    requires Clean(fields) && CleanName(name) && i + 1 < |fields| && Avoids(fields, i, name)
    requires fields[i].name != name && fields[i].value == Str(name)
    ensures GivesField(Line(fields), name, fields, i + 1)
  {
    hide Find, FieldText, CleanName, CleanValue, GetString, GetInt, Line, Offset, Tail, Clean, FieldAt, NoColon;
    var g, s := fields[i + 1], Line(fields);
    var v := Offset(fields, i) + |fields[i].name| + 3;
    var b := 1 + v + |name| + 3;
    NameInValue(fields, i, name);
    LineFind(fields, name, v);
    NameIsClean(fields, i + 1);
    var front := TailParts(fields, i, name);
    assert s == ("{" + front) + (Quoted(name) + ("," + Tail(fields[i + 1..]))) by { LineIs(fields); }
    LineBehindValue("{" + front, name, fields[i + 1..]);
    FieldBehindRead(s, Quoted(name), 1 + v, b, g, Behind(fields[i + 1..]));
    if g.value.Num? && i + 2 < |fields| {
      NameBehind(fields, i + 1);
      NextNameRead(s, Quoted(name), 1 + v, b, g, fields[i + 2].name, BehindName(fields[i + 2..]));
    }
  }

  const NAMES: seq<string> :=
    ["ts", "src_ip", "dst_ip", "src_port", "dst_port", "action", "status", "bytes", "username"]

  predicate NoQuotes(r: LogRecord) {
    && Without(r.srcIp, '"') && Without(r.dstIp, '"') && Without(r.action, '"')
    && Without(r.status, '"') && Without(r.username, '"')
  }

  /** The string values hold no quote, and none of them is the name of a later field. */
  ghost predicate Readable(r: LogRecord) {
    && NoQuotes(r)
    && r.srcIp !in NAMES[2..] && r.dstIp !in NAMES[3..] && r.action !in NAMES[6..] && r.status !in NAMES[7..]
  }

  /** The numbers are those that the program can hold, except for the smallest long long. */
  predicate InWidth(r: LogRecord) {
    && -MAX <= r.ts <= MAX && -MAX <= r.bytes <= MAX
    && -0x8000_0000 <= r.srcPort < 0x8000_0000 && -0x8000_0000 <= r.dstPort < 0x8000_0000
  }

  lemma NamesAreClean()
    ensures forall n :: n in NAMES ==> CleanName(n)
  {
  }

  lemma NamesAreDistinct()
    ensures forall i, j :: 0 <= i < j < 9 ==> NAMES[i] != NAMES[j]
  {
  }

  lemma FieldsAreClean(r: LogRecord)
    requires NoQuotes(r)
    ensures Clean(FieldsOf(r))
  {
    hide CleanName;
    NamesAreClean();
    var fields := FieldsOf(r);
    assert forall k :: 0 <= k < 9 ==> fields[k].name == NAMES[k];
    forall f | f in fields ensures CleanName(f.name) && CleanValue(f.value) {
      var k :| 0 <= k < 9 && fields[k] == f;
      assert NAMES[k] in NAMES;
    }
  }

  lemma RecordFirst(r: LogRecord, k: nat)
    requires Readable(r) && k < 9
    ensures FirstNamed(FieldsOf(r), k)
  {
    NamesAreDistinct();
    var fields := FieldsOf(r);
    assert fields[k].name == NAMES[k];
    forall i | 0 <= i < k ensures fields[i].name != NAMES[k] && fields[i].value != Str(NAMES[k]) {
      assert fields[i].name == NAMES[i];
      if i == 1 { assert NAMES[2..][k - 2] == NAMES[k]; }
      if i == 2 { assert NAMES[3..][k - 3] == NAMES[k]; }
      if i == 5 { assert NAMES[6..][k - 6] == NAMES[k]; }
      if i == 6 { assert NAMES[7..][k - 7] == NAMES[k]; }
    }
  }

  lemma RecordFields(r: LogRecord)
    requires Readable(r)
    ensures Clean(FieldsOf(r)) && |FieldsOf(r)| == 9
    ensures forall k :: 0 <= k < 9 ==> FieldsOf(r)[k].name == NAMES[k] && FirstNamed(FieldsOf(r), k)
  {
    hide Clean, FirstNamed;
    FieldsAreClean(r);
    assert forall k :: 0 <= k < 9 ==> FieldsOf(r)[k].name == NAMES[k];
    forall k | 0 <= k < 9 ensures FirstNamed(FieldsOf(r), k) { RecordFirst(r, k); }
  }

  lemma DivertedFirst(r: LogRecord)
    requires r.srcIp == "src_port"
    ensures FirstNamed(FieldsOf(r), 0) && FirstNamed(FieldsOf(r), 1) && FirstNamed(FieldsOf(r), 2)
    ensures Avoids(FieldsOf(r), 1, "src_port") && FieldsOf(r)[1].name != "src_port"
  {
    NamesAreDistinct();
    assert NAMES[0] != NAMES[3] && NAMES[1] != NAMES[3] && NAMES[2] != NAMES[3];
    assert NAMES[0] != NAMES[1] && NAMES[0] != NAMES[2] && NAMES[1] != NAMES[2];
  }

  /** Without that condition it can fail: a source address that reads `src_port` makes the line unreadable. */
  lemma DivertedLine(r: LogRecord)
    requires r.srcIp == "src_port" && Without(r.dstIp, '"') && Without(r.action, '"') && Without(r.status, '"')
    requires Without(r.username, '"') && -MAX <= r.ts <= MAX
    ensures ParseLine(Line(FieldsOf(r))) == Missing("src_port")
  {
    hide GetInt, GetString, Line, Clean, FirstNamed, CleanName, Avoids;
    var fields := FieldsOf(r);
    NamesAreClean();
    NamesAreDistinct();
    FieldsAreClean(r);
    assert fields[3].name == NAMES[3] == r.srcIp;
    DivertedFirst(r);
    ValueRead(fields, 0);
    ValueRead(fields, 1);
    ValueRead(fields, 2);
    DivertedRead(fields, 1, "src_port");
  }

  // ------------------------------------------------ when exactly it holds

  /** The index of the field whose value is read for the name: the first field with that name, or the one behind the
    first string value that equals it. */
  function Landing(fields: seq<Field>, name: string): (m: nat)
    ensures m <= |fields|
  {
    if fields == [] then 0
    else if fields[0].name == name then 0
    else if fields[0].value == Str(name) then 1
    else 1 + Landing(fields[1..], name)
  }

  /** Field m is the first with the name, or follows the first value that equals the name. */
  ghost predicate LandsAt(fields: seq<Field>, name: string, m: nat)
    requires m < |fields|
  {
    || (fields[m].name == name && Avoids(fields, m, name))
    || (m > 0 && Avoids(fields, m - 1, name) && fields[m - 1].name != name && fields[m - 1].value == Str(name))
  }

  lemma AvoidsNone(fields: seq<Field>, name: string)
    ensures Avoids(fields, 0, name)
  {
  }

  lemma AvoidsFirst(fields: seq<Field>, k: nat, name: string)
    requires 0 < k <= |fields| && Avoids(fields, k, name)
    ensures fields[0].name != name && fields[0].value != Str(name)
  {
  }

  lemma AvoidsLift(fields: seq<Field>, j: nat, name: string)
    requires j < |fields| && fields[0].name != name && fields[0].value != Str(name)
    ensures Avoids(fields[1..], j, name) <==> Avoids(fields, j + 1, name)
  {
    if Avoids(fields, j + 1, name) {
      forall i | 0 <= i < j ensures fields[1..][i].name != name && fields[1..][i].value != Str(name) {
        assert fields[1..][i] == fields[i + 1];
      }
    }
  }

  lemma {:induction false} LandingIs(fields: seq<Field>, name: string, k: nat)
    requires k < |fields| && fields[k].name == name
    ensures Landing(fields, name) <= k && LandsAt(fields, name, Landing(fields, name))
    ensures Avoids(fields, k, name) ==> Landing(fields, name) == k
    decreases k
  {
    hide Avoids;
    AvoidsNone(fields, name);
    if fields[0].name != name && fields[0].value != Str(name) {
      var rest := fields[1..];
      LandingIs(rest, name, k - 1);
      var m := Landing(rest, name);
      AvoidsLift(fields, k - 1, name);
      AvoidsLift(fields, m, name);
      if m > 0 { AvoidsLift(fields, m - 1, name); }
    } else if k > 0 {
      if Avoids(fields, k, name) { AvoidsFirst(fields, k, name); }
    }
  }

  /** Reading any name of a line, whatever its string values are. */
  lemma NameRead(fields: seq<Field>, k: nat)
    requires Clean(fields) && k < |fields|
    ensures Landing(fields, fields[k].name) <= k
    ensures GivesField(Line(fields), fields[k].name, fields, Landing(fields, fields[k].name))
  {
    hide Landing, GetString, GetInt, Line, Clean, CleanName, CleanValue, Avoids;
    var name := fields[k].name;
    NameIsClean(fields, k);
    LandingIs(fields, name, k);
    var m := Landing(fields, name);
    if fields[m].name == name && Avoids(fields, m, name) {
      assert FirstNamed(fields, m);
      ValueRead(fields, m);
    } else {
      DivertedRead(fields, m - 1, name);
    }
  }

  /** For the name of field k the reader lands on that field, or on one where it finds the same value by chance; a
    `bytes` that is not a number counts as 0. */
  predicate LandsRight(r: LogRecord, k: nat)
    requires k < 9
  {
    var fields := FieldsOf(r);
    var m := Landing(fields, fields[k].name);
    m == k || (m < 9 &&
      match fields[k].value
      case Num(n) => fields[m].value == Num(n) || (k == 7 && n == 0 && fields[m].value.Str?)
      case Str(v) => fields[m].value == Str(v) || (fields[m].value.Num? && m < 8 && fields[m + 1].name == v))
  }

  lemma FoundHasNoQuote(s: string, key: string)
    ensures GetString(s, key).Some? ==> Without(GetString(s, key).value, '"')
  {
    var r := GetString(s, key);
    if r.Some? {
      var colon := Find(s, ":", Find(s, key, 0).value).value;
      var open := Find(s, "\"", colon).value;
      var end := Find(s, "\"", open + 1).value;
      forall j | 0 <= j < |r.value| ensures r.value[j] != '"' { CharOccurs(s, '"', open + 1 + j); }
    }
  }

  lemma {:induction false} DigitsInWidth(s: string, i: nat, val: int)
    requires i <= |s| && 0 <= val <= MAX
    ensures ReadDigits(s, i, val).Int? ==> 0 <= ReadDigits(s, i, val).value <= MAX
    decreases |s| - i
  {
    if i < |s| && IsDigit(s[i]) {
      var v := val * 10 + (s[i] as int - '0' as int);
      if v <= MAX { DigitsInWidth(s, i + 1, v); }
    }
  }

  lemma IntInWidth(s: string, key: string)
    ensures GetInt(s, key).Int? ==> -MAX <= GetInt(s, key).value <= MAX
  {
    hide ReadDigits;
    forall i | 0 <= i <= |s| ensures ReadDigits(s, i, 0).Int? ==> 0 <= ReadDigits(s, i, 0).value <= MAX {
      DigitsInWidth(s, i, 0);
    }
  }

  /** Whatever the line is, the record that is read holds no quotes, and its numbers fit. */
  lemma ReadIsPlain(s: string)
    requires ParseLine(s).Parsed?
    ensures NoQuotes(ParseLine(s).rec) && InWidth(ParseLine(s).rec)
  {
    hide GetString, GetInt;
    FoundHasNoQuote(s, Quoted("src_ip"));
    FoundHasNoQuote(s, Quoted("dst_ip"));
    FoundHasNoQuote(s, Quoted("action"));
    FoundHasNoQuote(s, Quoted("status"));
    FoundHasNoQuote(s, Quoted("username"));
    IntInWidth(s, Quoted("ts"));
    IntInWidth(s, Quoted("bytes"));
  }

  /** What is read for one name of the canonical line. */
  lemma FieldRead(r: LogRecord, k: nat)
    requires NoQuotes(r) && InWidth(r) && k < 9
    ensures var f, line := FieldsOf(r)[k], Line(FieldsOf(r));
      match f.value
      case Str(v) =>
        var g := GetString(line, Quoted(f.name));
        g.Some? && (g.value == v <==> LandsRight(r, k))
      case Num(n) =>
        var g := GetInt(line, Quoted(f.name));
        && !g.Overflow? && (g == Int(n) || (k == 7 && n == 0 && g.NoInt?) <==> LandsRight(r, k))
        && ((k == 3 || k == 4) && g.Int? ==> -0x8000_0000 <= g.value < 0x8000_0000)
  {
    hide GetString, GetInt, Line, Landing, Clean;
    var fields := FieldsOf(r);
    FieldsAreClean(r);
    NameRead(fields, k);
    LandingIs(fields, fields[k].name, k);
    var m := Landing(fields, fields[k].name);
    assert fields[m].value.Num? ==> m in {0, 3, 4, 7};
  }

  /** Reading the canonical line of a record gives the record back if and only if no string holds a quote, the numbers
    fit, and every name leads to its field or to an equal value. */
  lemma LineRoundTrip(r: LogRecord)
    ensures ParseLine(Line(FieldsOf(r))) == Parsed(r)
      <==> NoQuotes(r) && InWidth(r) && forall k :: 0 <= k < 9 ==> LandsRight(r, k)
  {
    hide GetInt, GetString, Line, LandsRight, NoQuotes;
    if NoQuotes(r) && InWidth(r) {
      FieldRead(r, 0);
      FieldRead(r, 1);
      FieldRead(r, 2);
      FieldRead(r, 3);
      FieldRead(r, 4);
      FieldRead(r, 5);
      FieldRead(r, 6);
      FieldRead(r, 7);
      FieldRead(r, 8);
    } else if ParseLine(Line(FieldsOf(r))) == Parsed(r) {
      ReadIsPlain(Line(FieldsOf(r)));
    }
  }

  lemma AvoidedLands(fields: seq<Field>, k: nat)
    requires k < |fields| && FirstNamed(fields, k)
    ensures Landing(fields, fields[k].name) == k
  {
    LandingIs(fields, fields[k].name, k);
  }

  /** In particular it does if no string is the name of a later field. */
  lemma ReadableRoundTrip(r: LogRecord)
    requires Readable(r) && InWidth(r)
    ensures ParseLine(Line(FieldsOf(r))) == Parsed(r)
  {
    hide Line, ParseLine, Landing, FirstNamed;
    var fields := FieldsOf(r);
    RecordFields(r);
    forall k | 0 <= k < 9 ensures LandsRight(r, k) {
      assert FirstNamed(fields, k);
      AvoidedLands(fields, k);
    }
    LineRoundTrip(r);
  }

  // ------------------------------------------------ lines with other fields

  /** The value of the first field with the name. */
  function ValueOf(fields: seq<Field>, name: string): (v: Option<Value>)
  {
    if fields == [] then None
    else if fields[0].name == name then Some(fields[0].value)
    else ValueOf(fields[1..], name)
  }

  ghost predicate NoNameAsValue(fields: seq<Field>) {
    forall i, n :: 0 <= i < |fields| && n in NAMES ==> fields[i].value != Str(n)
  }

  lemma {:induction false} ValueOfMeans(fields: seq<Field>, name: string)
    requires forall i :: 0 <= i < |fields| ==> fields[i].value != Str(name)
    ensures ValueOf(fields, name) == None ==> Avoids(fields, |fields|, name)
    ensures ValueOf(fields, name).Some? ==> exists k: nat ::
      k < |fields| && fields[k].name == name && FirstNamed(fields, k) && ValueOf(fields, name) == Some(fields[k].value)
  {
    if fields != [] {
      var rest := fields[1..];
      assert forall i :: 0 <= i < |rest| ==> rest[i] == fields[i + 1];
      if fields[0].name == name {
        assert FirstNamed(fields, 0);
      } else {
        ValueOfMeans(rest, name);
        if ValueOf(rest, name).Some? {
          var k: nat :| k < |rest| && rest[k].name == name && FirstNamed(rest, k) && ValueOf(rest, name) == Some(rest[k].value);
          AvoidsLift(fields, k, name);
          assert FirstNamed(fields, k + 1);
        } else {
          AvoidsLift(fields, |rest|, name);
        }
      }
    }
  }

  lemma AvoidsRest(fields: seq<Field>, name: string)
    requires fields != [] && Avoids(fields, |fields|, name)
    ensures Avoids(fields[1..], |fields| - 1, name)
  {
  }

  lemma LastTail(fields: seq<Field>)
    requires fields != [] && fields[1..] == []
    ensures Tail(fields) == FieldText(fields[0]) + "}"
  {
    hide FieldText;
    assert FieldText(fields[0]) + "" == FieldText(fields[0]);
    assert Tail(fields[1..]) == "}";
  }

  /** A quoted name that no field has, and that is no value, does not occur at all. */
  lemma {:induction false} NotInTail(fields: seq<Field>, name: string)
    requires Clean(fields) && CleanName(name) && Avoids(fields, |fields|, name)
    ensures forall j :: 0 <= j <= |Tail(fields)| ==> !At(Tail(fields), j, Quoted(name))
    decreases |fields|
  {
    hide At, FieldText, CleanName, CleanValue, Quoted;
    var s := Tail(fields);
    if fields == [] {
      forall j | 0 <= j <= |s| ensures !At(s, j, Quoted(name)) { EndOfLine(s, name, j); }
    } else {
      var f, rest := fields[0], fields[1..];
      assert f in fields;
      assert forall x :: x in rest ==> x in fields;
      if rest == [] {
        LastTail(fields);
        forall j | 0 <= j <= |s| ensures !At(s, j, Quoted(name)) {
          if j <= |FieldText(f)| { NotInField(f, "}", name, j); } else { EndOfLine(s, name, j); }
        }
      } else {
        AvoidsRest(fields, name);
        NotInTail(rest, name);
        TailInFront(rest);
        var front, behind := FieldText(f) + ",", "," + Tail(rest);
        TailSplits(fields);
        forall j | 0 <= j <= |s| ensures !At(s, j, Quoted(name)) {
          if j < |front| {
            NotInField(f, behind, name, j);
          } else {
            OccursShift(front, Tail(rest), Quoted(name), j - |front|);
          }
        }
      }
    }
  }

  lemma AbsentName(fields: seq<Field>, name: string)
    requires Clean(fields) && CleanName(name) && Avoids(fields, |fields|, name)
    ensures GetString(Line(fields), Quoted(name)) == None && GetInt(Line(fields), Quoted(name)) == NoInt
  {
    hide At, Tail, Clean, Avoids, CleanName, Find;
    var s, q := Line(fields), Quoted(name);
    NotInTail(fields, name);
    if Find(s, q, 0).Some? {
      var p := Find(s, q, 0).value;
      if p == 0 { NotAQuote(s, name, 0); } else { OccursShift("{", Tail(fields), q, p - 1); }
    }
  }

  ghost predicate IsNumber(v: Option<Value>) { v.Some? ==> v.value.Num? && -MAX <= v.value.n <= MAX }
  ghost predicate IsString(v: Option<Value>) { v.Some? ==> v.value.Str? }

  /** Each of the nine names has a value of its type, if any. */
  ghost predicate Typed(fields: seq<Field>) {
    && IsNumber(ValueOf(fields, "ts")) && IsNumber(ValueOf(fields, "bytes"))
    && IsNumber(ValueOf(fields, "src_port")) && IsNumber(ValueOf(fields, "dst_port"))
    && IsString(ValueOf(fields, "src_ip")) && IsString(ValueOf(fields, "dst_ip"))
    && IsString(ValueOf(fields, "action")) && IsString(ValueOf(fields, "status")) && IsString(ValueOf(fields, "username"))
  }

  lemma NamedValueRead(fields: seq<Field>, name: string)
    requires Clean(fields) && NoNameAsValue(fields) && name in NAMES
    ensures var s, q, v := Line(fields), Quoted(name), ValueOf(fields, name);
      && (v == None ==> GetString(s, q) == None && GetInt(s, q) == NoInt)
      && (v.Some? && v.value.Str? ==> GetString(s, q) == Some(v.value.s))
      && (v.Some? && v.value.Num? && -MAX <= v.value.n <= MAX ==> GetInt(s, q) == Int(v.value.n))
  {
    hide GetString, GetInt, Line, Clean, CleanName, Avoids;
    NamesAreClean();
    ValueOfMeans(fields, name);
    if ValueOf(fields, name) == None {
      AbsentName(fields, name);
    } else {
      var k: nat :| k < |fields| && fields[k].name == name && FirstNamed(fields, k) && ValueOf(fields, name) == Some(fields[k].value);
      ValueRead(fields, k);
    }
  }

  function StringOr(v: Option<Value>, default: string): string {
    if v.Some? && v.value.Str? then v.value.s else default
  }

  function NumberOr(v: Option<Value>, default: int): int {
    if v.Some? && v.value.Num? then v.value.n else default
  }

  lemma NamesListed()
    ensures "ts" in NAMES && "src_ip" in NAMES && "dst_ip" in NAMES && "src_port" in NAMES && "dst_port" in NAMES
    ensures "action" in NAMES && "status" in NAMES && "bytes" in NAMES && "username" in NAMES
  {
    assert NAMES[0] == "ts" && NAMES[1] == "src_ip" && NAMES[2] == "dst_ip" && NAMES[3] == "src_port";
    assert NAMES[4] == "dst_port" && NAMES[5] == "action" && NAMES[6] == "status" && NAMES[7] == "bytes";
    assert NAMES[8] == "username";
  }

  /** Any line of fields, in any order and with any others between them, as long as no string value is one of the nine
    names: the first missing one of the five fields in front is reported, the other four have defaults. */
  lemma LineOfFields(fields: seq<Field>)
    requires Clean(fields) && NoNameAsValue(fields) && Typed(fields)
    ensures ParseLine(Line(fields)) ==
      if ValueOf(fields, "ts") == None then Missing("ts")
      else if ValueOf(fields, "src_ip") == None then Missing("src_ip")
      else if ValueOf(fields, "dst_ip") == None then Missing("dst_ip")
      else if ValueOf(fields, "src_port") == None then Missing("src_port")
      else if ValueOf(fields, "dst_port") == None then Missing("dst_port")
      else
        Parsed(LogRecord(
          NumberOr(ValueOf(fields, "ts"), 0), StringOr(ValueOf(fields, "src_ip"), ""), StringOr(ValueOf(fields, "dst_ip"), ""),
          ToInt32(NumberOr(ValueOf(fields, "src_port"), 0)), ToInt32(NumberOr(ValueOf(fields, "dst_port"), 0)),
          StringOr(ValueOf(fields, "action"), "connect"), StringOr(ValueOf(fields, "status"), "ok"),
          NumberOr(ValueOf(fields, "bytes"), 0), StringOr(ValueOf(fields, "username"), "-")))
  {
    hide GetString, GetInt, Line, Clean, NoNameAsValue, ValueOf, ToInt32, Quoted;
    NamesListed();
    NamedValueRead(fields, "ts");
    NamedValueRead(fields, "src_ip");
    NamedValueRead(fields, "dst_ip");
    NamedValueRead(fields, "src_port");
    NamedValueRead(fields, "dst_port");
    NamedValueRead(fields, "action");
    NamedValueRead(fields, "status");
    NamedValueRead(fields, "bytes");
    NamedValueRead(fields, "username");
  }

  /** A port that does not fit is cut to its last 32 bits. */
  lemma PortIsCut(v: int)
    ensures -0x8000_0000 <= ToInt32(v) < 0x8000_0000 && (v - ToInt32(v)) % 0x1_0000_0000 == 0
  {
  }

  lemma OneSkipped(s: string, i: nat)
    requires i < |s| && s[i] in {' ', '\t', '\n', 11 as char, 12 as char, '\r'}
    ensures SkipWs(s, i) == SkipWs(s, i + 1)
  {
  }

  lemma {:induction false} GapSkipped(s: string, i: nat, gap: string, rest: string)
    requires i <= |s| && s[i..] == gap + rest
    requires forall x :: x in gap ==> x in {' ', '\t', '\n', 11 as char, 12 as char, '\r'}
    ensures i + |gap| <= |s| && s[i + |gap|..] == rest && SkipWs(s, i) == SkipWs(s, i + |gap|)
    decreases |gap|
  {
    if gap == [] {
      assert gap + rest == rest;
    } else {
      assert s[i] == s[i..][0] == gap[0] && gap[0] in gap;
      OneSkipped(s, i);
      hide SkipWs;
      assert s[i + 1..] == s[i..][1..] == gap[1..] + rest;
      assert forall x :: x in gap[1..] ==> x in gap;
      GapSkipped(s, i + 1, gap[1..], rest);
    }
  }

  lemma NoQuoteInGap(gap: string)
    requires forall x :: x in gap ==> x in {' ', '\t', '\n', 11 as char, 12 as char, '\r'}
    ensures forall j :: 0 <= j < |gap| ==> gap[j] != '"'
  {
    forall j | 0 <= j < |gap| ensures gap[j] != '"' { assert gap[j] in gap; }
  }

  /** A plus sign in front of the digits is passed, and without digits there is no number. */
  lemma SignsRead(s: string, i: nat, n: nat, z: string)
    requires i <= |s| && z != [] && !IsDigit(z[0])
    ensures n <= MAX && s[i..] == ['+'] + (Digits(n) + z) ==> IntAt(s, i) == Int(n)
    ensures s[i..] == z && z[0] != '-' && z[0] != '+' ==> IntAt(s, i) == NoInt
    ensures s[i..] == ['-'] + z || s[i..] == ['+'] + z ==> IntAt(s, i) == NoInt
  {
    hide ReadDigits, Digits;
    if n <= MAX && s[i..] == ['+'] + (Digits(n) + z) {
      assert s[i] == s[i..][0] == '+';
      assert s[i + 1..] == s[i..][1..] == Digits(n) + z;
      UnsignedRead(s, i + 1, n, z);
    } else if s[i..] == ['-'] + z || s[i..] == ['+'] + z {
      assert s[i] == s[i..][0];
      assert s[i + 1] == s[i..][1] == z[0];
    } else if s[i..] == z {
      assert s[i] == s[i..][0];
    }
  }

  /** White space behind the colon is skipped: an integer, or a string, further on is read. */
  lemma SpacesSkipped(s: string, key: string, from: nat, c: nat, gap: string, z: string)
    requires from <= c < |s| && Find(s, key, 0) == Some(from) && Find(s, ":", from) == Some(c)
    requires forall x :: x in gap ==> x in {' ', '\t', '\n', 11 as char, 12 as char, '\r'}
    ensures forall n: int :: -MAX <= n <= MAX && z != [] && !IsDigit(z[0]) && s[c + 1..] == gap + (ToString(n) + z) ==>
      GetInt(s, key) == Int(n)
    ensures forall v: string :: Without(v, '"') && s[c + 1..] == gap + (Quoted(v) + z) ==> GetString(s, key) == Some(v)
  {
    hide Find, ToString, IntAt, Quoted, SkipWs;
    forall n: int | -MAX <= n <= MAX && z != [] && !IsDigit(z[0]) && s[c + 1..] == gap + (ToString(n) + z)
      ensures GetInt(s, key) == Int(n)
    {
      GapSkipped(s, c + 1, gap, ToString(n) + z);
      NumberRead(s, c + 1 + |gap|, n, z);
    }
    NoQuoteInGap(gap);
    forall v: string | Without(v, '"') && s[c + 1..] == gap + (Quoted(v) + z) ensures GetString(s, key) == Some(v) {
      QuotedBehind(s, c, gap, v, z);
    }
  }
}
