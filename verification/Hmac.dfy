/** HMAC-SHA-256 as RFC 2104, section 2, defines it, and the two copies of it in the program. */
module Hmac {
  import opened Common
  import opened Sha256Spec
  import opened Sha256Stream

  const IPAD: Byte := 0x36
  const OPAD: Byte := 0x5c

  function XorAll(s: seq<Byte>, pad: Byte): (r: seq<Byte>)
    ensures |r| == |s|
  {
    seq(|s|, i requires 0 <= i < |s| => XorByte(s[i], pad))
  }

  /** The key, hashed when longer than a block, and padded with zeros to a block. */
  function KeyBlock(key: seq<Byte>): (r: seq<Byte>)
    ensures |r| == BLOCK
  {
    var short := if |key| > BLOCK then Digest(key) else key;
    short + Zeros(BLOCK - |short|)
  }

  function Mac(key: seq<Byte>, text: seq<Byte>): (r: seq<Byte>)
    ensures |r| == 32
  {
    Digest(XorAll(KeyBlock(key), OPAD) + Digest(XorAll(KeyBlock(key), IPAD) + text))
  }

  /** Section 2 of RFC 2104, byte by byte: the block is the key, or its digest if it is longer than 64 bytes, followed by
    zeros; the inner text begins with the block xor 0x36, the outer one with the block xor 0x5c. */
  lemma MacMeans(key: seq<Byte>, text: seq<Byte>, block: seq<Byte>, inner: seq<Byte>, outer: seq<Byte>)
    requires |block| == 64 && |inner| == 64 && |outer| == 64
    requires var short := if |key| > 64 then Digest(key) else key;
      forall i :: 0 <= i < 64 ==> block[i] == if i < |short| then short[i] else 0
    requires forall i :: 0 <= i < 64 ==> inner[i] == ((block[i] as bv8) ^ 0x36) as Byte
    requires forall i :: 0 <= i < 64 ==> outer[i] == ((block[i] as bv8) ^ 0x5c) as Byte
    ensures Mac(key, text) == Digest(outer + Digest(inner + text))
  {
    hide Digest;
    assert block == KeyBlock(key);
    assert inner == XorAll(block, IPAD);
    assert outer == XorAll(block, OPAD);
  }

  // ------------------------------------------------------------ hexadecimal

  const DIGITS: string := "0123456789abcdef"

  function HexByte(b: Byte): (r: string)
    ensures |r| == 2
  {
    [DIGITS[b as int / 16 % 16], DIGITS[b as int % 16]]
  }

  function Hex(s: seq<Byte>): (r: string)
    ensures |r| == 2 * |s|
  {
    if s == [] then [] else Hex(s[..|s| - 1]) + HexByte(s[|s| - 1])
  }

  function DigitValue(c: char): int {
    if '0' <= c <= '9' then c as int - '0' as int else c as int - 'a' as int + 10
  }

  function UnHex(r: string): seq<int> {
    if |r| < 2 then [] else UnHex(r[..|r| - 2]) + [16 * DigitValue(r[|r| - 2]) + DigitValue(r[|r| - 1])]
  }

  lemma DigitsDecode(n: nat)
    requires n < 16
    ensures DigitValue(DIGITS[n]) == n
  {
    assert DIGITS[0..10] == "0123456789" && DIGITS[10..] == "abcdef";
  }

  lemma HexByteDecodes(b: Byte)
    ensures 16 * DigitValue(HexByte(b)[0]) + DigitValue(HexByte(b)[1]) == b as int
  {
    DigitsDecode(b as int / 16 % 16);
    DigitsDecode(b as int % 16);
  }

  /** The hexadecimal form determines the bytes. */
  lemma {:induction false} HexDecodes(s: seq<Byte>)
    ensures |UnHex(Hex(s))| == |s|
    ensures forall i :: 0 <= i < |s| ==> UnHex(Hex(s))[i] == s[i] as int
  {
    hide HexByte, DigitValue;
    if s != [] {
      var front, last := s[..|s| - 1], s[|s| - 1];
      HexDecodes(front);
      var r := Hex(s);
      assert r[..|r| - 2] == Hex(front) && r[|r| - 2..] == HexByte(last);
      assert r[|r| - 2] == r[|r| - 2..][0] && r[|r| - 1] == r[|r| - 2..][1];
      HexByteDecodes(last);
    }
  }

  // ------------------------------------------------------------ the program

  /** Hashing a list of chunks one update at a time gives the digest of their concatenation. */
  function Concat(chunks: seq<seq<Byte>>): seq<Byte> {
    if chunks == [] then [] else Concat(chunks[..|chunks| - 1]) + chunks[|chunks| - 1]
  }

  method HashChunks(chunks: seq<seq<Byte>>) returns (digest: seq<Byte>)
    ensures digest == Digest(Concat(chunks))
  {
    hide Digest, Chain, Full, Rest, Sha256.Holds;
    var hasher := new Sha256();
    hasher.Init();
    for i := 0 to |chunks|
      invariant hasher.Valid() && hasher.absorbed == Concat(chunks[..i])
      invariant fresh(hasher) && fresh(hasher.h) && fresh(hasher.buf)
    {
      assert chunks[..i + 1][..i] == chunks[..i];
      hasher.Update(chunks[i]);
    }
    assert chunks[..|chunks|] == chunks;
    var out := new Byte[32];
    hasher.Final(out);
    digest := out[..];
  }

  /** A hasher taken from `init` over the given updates to `final`. */
  method HashTwo(first: seq<Byte>, second: seq<Byte>) returns (out: array<Byte>)
    ensures fresh(out) && out.Length == 32 && out[..] == Digest(first + second)
  {
    hide Digest, Chain, Full, Rest, Sha256.Holds;
    var hasher := new Sha256();
    hasher.Init();
    hasher.Update(first);
    hasher.Update(second);
    out := new Byte[32];
    hasher.Final(out);
    assert [] + first + second == first + second;
  }

  method CopyInto(k: array<Byte>, bytes: seq<Byte>)
    requires |bytes| <= k.Length
    modifies k
    ensures k[..] == bytes + old(k[..])[|bytes|..]
  {
    for i := 0 to |bytes|
      invariant forall j :: 0 <= j < i ==> k[j] == bytes[j]
      invariant forall j :: i <= j < k.Length ==> k[j] == old(k[j])
    {
      k[i] := bytes[i];
    }
  }

  /** A fresh 64-byte buffer with the key, hashed first when it is longer than a block. */
  method LoadKey(key: seq<Byte>) returns (k: array<Byte>)
    ensures fresh(k) && k.Length == BLOCK && k[..] == KeyBlock(key)
  {
    hide Digest;
    k := new Byte[BLOCK](_ => 0);
    assert k[..] == Zeros(BLOCK);
    if |key| > BLOCK {
      var kh := HashTwo(key, []);
      assert key + [] == key;
      CopyInto(k, kh[..]);
      assert Zeros(BLOCK)[32..] == Zeros(32);
    } else {
      CopyInto(k, key);
      assert Zeros(BLOCK)[|key|..] == Zeros(BLOCK - |key|);
    }
  }

  lemma XorCommutes(x: Byte, y: Byte)
    ensures XorByte(x, y) == XorByte(y, x)
  {
  }

  /** The hexadecimal digits written pair by pair into a string. */
  method ToHex(bytes: array<Byte>) returns (out: string)
    ensures out == Hex(bytes[..])
  {
    out := "";
    for i := 0 to bytes.Length
      invariant out == Hex(bytes[..i])
    {
      assert bytes[..i + 1][..i] == bytes[..i];
      out := out + [DIGITS[bytes[i] as int / 16 % 16], DIGITS[bytes[i] as int % 16]];
    }
    assert bytes[..bytes.Length] == bytes[..];
  }

  /** The library function: pads first, then folds the key into them. */
  method HmacSha256Hex(key: seq<Byte>, msg: seq<Byte>) returns (out: string)
    ensures out == Hex(Mac(key, msg))
  {
    hide Digest, KeyBlock, XorByte, Hex;
    var k := LoadKey(key);
    var ipad, opad := new Byte[BLOCK](_ => IPAD), new Byte[BLOCK](_ => OPAD);
    for i := 0 to BLOCK
      invariant k[..] == KeyBlock(key)
      invariant forall j :: 0 <= j < i ==> ipad[j] == XorByte(k[j], IPAD) && opad[j] == XorByte(k[j], OPAD)
      invariant forall j :: i <= j < BLOCK ==> ipad[j] == IPAD && opad[j] == OPAD
    {
      XorCommutes(ipad[i], k[i]);
      XorCommutes(opad[i], k[i]);
      ipad[i] := XorByte(ipad[i], k[i]);
      opad[i] := XorByte(opad[i], k[i]);
    }
    assert ipad[..] == XorAll(KeyBlock(key), IPAD) && opad[..] == XorAll(KeyBlock(key), OPAD);
    var ih := HashTwo(ipad[..], msg);
    var oh := HashTwo(opad[..], ih[..]);
    out := ToHex(oh);
  }

  // ------------------------------------------------------------ the record

  function Ascii(s: string): (r: seq<Byte>)
    ensures |r| == |s|
  {
    seq(|s|, i requires 0 <= i < |s| => (s[i] as int % 256) as Byte)
  }

  const BRACE: Byte := 125
  const NEWLINE: Byte := 10

  /** rfind of the closing brace: its position, or -1. */
  function LastBrace(text: seq<Byte>): (p: int)
    ensures -1 <= p < |text|
    ensures p >= 0 ==> text[p] == BRACE
    ensures forall j :: p < j < |text| ==> text[j] != BRACE
  {
    if text == [] then -1
    else if text[|text| - 1] == BRACE then |text| - 1
    else LastBrace(text[..|text| - 1])
  }

  function Chomp(text: seq<Byte>): seq<Byte> {
    if text != [] && text[|text| - 1] == NEWLINE then text[..|text| - 1] else text
  }

  predicate IsJson(format: string) { format == "json" || format == "ndjson" }

  /** What stands in front of the code and behind it. The line formats end in a backslash and an `n`. */
  function Front(format: string): seq<Byte> {
    Ascii(if IsJson(format) then ",\"hmac\":\"" else if format == "csv" then "," else " hmac=")
  }

  function Behind(format: string): seq<Byte> {
    Ascii(if IsJson(format) then "\"" else "\\n")
  }

  /** The record with the code. A JSON record without a closing brace stays as it is. */
  function Signed(format: string, text: seq<Byte>, code: seq<Byte>): seq<Byte> {
    var field := Front(format) + code + Behind(format);
    if IsJson(format) then
      var p := LastBrace(text);
      if p < 0 then text else text[..p] + field + text[p..]
    else Chomp(text) + field
  }

  /** The text around a field that ends at position end, and the 64 digits in it. */
  function Cut(record: seq<Byte>, end: nat, front: nat, behind: nat): Option<(seq<Byte>, seq<Byte>)>
    requires end <= |record|
  {
    var n := front + 64 + behind;
    if end < n then None
    else Some((record[..end - n] + record[end..], record[end - behind - 64..end - behind]))
  }

  /** What a receiver takes for the record and the code. */
  function Unsigned(format: string, record: seq<Byte>): Option<(seq<Byte>, seq<Byte>)> {
    var end := if IsJson(format) then LastBrace(record) else |record|;
    if end < 0 then None else Cut(record, end, |Front(format)|, |Behind(format)|)
  }

  lemma LastBraceIs(text: seq<Byte>, p: nat)
    requires p < |text| && text[p] == BRACE && forall j :: p < j < |text| ==> text[j] != BRACE
    ensures LastBrace(text) == p
  {
  }

  lemma CutBack(a: seq<Byte>, front: seq<Byte>, code: seq<Byte>, behind: seq<Byte>, b: seq<Byte>)
    requires |code| == 64
    ensures var end := |a| + |front| + 64 + |behind|;
      Cut(a + (front + code + behind) + b, end, |front|, |behind|) == Some((a + b, code))
  {
    var r, end := a + (front + code + behind) + b, |a| + |front| + 64 + |behind|;
    assert r[..|a|] == a;
    assert r[end..] == b;
    assert r[|a| + |front|..|a| + |front| + 64] == code;
  }

  lemma LineReadsBack(format: string, text: seq<Byte>, code: seq<Byte>)
    requires |code| == 64 && !IsJson(format)
    ensures Unsigned(format, Signed(format, text, code)) == Some((Chomp(text), code))
  {
    hide Cut, Front, Behind, Chomp;
    var front, behind, t := Front(format), Behind(format), Chomp(text);
    CutBack(t, front, code, behind, []);
    assert t + (front + code + behind) + [] == t + (front + code + behind);
    assert t + [] == t;
  }

  /** The last brace of a text that begins with it stays the last one behind any other. */
  lemma BraceMoves(a: seq<Byte>, b: seq<Byte>)
    requires b != [] && b[0] == BRACE && forall j :: 0 < j < |b| ==> b[j] != BRACE
    ensures LastBrace(a + b) == |a|
  {
    LastBraceIs(a + b, |a|);
  }

  lemma SplitAtBrace(text: seq<Byte>)
    requires LastBrace(text) >= 0
    ensures var p := LastBrace(text);
      var b := text[p..];
      text[..p] + b == text && b != [] && b[0] == BRACE && forall j :: 0 < j < |b| ==> b[j] != BRACE
  {
    hide LastBrace;
  }

  lemma FieldReadsBack(a: seq<Byte>, format: string, code: seq<Byte>, b: seq<Byte>)
    requires |code| == 64 && IsJson(format)
    requires b != [] && b[0] == BRACE && forall j :: 0 < j < |b| ==> b[j] != BRACE
    ensures Unsigned(format, a + (Front(format) + code + Behind(format)) + b) == Some((a + b, code))
  {
    hide Cut, Front, Behind, LastBrace;
    CutBack(a, Front(format), code, Behind(format), b);
    BraceMoves(a + (Front(format) + code + Behind(format)), b);
  }

  lemma JsonReadsBack(format: string, text: seq<Byte>, code: seq<Byte>)
    requires |code| == 64 && IsJson(format) && LastBrace(text) >= 0
    ensures Unsigned(format, Signed(format, text, code)) == Some((text, code))
  {
    hide Unsigned, Front, Behind, LastBrace;
    SplitAtBrace(text);
    FieldReadsBack(text[..LastBrace(text)], format, code, text[LastBrace(text)..]);
  }

  /** The receiver gets back the code and the text over which it was made, up to a final newline of a line format. A
    record without a closing brace, of a JSON format, carries no code. */
  lemma SignedReadsBack(format: string, text: seq<Byte>, code: seq<Byte>)
    requires |code| == 64
    ensures !IsJson(format) ==> Unsigned(format, Signed(format, text, code)) == Some((Chomp(text), code))
    ensures IsJson(format) && LastBrace(text) >= 0 ==>
      Unsigned(format, Signed(format, text, code)) == Some((text, code))
    ensures IsJson(format) && LastBrace(text) < 0 ==> Signed(format, text, code) == text
  {
    hide Unsigned, LastBrace;
    if !IsJson(format) {
      LineReadsBack(format, text, code);
    } else if LastBrace(text) >= 0 {
      JsonReadsBack(format, text, code);
    }
  }

  lemma SignedJson(format: string, a: seq<Byte>, b: seq<Byte>, code: seq<Byte>)
    requires BRACE !in b && (format == "json" || format == "ndjson")
    ensures Signed(format, a + [BRACE] + b, code) == a + (Ascii(",\"hmac\":\"") + code + Ascii("\"")) + ([BRACE] + b)
  {
    hide LastBrace, Ascii;
    var tail := [BRACE] + b;
    assert a + [BRACE] + b == a + tail;
    BraceMoves(a, tail);
    assert (a + tail)[..|a|] == a && (a + tail)[|a|..] == tail;
  }

  lemma SignedLine(format: string, a: seq<Byte>, code: seq<Byte>)
    ensures format == "csv" ==> Signed(format, a, code) == Chomp(a) + (Ascii(",") + code + Ascii("\\n"))
    ensures format !in {"json", "ndjson", "csv"} ==>
      Signed(format, a, code) == Chomp(a) + (Ascii(" hmac=") + code + Ascii("\\n"))
  {
    hide LastBrace, Ascii, Chomp;
  }

  /** A final newline, the byte 10, is cut off, and nothing else. */
  lemma ChompMeans(a: seq<Byte>)
    ensures Chomp(a + [10]) == a && Chomp([]) == [] && (a != [] && a[|a| - 1] != 10 ==> Chomp(a) == a)
  {
    assert (a + [10])[..|a|] == a;
  }

  /** The texts that carry the code, written out; 125 is the closing brace. */
  lemma SignedTexts(format: string, a: seq<Byte>, b: seq<Byte>, code: seq<Byte>)
    requires 125 !in b
    ensures format == "json" || format == "ndjson" ==>
      Signed(format, a + [125] + b, code) == a + (Ascii(",\"hmac\":\"") + code + Ascii("\"")) + ([125] + b)
    ensures format == "csv" ==> Signed(format, a, code) == Chomp(a) + (Ascii(",") + code + Ascii("\\n"))
    ensures format !in {"json", "ndjson", "csv"} ==>
      Signed(format, a, code) == Chomp(a) + (Ascii(" hmac=") + code + Ascii("\\n"))
  {
    hide Signed, Ascii, Chomp;
    if format == "json" || format == "ndjson" { SignedJson(format, a, b, code); }
    SignedLine(format, a, code);
  }

  /** The copy inside the record writer: folds the key into the pads as it makes them, and writes the
    code into the record. Without a secret it does nothing. */
  method RecordHmac(enabled: bool, secret: seq<Byte>, format: string, text: seq<Byte>) returns (record: seq<Byte>)
    ensures record == if enabled && secret != [] then Signed(format, text, Ascii(Hex(Mac(secret, text)))) else text
  {
    hide Digest, KeyBlock, XorByte, Hex, Ascii, Front, Behind;
    if !enabled || secret == [] {
      return text;
    }
    var key := LoadKey(secret);
    var ipad, opad := new Byte[64], new Byte[64];
    for i := 0 to 64
      invariant key[..] == KeyBlock(secret)
      invariant forall j :: 0 <= j < i ==> ipad[j] == XorByte(key[j], 0x36) && opad[j] == XorByte(key[j], 0x5c)
    {
      ipad[i] := XorByte(key[i], 0x36);
      opad[i] := XorByte(key[i], 0x5c);
    }
    assert ipad[..] == XorAll(KeyBlock(secret), IPAD) && opad[..] == XorAll(KeyBlock(secret), OPAD);
    var inner := HashTwo(ipad[..], text);
    var hv := HashTwo(opad[..], inner[..]);
    var hx := ToHex(hv);
    var field := Front(format) + Ascii(hx) + Behind(format);
    if IsJson(format) {
      var pos := LastBrace(text);
      record := if pos >= 0 then text[..pos] + field + text[pos..] else text;
    } else {
      record := text;
      if record != [] && record[|record| - 1] == NEWLINE { record := record[..|record| - 1]; }
      record := record + field;
    }
  }
}
