/**
 The opaque paging token: a JSON text in unpadded base64url. The codec follows sections 4 and 5
 of RFC 4648; section 3.2 lets the padding be dropped, and `decode` restores it from the length.
 */
module Cursor {
  import opened Wrappers
  import opened Paging

  type Byte = b: int | 0 <= b < 256

  type Sextet = s: int | 0 <= s < 64

  /** Table 2 of RFC 4648: the URL- and filename-safe alphabet. */
  function CharOf(s: Sextet): char {
    if s < 26 then 'A' + s as char
    else if s < 52 then 'a' + (s - 26) as char
    else if s < 62 then '0' + (s - 52) as char
    else if s == 62 then '-' else '_'
  }

  function SextetOf(c: char): Option<Sextet> {
    if 'A' <= c <= 'Z' then Some((c - 'A') as int)
    else if 'a' <= c <= 'z' then Some((c - 'a') as int + 26)
    else if '0' <= c <= '9' then Some((c - '0') as int + 52)
    else if c == '-' then Some(62) else if c == '_' then Some(63) else None
  }

  lemma AlphabetRoundTrip(s: Sextet)
    ensures SextetOf(CharOf(s)) == Some(s) && CharOf(s) != '='
  {
  }

  /** Three bytes as four characters. */
  function EncodeGroup(x: Byte, y: Byte, z: Byte): (t: string)
    ensures |t| == 4
  {
    [CharOf(x / 4), CharOf(x % 4 * 16 + y / 16), CharOf(y % 16 * 4 + z / 64), CharOf(z % 64)]
  }

  /** A last group of one or two bytes is encoded as if followed by zeros, with padding for the characters unused. */
  function Encode(bytes: seq<Byte>): string {
    if bytes == [] then ""
    else if |bytes| == 1 then EncodeGroup(bytes[0], 0, 0)[..2] + "=="
    else if |bytes| == 2 then EncodeGroup(bytes[0], bytes[1], 0)[..3] + "="
    else EncodeGroup(bytes[0], bytes[1], bytes[2]) + Encode(bytes[3..])
  }

  function Three(a: Sextet, b: Sextet, c: Sextet, d: Sextet): seq<Byte> {
    [a * 4 + b / 16, b % 16 * 16 + c / 4, c % 4 * 64 + d]
  }

  /** Four characters of the alphabet as three bytes. */
  function DecodeGroup(t: string): (r: Option<seq<Byte>>)
    requires |t| == 4
    ensures r.Some? ==> |r.value| == 3
  {
    var a, b, c, d := SextetOf(t[0]), SextetOf(t[1]), SextetOf(t[2]), SextetOf(t[3]);
    if a.None? || b.None? || c.None? || d.None? then None else Some(Three(a.value, b.value, c.value, d.value))
  }

  /** Groups of four; padding only in the last one, standing for the zeros left out. */
  function Decode(text: string): Option<seq<Byte>> {
    if text == "" then Some([])
    else if |text| < 4 then None
    else if |text| == 4 && text[3] == '=' then
      var kept := if text[2] == '=' then 1 else 2;
      match DecodeGroup(text[..kept + 1] + (if kept == 1 then "AA" else "A"))
      case None => None
      case Some(bytes) => Some(bytes[..kept])
    else
      match (DecodeGroup(text[..4]), Decode(text[4..]))
      case (Some(bytes), Some(rest)) => Some(bytes + rest)
      case _ => None
  }

  /** `rstrip("=")`. */
  function Strip(text: string): string {
    if text != "" && text[|text| - 1] == '=' then Strip(text[..|text| - 1]) else text
  }

  /** `"=" * (-len(token) % 4)`. */
  function Pad(token: string): string {
    token + seq((-|token|) % 4, i => '=')
  }

  // ---------------------------------------------------------------------------
  // Base64
  // ---------------------------------------------------------------------------

  /** A byte split into its high six and low two bits. */
  lemma HighSix(x: Byte)
    ensures 0 <= x / 4 < 64 && 0 <= x % 4 < 4 && x / 4 * 4 + x % 4 == x
  {
  }

  lemma HighFour(y: Byte)
    ensures 0 <= y / 16 < 16 && 0 <= y % 16 < 16 && y / 16 * 16 + y % 16 == y
  {
  }

  lemma HighTwo(z: Byte)
    ensures 0 <= z / 64 < 4 && 0 <= z % 64 < 64 && z / 64 * 64 + z % 64 == z
  {
  }

  /** Two low bits and four high ones share the second character. */
  lemma SecondSextet(low: int, high: int)
    requires 0 <= low < 4 && 0 <= high < 16
    ensures 0 <= low * 16 + high < 64 && (low * 16 + high) / 16 == low && (low * 16 + high) % 16 == high
  {
  }

  /** Four low bits and two high ones share the third. */
  lemma ThirdSextet(low: int, high: int)
    requires 0 <= low < 16 && 0 <= high < 4
    ensures 0 <= low * 4 + high < 64 && (low * 4 + high) / 4 == low && (low * 4 + high) % 4 == high
  {
  }

  /** The four sextets of three bytes give the bytes back. */
  lemma SextetsCarry(x: Byte, y: Byte, z: Byte)
    ensures var b, c := x % 4 * 16 + y / 16, y % 16 * 4 + z / 64;
            0 <= b < 64 && 0 <= c < 64 && Three(x / 4, b, c, z % 64) == [x, y, z]
  {
    HighSix(x);
    HighFour(y);
    HighTwo(z);
    SecondSextet(x % 4, y / 16);
    ThirdSextet(y % 16, z / 64);
  }

  lemma DecodeChars(a: Sextet, b: Sextet, c: Sextet, d: Sextet)
    ensures DecodeGroup([CharOf(a), CharOf(b), CharOf(c), CharOf(d)]) == Some(Three(a, b, c, d))
    ensures CharOf(a) != '=' && CharOf(b) != '=' && CharOf(c) != '=' && CharOf(d) != '='
  {
    AlphabetRoundTrip(a);
    AlphabetRoundTrip(b);
    AlphabetRoundTrip(c);
    AlphabetRoundTrip(d);
  }

  /** The sextets a group is made of, and the bytes they carry. */
  lemma SextetsOf(x: Byte, y: Byte, z: Byte) returns (a: Sextet, b: Sextet, c: Sextet, d: Sextet)
    ensures EncodeGroup(x, y, z) == [CharOf(a), CharOf(b), CharOf(c), CharOf(d)]
    ensures Three(a, b, c, d) == [x, y, z]
  {
    SextetsCarry(x, y, z);
    a, b, c, d := x / 4, x % 4 * 16 + y / 16, y % 16 * 4 + z / 64, z % 64;
  }

  lemma CharsRoundTrip(t: string, bytes: seq<Byte>, a: Sextet, b: Sextet, c: Sextet, d: Sextet)
    requires t == [CharOf(a), CharOf(b), CharOf(c), CharOf(d)] && Three(a, b, c, d) == bytes
    ensures DecodeGroup(t) == Some(bytes)
    ensures forall i :: 0 <= i < 4 ==> t[i] != '='
  {
    DecodeChars(a, b, c, d);
  }

  /** A group carries its three bytes, in alphabet characters. */
  lemma GroupRoundTrip(x: Byte, y: Byte, z: Byte)
    ensures DecodeGroup(EncodeGroup(x, y, z)) == Some([x, y, z])
    ensures forall i :: 0 <= i < 4 ==> EncodeGroup(x, y, z)[i] != '='
  {
    var a, b, c, d := SextetsOf(x, y, z);
    CharsRoundTrip(EncodeGroup(x, y, z), [x, y, z], a, b, c, d);
  }

  /** The characters that stand only for missing bytes are 'A's. */
  lemma ZeroBytes(x: Byte, y: Byte)
    ensures EncodeGroup(x, y, 0)[3] == 'A'
    ensures EncodeGroup(x, 0, 0)[2] == 'A'
  {
  }

  lemma DecodeOne(x: Byte)
    ensures Decode(Encode([x])) == Some([x])
  {
    GroupRoundTrip(x, 0, 0);
    ZeroBytes(x, 0);
    var t := Encode([x]);
    assert t[..2] + "AA" == EncodeGroup(x, 0, 0);
    assert [x, 0, 0][..1] == [x];
  }

  lemma DecodeTwo(x: Byte, y: Byte)
    ensures Decode(Encode([x, y])) == Some([x, y])
  {
    GroupRoundTrip(x, y, 0);
    ZeroBytes(x, y);
    var t := Encode([x, y]);
    assert t[..3] + "A" == EncodeGroup(x, y, 0);
    assert [x, y, 0][..2] == [x, y];
  }

  lemma DecodeMore(group: string, bytes: seq<Byte>, text: string)
    requires |group| == 4 && group[3] != '=' && DecodeGroup(group) == Some(bytes)
    ensures Decode(group + text) ==
            match Decode(text) case None => None case Some(rest) => Some(bytes + rest)
  {
    assert (group + text)[..4] == group && (group + text)[4..] == text;
  }

  lemma DecodeLast(bytes: seq<Byte>)
    requires 1 <= |bytes| <= 2
    ensures Decode(Encode(bytes)) == Some(bytes)
  {
    if |bytes| == 1 {
      assert bytes == [bytes[0]];
      DecodeOne(bytes[0]);
    } else {
      assert bytes == [bytes[0], bytes[1]];
      DecodeTwo(bytes[0], bytes[1]);
    }
  }

  lemma DecodeFirst(bytes: seq<Byte>, group: string, text: string)
    requires |bytes| >= 3 && |group| == 4 && group[3] != '='
    requires DecodeGroup(group) == Some([bytes[0], bytes[1], bytes[2]]) && Decode(text) == Some(bytes[3..])
    ensures Decode(group + text) == Some(bytes)
  {
    DecodeMore(group, [bytes[0], bytes[1], bytes[2]], text);
    assert [bytes[0], bytes[1], bytes[2]] + bytes[3..] == bytes;
  }

  lemma EncodeFirst(bytes: seq<Byte>)
    requires |bytes| >= 3
    ensures Encode(bytes) == EncodeGroup(bytes[0], bytes[1], bytes[2]) + Encode(bytes[3..])
  {
  }

  lemma {:induction false} DecodeUndoesEncode(bytes: seq<Byte>)
    ensures Decode(Encode(bytes)) == Some(bytes)
    decreases |bytes|
  {
    if 1 <= |bytes| <= 2 {
      DecodeLast(bytes);
    } else if |bytes| >= 3 {
      DecodeUndoesEncode(bytes[3..]);
      GroupRoundTrip(bytes[0], bytes[1], bytes[2]);
      DecodeFirst(bytes, EncodeGroup(bytes[0], bytes[1], bytes[2]), Encode(bytes[3..]));
      EncodeFirst(bytes);
    }
  }

  /** The test vectors of section 10 of RFC 4648 that are the same in both alphabets, and one with the last two characters of this one. */
  lemma TestVectors()
    ensures Encode([102]) == "Zg==" && Encode([102, 111]) == "Zm8=" && Encode([102, 111, 111]) == "Zm9v"
    ensures Encode([102, 111, 111, 98]) == "Zm9vYg==" && Encode([102, 111, 111, 98, 97]) == "Zm9vYmE="
    ensures Encode([102, 111, 111, 98, 97, 114]) == "Zm9vYmFy"
    ensures Encode([251, 255, 191]) == "-_-_"
  {
    assert [102, 111, 111, 98][3..] == [98];
    assert [102, 111, 111, 98, 97][3..] == [98, 97];
    assert [102, 111, 111, 98, 97, 114][3..] == [98, 97, 114] && [98, 97, 114][3..] == [];
    assert [102, 111, 111][3..] == [] && [251, 255, 191][3..] == [];
  }

  /** How many padding characters the length calls for. */
  function Padding(n: nat): nat {
    if n % 3 == 0 then 0 else 3 - n % 3
  }

  /** The text is a run of alphabet characters and 0, 1 or 2 padding ones, whole groups in all. */
  ghost predicate Shaped(text: string, body: string, padding: nat, groups: nat) {
    && text == body + seq(padding, i => '=')
    && (forall i :: 0 <= i < |body| ==> body[i] != '=')
    && |body| + padding == 4 * groups
  }

  lemma ShapeMore(group: string, text: string, body: string, padding: nat, groups: nat)
    requires |group| == 4 && (forall i :: 0 <= i < 4 ==> group[i] != '=') && Shaped(text, body, padding, groups)
    ensures Shaped(group + text, group + body, padding, groups + 1)
  {
  }

  lemma ShapeOfLast(bytes: seq<Byte>) returns (body: string)
    requires 1 <= |bytes| <= 2
    ensures Shaped(Encode(bytes), body, 3 - |bytes|, 1)
  {
    if |bytes| == 1 {
      GroupRoundTrip(bytes[0], 0, 0);
      body := EncodeGroup(bytes[0], 0, 0)[..2];
    } else {
      GroupRoundTrip(bytes[0], bytes[1], 0);
      body := EncodeGroup(bytes[0], bytes[1], 0)[..3];
    }
  }

  lemma PaddingRepeats(n: nat)
    requires n >= 3
    ensures Padding(n - 3) == Padding(n)
  {
  }

  lemma {:induction false} EncodedShape(bytes: seq<Byte>) returns (body: string, groups: nat)
    ensures Shaped(Encode(bytes), body, Padding(|bytes|), groups)
    decreases |bytes|
  {
    if |bytes| == 0 {
      body, groups := "", 0;
    } else if |bytes| <= 2 {
      body := ShapeOfLast(bytes);
      groups := 1;
    } else {
      var group := EncodeGroup(bytes[0], bytes[1], bytes[2]);
      GroupRoundTrip(bytes[0], bytes[1], bytes[2]);
      body, groups := EncodedShape(bytes[3..]);
      PaddingRepeats(|bytes|);
      ShapeMore(group, Encode(bytes[3..]), body, Padding(|bytes|), groups);
      body, groups := group + body, groups + 1;
    }
  }

  lemma {:induction false} StripPadding(body: string, padding: nat)
    requires body == "" || body[|body| - 1] != '='
    ensures Strip(body + seq(padding, i => '=')) == body
  {
    var text := body + seq(padding, i => '=');
    if padding > 0 {
      assert text[..|text| - 1] == body + seq(padding - 1, i => '=');
      StripPadding(body, padding - 1);
    } else {
      assert text == body;
    }
  }

  lemma PaddingFromLength(length: int, padding: int, groups: int)
    requires length + padding == 4 * groups && 0 <= padding < 3
    ensures (-length) % 4 == padding
  {
    assert -length == padding + 4 * (-groups);
  }

  lemma PadAfterStrip(text: string, body: string, padding: nat, groups: nat)
    requires Shaped(text, body, padding, groups) && padding < 3
    ensures Pad(Strip(text)) == text
  {
    StripPadding(body, padding);
    PaddingFromLength(|body|, padding, groups);
  }

  /** Dropping the padding and restoring it from the length gives the same text, for every byte length. */
  lemma PadUndoesStrip(bytes: seq<Byte>)
    ensures Pad(Strip(Encode(bytes))) == Encode(bytes)
  {
    var body, groups := EncodedShape(bytes);
    PadAfterStrip(Encode(bytes), body, Padding(|bytes|), groups);
  }

  // ---------------------------------------------------------------------------
  // The cursor
  // ---------------------------------------------------------------------------

  /** The JSON layer: a printer of cursors and the parser that reads its texts back. */
  datatype JsonLayer = JsonLayer(printer: PageCursor -> seq<Byte>, parse: seq<Byte> -> Option<PageCursor>)

  ghost predicate ReadsItsOwn(json: JsonLayer) {
    forall c :: json.parse(json.printer(c)) == Some(c)
  }

  datatype CursorError = Malformed

  function EncodeCursor(json: JsonLayer, c: PageCursor): string {
    Strip(Encode(json.printer(c)))
  }

  function DecodeCursor(json: JsonLayer, token: string): Result<PageCursor, CursorError> {
    match Decode(Pad(token))
    case None => Err(Malformed)
    case Some(bytes) =>
      match json.parse(bytes)
      case None => Err(Malformed)
      case Some(c) => Ok(c)
  }

  /** Every cursor survives the trip through a client, and its token is its own. */
  lemma CursorRoundTrip(json: JsonLayer, c: PageCursor, other: PageCursor)
    requires ReadsItsOwn(json)
    ensures DecodeCursor(json, EncodeCursor(json, c)) == Ok(c)
    ensures EncodeCursor(json, c) == EncodeCursor(json, other) ==> c == other
  {
    PadUndoesStrip(json.printer(c));
    DecodeUndoesEncode(json.printer(c));
    PadUndoesStrip(json.printer(other));
    DecodeUndoesEncode(json.printer(other));
    assert json.parse(json.printer(c)) == Some(c) && json.parse(json.printer(other)) == Some(other);
  }
}
