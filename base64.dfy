/**
 * `Buffer.prototype.toString("base64")`: the base 64 encoding of section 4 of
 * RFC 4648 (alphabet `A-Z a-z 0-9 + /`, `=` padding), and the `data:` URL of
 * section 2 of RFC 2397 that the event route stores as the event image.
 * The decoder is the strict inverse the encoding promises (canonical padding
 * bits, no whitespace); the route handler itself only encodes.
 */
module Base64 {
  import opened Wrappers
  import opened Text

  type Byte = x: nat | x < 256

  /** Table 1 of RFC 4648: the character for a 6-bit value. */
  function SextetChar(v: nat): (c: char)
    requires v < 64
    ensures c != '='
  {
    if v < 26 then ('A' as int + v) as char
    else if v < 52 then ('a' as int + (v - 26)) as char
    else if v < 62 then ('0' as int + (v - 52)) as char
    else if v == 62 then '+'
    else '/'
  }

  /** The 6-bit value of an alphabet character; `None` for any other character, `=` included. */
  function SextetValue(c: char): (o: Option<nat>)
    ensures o.Some? ==> o.value < 64
  {
    if 'A' <= c <= 'Z' then Some(c as int - 'A' as int)
    else if 'a' <= c <= 'z' then Some(c as int - 'a' as int + 26)
    else if '0' <= c <= '9' then Some(c as int - '0' as int + 52)
    else if c == '+' then Some(62)
    else if c == '/' then Some(63)
    else None
  }

  lemma SextetReadsBack(v: nat)
    requires v < 64
    ensures SextetValue(SextetChar(v)) == Some(v)
  {
  }

  lemma SextetPrintsBack(c: char)
    requires SextetValue(c).Some?
    ensures SextetChar(SextetValue(c).value) == c
  {
  }

  /** Three bytes make four characters (section 4: 24 bits as four 6-bit groups). */
  function EncodeGroup(a: Byte, b: Byte, c: Byte): (r: string)
    ensures |r| == 4
  {
    [SextetChar(a / 4), SextetChar(a % 4 * 16 + b / 16), SextetChar(b % 16 * 4 + c / 64), SextetChar(c % 64)]
  }

  /** A final single byte: two characters and `==`. */
  function EncodeOne(a: Byte): (r: string)
    ensures |r| == 4
  {
    [SextetChar(a / 4), SextetChar(a % 4 * 16), '=', '=']
  }

  /** A final pair of bytes: three characters and `=`. */
  function EncodeTwo(a: Byte, b: Byte): (r: string)
    ensures |r| == 4
  {
    [SextetChar(a / 4), SextetChar(a % 4 * 16 + b / 16), SextetChar(b % 16 * 4), '=']
  }

  /** `Buffer.from(bytes).toString("base64")`. */
  function Encode(bytes: seq<Byte>): (r: string)
    ensures |r| == (|bytes| + 2) / 3 * 4
  {
    if |bytes| == 0 then ""
    else if |bytes| == 1 then EncodeOne(bytes[0])
    else if |bytes| == 2 then EncodeTwo(bytes[0], bytes[1])
    else EncodeGroup(bytes[0], bytes[1], bytes[2]) + Encode(bytes[3..])
  }

  function DecodeGroup(q: string): (r: Option<seq<Byte>>)
    requires |q| == 4
  {
    var v0, v1, v2, v3 := SextetValue(q[0]), SextetValue(q[1]), SextetValue(q[2]), SextetValue(q[3]);
    if v0.None? || v1.None? || v2.None? || v3.None? then None
    else
      var s0, s1, s2, s3 := v0.value, v1.value, v2.value, v3.value;
      Some([s0 * 4 + s1 / 16, s1 % 16 * 16 + s2 / 4, s2 % 4 * 64 + s3])
  }

  /** `xy==`: one byte; the four unused bits of `y` must be zero. */
  function DecodeOne(q: string): (r: Option<seq<Byte>>)
    requires |q| == 4
  {
    var v0, v1 := SextetValue(q[0]), SextetValue(q[1]);
    if v0.None? || v1.None? || v1.value % 16 != 0 then None
    else Some([v0.value * 4 + v1.value / 16])
  }

  /** `xyz=`: two bytes; the two unused bits of `z` must be zero. */
  function DecodeTwo(q: string): (r: Option<seq<Byte>>)
    requires |q| == 4
  {
    var v0, v1, v2 := SextetValue(q[0]), SextetValue(q[1]), SextetValue(q[2]);
    if v0.None? || v1.None? || v2.None? || v2.value % 4 != 0 then None
    else Some([v0.value * 4 + v1.value / 16, v1.value % 16 * 16 + v2.value / 4])
  }

  /** The strict decoder: padded, canonical base 64 only. */
  function Decode(s: string): (r: Option<seq<Byte>>)
    decreases |s|
  {
    if s == [] then Some([])
    else if |s| < 4 then None
    else if |s| == 4 && s[2] == '=' && s[3] == '=' then DecodeOne(s)
    else if |s| == 4 && s[3] == '=' then DecodeTwo(s)
    else
      match DecodeGroup(s[..4])
      case None => None
      case Some(g) =>
        match Decode(s[4..])
        case None => None
        case Some(rest) => Some(g + rest)
  }

  // ---- the encoding is invertible and canonical ----

  /** Cutting three bytes into four sextets and joining them again gives the bytes. */
  lemma JoinSplit(a: Byte, b: Byte, c: Byte)
    ensures a / 4 * 4 + (a % 4 * 16 + b / 16) / 16 == a
    ensures (a % 4 * 16 + b / 16) % 16 * 16 + (b % 16 * 4 + c / 64) / 4 == b
    ensures (b % 16 * 4 + c / 64) % 4 * 64 + c % 64 == c
  {
    assert (a % 4 * 16 + b / 16) / 16 == a % 4 && (a % 4 * 16 + b / 16) % 16 == b / 16;
    assert (b % 16 * 4 + c / 64) / 4 == b % 16 && (b % 16 * 4 + c / 64) % 4 == c / 64;
  }

  /** Joining four sextets into three bytes and cutting them again gives the sextets. */
  lemma SplitJoin(s0: nat, s1: nat, s2: nat, s3: nat)
    requires s0 < 64 && s1 < 64 && s2 < 64 && s3 < 64
    ensures s0 * 4 + s1 / 16 < 256 && s1 % 16 * 16 + s2 / 4 < 256 && s2 % 4 * 64 + s3 < 256
    ensures (s0 * 4 + s1 / 16) / 4 == s0
    ensures (s0 * 4 + s1 / 16) % 4 * 16 + (s1 % 16 * 16 + s2 / 4) / 16 == s1
    ensures (s1 % 16 * 16 + s2 / 4) % 16 * 4 + (s2 % 4 * 64 + s3) / 64 == s2
    ensures (s2 % 4 * 64 + s3) % 64 == s3
  {
    assert (s0 * 4 + s1 / 16) / 4 == s0 && (s0 * 4 + s1 / 16) % 4 == s1 / 16;
    assert (s1 % 16 * 16 + s2 / 4) / 16 == s1 % 16 && (s1 % 16 * 16 + s2 / 4) % 16 == s2 / 4;
    assert (s2 % 4 * 64 + s3) / 64 == s2 % 4 && (s2 % 4 * 64 + s3) % 64 == s3;
  }

  lemma GroupReadsBack(a: Byte, b: Byte, c: Byte)
    ensures DecodeGroup(EncodeGroup(a, b, c)) == Some([a, b, c])
  {
    JoinSplit(a, b, c);
    SextetReadsBack(a / 4);
    SextetReadsBack(a % 4 * 16 + b / 16);
    SextetReadsBack(b % 16 * 4 + c / 64);
    SextetReadsBack(c % 64);
  }

  lemma OneReadsBack(a: Byte)
    ensures DecodeOne(EncodeOne(a)) == Some([a])
  {
    var v0, v1 := a / 4, a % 4 * 16;
    assert v1 / 16 == a % 4 && v1 % 16 == 0;
    SextetReadsBack(v0);
    SextetReadsBack(v1);
  }

  lemma TwoReadsBack(a: Byte, b: Byte)
    ensures DecodeTwo(EncodeTwo(a, b)) == Some([a, b])
  {
    var v0, v1, v2 := a / 4, a % 4 * 16 + b / 16, b % 16 * 4;
    assert v1 / 16 == a % 4 && v1 % 16 == b / 16;
    assert v2 / 4 == b % 16 && v2 % 4 == 0;
    SextetReadsBack(v0);
    SextetReadsBack(v1);
    SextetReadsBack(v2);
  }

  /** Decoding what was encoded gives the bytes back. */
  lemma {:induction false} DecodeEncode(bytes: seq<Byte>)
    ensures Decode(Encode(bytes)) == Some(bytes)
    decreases |bytes|
  {
    if |bytes| == 1 {
      OneReadsBack(bytes[0]);
      assert bytes == [bytes[0]];
    } else if |bytes| == 2 {
      TwoReadsBack(bytes[0], bytes[1]);
      assert bytes == [bytes[0], bytes[1]];
    } else if |bytes| >= 3 {
      var g := EncodeGroup(bytes[0], bytes[1], bytes[2]);
      GroupReadsBack(bytes[0], bytes[1], bytes[2]);
      DecodeEncode(bytes[3..]);
      assert g[3] != '=';
      DecodeGroupThen(g, Encode(bytes[3..]), [bytes[0], bytes[1], bytes[2]], bytes[3..]);
      assert bytes == [bytes[0], bytes[1], bytes[2]] + bytes[3..];
    }
  }

  /** A full group in front of a decodable text decodes to its three bytes in front. */
  lemma DecodeGroupThen(g: string, rest: string, head: seq<Byte>, tail: seq<Byte>)
    requires |g| == 4 && g[3] != '=' && DecodeGroup(g) == Some(head) && Decode(rest) == Some(tail)
    ensures Decode(g + rest) == Some(head + tail)
  {
    var s := g + rest;
    assert s[..4] == g && s[4..] == rest && s[3] == g[3];
  }

  lemma GroupPrintsBack(q: string)
    requires |q| == 4 && DecodeGroup(q).Some?
    ensures |DecodeGroup(q).value| == 3
    ensures EncodeGroup(DecodeGroup(q).value[0], DecodeGroup(q).value[1], DecodeGroup(q).value[2]) == q
  {
    var s0, s1, s2, s3 := SextetValue(q[0]).value, SextetValue(q[1]).value, SextetValue(q[2]).value, SextetValue(q[3]).value;
    SplitJoin(s0, s1, s2, s3);
    SextetPrintsBack(q[0]);
    SextetPrintsBack(q[1]);
    SextetPrintsBack(q[2]);
    SextetPrintsBack(q[3]);
  }

  lemma OnePrintsBack(q: string)
    requires |q| == 4 && q[2] == '=' && q[3] == '=' && DecodeOne(q).Some?
    ensures |DecodeOne(q).value| == 1 && EncodeOne(DecodeOne(q).value[0]) == q
  {
    var s0, s1 := SextetValue(q[0]).value, SextetValue(q[1]).value;
    var a := s0 * 4 + s1 / 16;
    assert a / 4 == s0 && a % 4 == s1 / 16;
    assert a % 4 * 16 == s1;
    SextetPrintsBack(q[0]);
    SextetPrintsBack(q[1]);
  }

  lemma TwoPrintsBack(q: string)
    requires |q| == 4 && q[3] == '=' && DecodeTwo(q).Some?
    ensures |DecodeTwo(q).value| == 2
    ensures EncodeTwo(DecodeTwo(q).value[0], DecodeTwo(q).value[1]) == q
  {
    var s0, s1, s2 := SextetValue(q[0]).value, SextetValue(q[1]).value, SextetValue(q[2]).value;
    SplitJoin(s0, s1, s2, 0);
    var b := s1 % 16 * 16 + s2 / 4;
    assert b % 16 == s2 / 4 && b % 16 * 4 == s2;
    SextetPrintsBack(q[0]);
    SextetPrintsBack(q[1]);
    SextetPrintsBack(q[2]);
  }

  /** Whatever the strict decoder accepts is exactly the encoding of what it returns. */
  lemma {:induction false} EncodeDecode(s: string)
    requires Decode(s).Some?
    ensures Encode(Decode(s).value) == s
    decreases |s|
  {
    if s == [] {
    } else if |s| == 4 && s[2] == '=' && s[3] == '=' {
      OnePrintsBack(s);
    } else if |s| == 4 && s[3] == '=' {
      TwoPrintsBack(s);
    } else {
      var g := DecodeGroup(s[..4]).value;
      var rest := Decode(s[4..]).value;
      GroupPrintsBack(s[..4]);
      EncodeDecode(s[4..]);
      var b := g + rest;
      assert b[..3] == g && b[3..] == rest;
      assert s == s[..4] + s[4..];
    }
  }

  // ---- data URLs ----

  /** The media type used when the file reports none (`file.type || "image/jpeg"`). */
  const DefaultMediaType := "image/jpeg"

  function MediaTypeOf(fileType: string): (m: string)
    ensures m != ""
    ensures fileType != "" ==> m == fileType
    ensures fileType == "" ==> m == DefaultMediaType
  {
    if fileType == "" then DefaultMediaType else fileType
  }

  /** `data:<type>;base64,<data>` (RFC 2397, section 2). */
  function DataUrl(mediaType: string, bytes: seq<Byte>): string {
    "data:" + mediaType + ";base64," + Encode(bytes)
  }

  /**
   * Reads a base 64 `data:` URL back into its media type and bytes: the
   * header runs to the first comma and must end in `;base64`.
   */
  function ParseDataUrl(u: string): (r: Option<(string, seq<Byte>)>) {
    if |u| < 5 || u[..5] != "data:" then None
    else
      match IndexOf(u[5..], ',')
      case None => None
      case Some(k) =>
        var header := u[5..5 + k];
        if |header| < 7 || header[|header| - 7..] != ";base64" then None
        else
          match Decode(u[5 + k + 1..])
          case None => None
          case Some(bytes) => Some((header[..|header| - 7], bytes))
  }

  /** The first comma after a comma-free header is the one that ends it. */
  lemma CommaAfter(h: string, payload: string)
    requires ',' !in h
    ensures var t := h + [','] + payload;
      IndexOf(t, ',') == Some(|h|) && t[..|h|] == h && t[|h| + 1..] == payload
  {
    var t := h + [','] + payload;
    assert t[..|h|] == h && t[|h| + 1..] == payload;
    IndexOfAt(t, ',', |h|);
  }

  /** Where the parser cuts a data URL whose media type has no comma. */
  lemma DataUrlParts(mediaType: string, payload: string)
    requires ',' !in mediaType
    ensures var u := "data:" + mediaType + ";base64," + payload; var k := |mediaType| + 7;
      |u| >= 5 && u[..5] == "data:" && IndexOf(u[5..], ',') == Some(k)
      && u[5..5 + k] == mediaType + ";base64" && u[5 + k + 1..] == payload
  {
    var h := mediaType + ";base64";
    assert ',' !in ";base64";
    var t := h + [','] + payload;
    CommaAfter(h, payload);
    var u := "data:" + mediaType + ";base64," + payload;
    assert u == "data:" + t;
    assert u[5..] == t;
  }

  /** A media type without commas survives the data URL together with the bytes. */
  lemma DataUrlReadsBack(mediaType: string, bytes: seq<Byte>)
    requires ',' !in mediaType
    ensures ParseDataUrl(DataUrl(mediaType, bytes)) == Some((mediaType, bytes))
  {
    var h := mediaType + ";base64";
    DataUrlParts(mediaType, Encode(bytes));
    DecodeEncode(bytes);
    assert h[|h| - 7..] == ";base64" && h[..|h| - 7] == mediaType;
  }
}
