/**
 * The two percent-encoders the HTTP client relies on, together with decoders
 * that undo them:
 *
 * - `encodeURIComponent` of ECMA-262 (its URI handling functions): every character outside
 *   `A-Z a-z 0-9 - _ . ! ~ * ' ( )` is replaced by the `%XX` escapes of its
 *   UTF-8 bytes;
 * - the application/x-www-form-urlencoded serializer of the WHATWG URL
 *   Standard (section 5.2), which `URLSearchParams.prototype.toString` runs:
 *   every name and value keeps `A-Z a-z 0-9 * - . _`, turns a space into `+`
 *   and escapes every other UTF-8 byte; the pairs are written `name=value` and
 *   joined with `&`.
 *
 * Characters are Unicode scalar values, so the lone-surrogate error of
 * `encodeURIComponent` cannot arise.
 */
module UrlEncoding {
  import opened Wrappers
  import opened Text

  type Byte = x: int | 0 <= x < 256
  type Nibble = x: int | 0 <= x < 16

  // ----- UTF-8 -----

  /** The UTF-8 encoding of one scalar value (section 3 of RFC 3629). */
  function Utf8Char(c: char): (bs: seq<Byte>)
    ensures 1 <= |bs| <= 4
    ensures |bs| == 1 <==> c as int < 0x80
    ensures |bs| == 1 ==> bs[0] == c as int
    ensures |bs| > 1 ==> forall k :: 0 <= k < |bs| ==> bs[k] >= 0x80
  {
    var n := c as int;
    if n < 0x80 then [n]
    else if n < 0x800 then [0xC0 + n / 64, 0x80 + n % 64]
    else if n < 0x10000 then [0xE0 + n / 4096, 0x80 + (n / 64) % 64, 0x80 + n % 64]
    else [0xF0 + n / 262144, 0x80 + (n / 4096) % 64, 0x80 + (n / 64) % 64, 0x80 + n % 64]
  }

  function Utf8(s: string): seq<Byte>
    decreases |s|
  {
    if s == [] then [] else Utf8Char(s[0]) + Utf8(s[1..])
  }

  /** The length of the UTF-8 sequence a lead byte announces, 0 for a byte that cannot lead. */
  function SequenceLength(lead: Byte): nat {
    if lead < 0x80 then 1
    else if 0xC0 <= lead < 0xE0 then 2
    else if 0xE0 <= lead < 0xF0 then 3
    else if 0xF0 <= lead < 0xF8 then 4
    else 0
  }

  predicate IsContinuation(b: Byte) { 0x80 <= b < 0xC0 }

  /** The smallest scalar value that needs `n` bytes: a longer encoding is an overlong one. */
  function MinCodePoint(n: nat): int {
    if n <= 1 then 0 else if n == 2 then 0x80 else if n == 3 then 0x800 else 0x10000
  }

  function CodePoint(bs: seq<Byte>): int
    requires 1 <= |bs| <= 4
  {
    var b: seq<int> := bs;
    if |b| == 1 then b[0]
    else if |b| == 2 then (b[0] - 0xC0) * 64 + (b[1] - 0x80)
    else if |b| == 3 then (b[0] - 0xE0) * 4096 + (b[1] - 0x80) * 64 + (b[2] - 0x80)
    else (b[0] - 0xF0) * 262144 + (b[1] - 0x80) * 4096 + (b[2] - 0x80) * 64 + (b[3] - 0x80)
  }

  predicate IsScalarValue(n: int) { 0 <= n < 0xD800 || 0xE000 <= n < 0x110000 }

  /** A strict UTF-8 decoder: no overlong forms, no surrogates, nothing past U+10FFFF. */
  function Utf8Decode(bs: seq<Byte>): Option<string>
    decreases |bs|
  {
    if bs == [] then Some([])
    else
      var n := SequenceLength(bs[0]);
      if n == 0 || |bs| < n || !(forall k :: 1 <= k < n ==> IsContinuation(bs[k])) then None
      else
        var cp := CodePoint(bs[..n]);
        if !IsScalarValue(cp) || cp < MinCodePoint(n) then None
        else
          match Utf8Decode(bs[n..])
          case None => None
          case Some(rest) => Some([cp as char] + rest)
  }

  function PrependChar(c: char, o: Option<string>): Option<string> {
    match o
    case None => None
    case Some(t) => Some([c] + t)
  }

  lemma Utf8DecodeChar(c: char, rest: seq<Byte>)
    ensures Utf8Decode(Utf8Char(c) + rest) == PrependChar(c, Utf8Decode(rest))
  {
    var e := Utf8Char(c);
    var bs := e + rest;
    var m := c as int;
    assert bs[..|e|] == e;
    assert bs[|e|..] == rest;
    assert forall k :: 0 <= k < |e| ==> bs[k] == e[k];
    if m < 0x80 {
      assert CodePoint(e) == m;
    } else if m < 0x800 {
      assert CodePoint(e) == m;
    } else if m < 0x10000 {
      assert m / 4096 == (m / 64) / 64;
      assert CodePoint(e) == m;
    } else {
      assert m / 4096 == (m / 64) / 64;
      assert m / 262144 == (m / 4096) / 64;
      assert CodePoint(e) == m;
    }
    assert SequenceLength(bs[0]) == |e|;
    assert m as char == c;
  }

  /** Decoding the UTF-8 encoding of a string gives the string back. */
  lemma {:induction false} Utf8RoundTrip(s: string)
    ensures Utf8Decode(Utf8(s)) == Some(s)
    decreases |s|
  {
    if s != [] {
      Utf8RoundTrip(s[1..]);
      Utf8DecodeChar(s[0], Utf8(s[1..]));
      assert [s[0]] + s[1..] == s;
    }
  }

  // ----- percent-encoding of bytes -----

  /** An upper-case hexadecimal digit, as both encoders write them. */
  function HexDigit(d: Nibble): (c: char)
    ensures IsAlnum(c)
  {
    if d < 10 then ('0' as int + d) as char else ('A' as int + d - 10) as char
  }

  function HexValue(c: char): Option<Nibble> {
    if IsDigit(c) then Some(c as int - '0' as int)
    else if 'A' <= c <= 'F' then Some(c as int - 'A' as int + 10)
    else if 'a' <= c <= 'f' then Some(c as int - 'a' as int + 10)
    else None
  }

  lemma HexValueOfDigit(d: Nibble)
    ensures HexValue(HexDigit(d)) == Some(d)
  {
  }

  /** `%XX` for one byte. */
  function PercentEncodeByte(b: Byte): string {
    ['%', HexDigit(b / 16), HexDigit(b % 16)]
  }

  function PercentEncodeBytes(bs: seq<Byte>): (r: string)
    ensures forall i :: 0 <= i < |r| ==> r[i] == '%' || IsAlnum(r[i])
    decreases |bs|
  {
    if bs == [] then "" else PercentEncodeByte(bs[0]) + PercentEncodeBytes(bs[1..])
  }

  // ----- the two encoders -----

  /** The characters `encodeURIComponent` leaves as they are. */
  predicate IsUriUnreserved(c: char) {
    IsAlnum(c) || c in "-_.!~*'()"
  }

  /** Only unreserved characters and `%`. */
  predicate UriSafe(r: string) {
    forall i :: 0 <= i < |r| ==> IsUriUnreserved(r[i]) || r[i] == '%'
  }

  function EncodeUriComponentChar(c: char): (r: string)
    ensures UriSafe(r)
  {
    if IsUriUnreserved(c) then [c] else PercentEncodeBytes(Utf8Char(c))
  }

  lemma UriSafeAppend(a: string, b: string)
    requires UriSafe(a) && UriSafe(b)
    ensures UriSafe(a + b)
  {
    var r := a + b;
    forall i | 0 <= i < |r|
      ensures IsUriUnreserved(r[i]) || r[i] == '%'
    {
      if i >= |a| {
        assert r[i] == b[i - |a|];
      }
    }
  }

  lemma UriSafeExcludes(r: string)
    requires UriSafe(r)
    ensures '/' !in r && '?' !in r && '#' !in r && '{' !in r && '}' !in r
  {
  }

  /**
   * `encodeURIComponent(s)`. Its output holds only unreserved characters and
   * `%`, so in particular no `/`, `?`, `#`, `{` or `}`.
   */
  function EncodeUriComponent(s: string): (r: string)
    ensures UriSafe(r)
    ensures '/' !in r && '?' !in r && '#' !in r && '{' !in r && '}' !in r
    decreases |s|
  {
    if s == [] then ""
    else
      var head, tail := EncodeUriComponentChar(s[0]), EncodeUriComponent(s[1..]);
      UriSafeAppend(head, tail);
      UriSafeExcludes(head + tail);
      head + tail
  }

  /** The characters the form serializer leaves as they are (its percent-encode set is everything else but space). */
  predicate IsFormSafe(c: char) {
    IsAlnum(c) || c in "*-._"
  }

  /** Only form-safe characters, `+` and `%`. */
  predicate FormSafe(r: string) {
    forall i :: 0 <= i < |r| ==> IsFormSafe(r[i]) || r[i] == '+' || r[i] == '%'
  }

  function FormEncodeChar(c: char): (r: string)
    ensures FormSafe(r)
  {
    if IsFormSafe(c) then [c] else if c == ' ' then "+" else PercentEncodeBytes(Utf8Char(c))
  }

  lemma FormSafeAppend(a: string, b: string)
    requires FormSafe(a) && FormSafe(b)
    ensures FormSafe(a + b)
  {
    var r := a + b;
    forall i | 0 <= i < |r|
      ensures IsFormSafe(r[i]) || r[i] == '+' || r[i] == '%'
    {
      if i >= |a| {
        assert r[i] == b[i - |a|];
      }
    }
  }

  lemma FormSafeExcludes(r: string)
    requires FormSafe(r)
    ensures '&' !in r && '=' !in r && '?' !in r && '#' !in r
  {
  }

  /** One name or value as the form serializer writes it: never contains `&`, `=`, `?` or `#`. */
  function FormEncode(s: string): (r: string)
    ensures FormSafe(r)
    ensures '&' !in r && '=' !in r && '?' !in r && '#' !in r
    decreases |s|
  {
    if s == [] then ""
    else
      var head, tail := FormEncodeChar(s[0]), FormEncode(s[1..]);
      FormSafeAppend(head, tail);
      FormSafeExcludes(head + tail);
      head + tail
  }

  /** A string of unreserved characters passes `encodeURIComponent` unchanged. */
  lemma {:induction false} EncodeUriComponentUnreserved(s: string)
    requires forall i :: 0 <= i < |s| ==> IsUriUnreserved(s[i])
    ensures EncodeUriComponent(s) == s
    decreases |s|
  {
    if s != [] {
      EncodeUriComponentUnreserved(s[1..]);
      assert [s[0]] + s[1..] == s;
    }
  }

  // ----- decoding -----

  function PrependBytes(bs: seq<Byte>, o: Option<seq<Byte>>): Option<seq<Byte>> {
    match o
    case None => None
    case Some(t) => Some(bs + t)
  }

  /**
   * Percent-decoding: `%XX` becomes the byte XX, `+` becomes a space when
   * `plusIsSpace`, and every other character its UTF-8 bytes. A `%` not
   * followed by two hexadecimal digits is rejected.
   */
  function PercentDecode(s: string, plusIsSpace: bool): Option<seq<Byte>>
    decreases |s|
  {
    if s == [] then Some([])
    else if s[0] == '%' then
      if |s| < 3 then None
      else
        match (HexValue(s[1]), HexValue(s[2]))
        case (Some(h), Some(l)) =>
          var b: Byte := h as int * 16 + l as int;
          PrependBytes([b], PercentDecode(s[3..], plusIsSpace))
        case _ => None
    else if s[0] == '+' && plusIsSpace then PrependBytes([0x20], PercentDecode(s[1..], plusIsSpace))
    else PrependBytes(Utf8Char(s[0]), PercentDecode(s[1..], plusIsSpace))
  }

  /** `decodeURIComponent`. */
  function DecodeUriComponent(s: string): Option<string> {
    match PercentDecode(s, false)
    case None => None
    case Some(bs) => Utf8Decode(bs)
  }

  /** The form parser's decoding of one name or value. */
  function FormDecode(s: string): Option<string> {
    match PercentDecode(s, true)
    case None => None
    case Some(bs) => Utf8Decode(bs)
  }

  lemma PercentDecodeByte(b: Byte, rest: string, plusIsSpace: bool)
    ensures PercentDecode(PercentEncodeByte(b) + rest, plusIsSpace)
         == PrependBytes([b], PercentDecode(rest, plusIsSpace))
  {
    var s := PercentEncodeByte(b) + rest;
    HexValueOfDigit(b / 16);
    HexValueOfDigit(b % 16);
    assert s[1] == HexDigit(b / 16) && s[2] == HexDigit(b % 16);
    assert s[3..] == rest;
  }

  lemma HeadTailConcat(bs: seq<Byte>, t: seq<Byte>)
    requires bs != []
    ensures [bs[0]] + (bs[1..] + t) == bs + t
  {
    assert [bs[0]] + bs[1..] == bs;
  }

  lemma {:induction false} PercentDecodeBytes(bs: seq<Byte>, rest: string, plusIsSpace: bool)
    ensures PercentDecode(PercentEncodeBytes(bs) + rest, plusIsSpace)
         == PrependBytes(bs, PercentDecode(rest, plusIsSpace))
    decreases |bs|
  {
    if bs == [] {
      assert PercentEncodeBytes(bs) + rest == rest;
      match PercentDecode(rest, plusIsSpace)
      case None =>
      case Some(t) => assert bs + t == t;
    } else {
      var tail := PercentEncodeBytes(bs[1..]) + rest;
      assert PercentEncodeBytes(bs) + rest == PercentEncodeByte(bs[0]) + tail;
      PercentDecodeByte(bs[0], tail, plusIsSpace);
      PercentDecodeBytes(bs[1..], rest, plusIsSpace);
      match PercentDecode(rest, plusIsSpace)
      case None =>
      case Some(t) => HeadTailConcat(bs, t);
    }
  }

  /** A character that stands for itself is decoded to its own UTF-8 bytes. */
  lemma PercentDecodeLiteral(c: char, rest: string, plusIsSpace: bool)
    requires c != '%' && (plusIsSpace ==> c != '+')
    ensures PercentDecode([c] + rest, plusIsSpace) == PrependBytes(Utf8Char(c), PercentDecode(rest, plusIsSpace))
  {
    assert ([c] + rest)[1..] == rest;
  }

  lemma {:induction false} PercentDecodeUriComponent(s: string)
    ensures PercentDecode(EncodeUriComponent(s), false) == Some(Utf8(s))
    decreases |s|
  {
    if s != [] {
      var c := s[0];
      var tail := EncodeUriComponent(s[1..]);
      PercentDecodeUriComponent(s[1..]);
      if IsUriUnreserved(c) {
        PercentDecodeLiteral(c, tail, false);
      } else {
        PercentDecodeBytes(Utf8Char(c), tail, false);
      }
    }
  }

  /** `decodeURIComponent(encodeURIComponent(s)) == s`. */
  lemma UriComponentRoundTrip(s: string)
    ensures DecodeUriComponent(EncodeUriComponent(s)) == Some(s)
  {
    PercentDecodeUriComponent(s);
    Utf8RoundTrip(s);
  }

  /** With `plusIsSpace`, `+` is decoded to the UTF-8 bytes of a space. */
  lemma PercentDecodePlus(rest: string)
    ensures PercentDecode("+" + rest, true) == PrependBytes(Utf8Char(' '), PercentDecode(rest, true))
  {
    assert ("+" + rest)[1..] == rest;
  }

  lemma {:induction false} PercentDecodeForm(s: string)
    ensures PercentDecode(FormEncode(s), true) == Some(Utf8(s))
    decreases |s|
  {
    if s != [] {
      var c := s[0];
      var tail := FormEncode(s[1..]);
      assert FormEncode(s) == FormEncodeChar(c) + tail;
      PercentDecodeForm(s[1..]);
      if IsFormSafe(c) {
        PercentDecodeLiteral(c, tail, true);
      } else if c == ' ' {
        PercentDecodePlus(tail);
      } else {
        PercentDecodeBytes(Utf8Char(c), tail, true);
      }
    }
  }

  /** The form decoding of the form encoding of a string is that string. */
  lemma FormRoundTrip(s: string)
    ensures FormDecode(FormEncode(s)) == Some(s)
  {
    PercentDecodeForm(s);
    Utf8RoundTrip(s);
  }

  // ----- the application/x-www-form-urlencoded serializer and parser -----

  function SerializePair(p: (string, string)): string {
    FormEncode(p.0) + "=" + FormEncode(p.1)
  }

  function SerializePairs(pairs: seq<(string, string)>): (pieces: seq<string>)
    ensures |pieces| == |pairs|
    ensures forall k :: 0 <= k < |pairs| ==> pieces[k] == SerializePair(pairs[k])
    decreases |pairs|
  {
    if pairs == [] then [] else [SerializePair(pairs[0])] + SerializePairs(pairs[1..])
  }

  /** `URLSearchParams.toString()` of a list of name-value pairs. */
  function SerializeForm(pairs: seq<(string, string)>): string {
    Join(SerializePairs(pairs), "&")
  }

  /** The parser's reading of one `name=value` piece; a piece without `=` is a name with an empty value. */
  function ParsePiece(piece: string): Option<(string, string)> {
    var eq := IndexOf(piece, '=');
    var name := if eq < 0 then piece else piece[..eq];
    var value := if eq < 0 then "" else piece[eq + 1..];
    match (FormDecode(name), FormDecode(value))
    case (Some(n), Some(v)) => Some((n, v))
    case _ => None
  }

  function PrependPair(p: (string, string), o: Option<seq<(string, string)>>): Option<seq<(string, string)>> {
    match o
    case None => None
    case Some(t) => Some([p] + t)
  }

  /** Empty pieces are skipped, as the URL Standard's parser (section 5.1) does. */
  function ParsePieces(pieces: seq<string>): Option<seq<(string, string)>>
    decreases |pieces|
  {
    if pieces == [] then Some([])
    else if pieces[0] == "" then ParsePieces(pieces[1..])
    else
      match ParsePiece(pieces[0])
      case None => None
      case Some(p) => PrependPair(p, ParsePieces(pieces[1..]))
  }

  /** The application/x-www-form-urlencoded parser: split on `&`, then on the first `=`, then decode. */
  function ParseForm(s: string): Option<seq<(string, string)>> {
    ParsePieces(Split(s, '&'))
  }

  /** The serializer writes the empty string exactly for the empty list. */
  lemma SerializeFormEmpty(pairs: seq<(string, string)>)
    ensures SerializeForm(pairs) == "" <==> pairs == []
  {
    var pieces := SerializePairs(pairs);
    if |pairs| == 1 {
      assert SerializeForm(pairs) == pieces[0];
      assert pieces[0][|FormEncode(pairs[0].0)|] == '=';
    } else if |pairs| > 1 {
      assert |SerializeForm(pairs)| >= |pieces[0]| + 1;
    }
  }

  lemma ParseSerializedPair(p: (string, string))
    ensures SerializePair(p) != "" && ParsePiece(SerializePair(p)) == Some(p)
  {
    var n := FormEncode(p.0);
    var v := FormEncode(p.1);
    var piece := SerializePair(p);
    assert piece == n + ['='] + v;
    IndexOfConcat(n, '=', v);
    assert piece[..|n|] == n;
    assert piece[|n| + 1..] == v;
    FormRoundTrip(p.0);
    FormRoundTrip(p.1);
  }

  lemma {:induction false} ParseSerializedPieces(pairs: seq<(string, string)>)
    ensures ParsePieces(SerializePairs(pairs)) == Some(pairs)
    decreases |pairs|
  {
    if pairs != [] {
      var p, rest := pairs[0], pairs[1..];
      var pieces := SerializePairs(pairs);
      assert pieces == [SerializePair(p)] + SerializePairs(rest);
      ParseSerializedPair(p);
      ParseSerializedPieces(rest);
      ParsePiecesCons(SerializePair(p), SerializePairs(rest), p);
      assert [p] + rest == pairs;
    }
  }

  lemma ParsePiecesCons(piece: string, pieces: seq<string>, p: (string, string))
    requires piece != "" && ParsePiece(piece) == Some(p)
    ensures ParsePieces([piece] + pieces) == PrependPair(p, ParsePieces(pieces))
  {
    assert ([piece] + pieces)[1..] == pieces;
  }

  /** Parsing a serialized list of pairs gives back the same names and values in the same order. */
  lemma FormSerializeRoundTrip(pairs: seq<(string, string)>)
    ensures ParseForm(SerializeForm(pairs)) == Some(pairs)
  {
    var pieces := SerializePairs(pairs);
    if pairs == [] {
      assert Split("", '&') == [""];
    } else {
      forall k | 0 <= k < |pieces|
        ensures '&' !in pieces[k]
      {
        assert pieces[k] == FormEncode(pairs[k].0) + "=" + FormEncode(pairs[k].1);
      }
      SplitJoin(pieces, '&');
      ParseSerializedPieces(pairs);
    }
  }
}
