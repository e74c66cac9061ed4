/**
 * String utilities shared by the HTTP client and the two scripts: ASCII
 * character classes and case mapping, the whitespace set of ECMAScript's
 * `String.prototype.trim`, `indexOf`, `split` and `join` with a one-character
 * separator, decimal numerals, and the `/\/+$/` trailing-slash removal.
 *
 * Case mapping is ASCII only: `toLowerCase`/`toUpperCase` of the source are
 * modelled on the 26 Latin letters and leave every other character alone.
 */
module Text {

  predicate IsUpper(c: char) { 'A' <= c <= 'Z' }
  predicate IsLower(c: char) { 'a' <= c <= 'z' }
  predicate IsDigit(c: char) { '0' <= c <= '9' }
  predicate IsLetter(c: char) { IsUpper(c) || IsLower(c) }
  /** The class `[a-zA-Z0-9]`. */
  predicate IsAlnum(c: char) { IsLetter(c) || IsDigit(c) }

  predicate AllAlnum(s: string) { forall i :: 0 <= i < |s| ==> IsAlnum(s[i]) }
  predicate AllDigits(s: string) { forall i :: 0 <= i < |s| ==> IsDigit(s[i]) }

  function LowerChar(c: char): char {
    if IsUpper(c) then (c as int + 32) as char else c
  }

  function UpperChar(c: char): char {
    if IsLower(c) then (c as int - 32) as char else c
  }

  /** ASCII `toLowerCase`. */
  function ToLower(s: string): (r: string)
    ensures |r| == |s|
    ensures forall i :: 0 <= i < |s| ==> r[i] == LowerChar(s[i])
  {
    if s == [] then [] else [LowerChar(s[0])] + ToLower(s[1..])
  }

  /** ASCII `toUpperCase`. */
  function ToUpper(s: string): (r: string)
    ensures |r| == |s|
    ensures forall i :: 0 <= i < |s| ==> r[i] == UpperChar(s[i])
  {
    if s == [] then [] else [UpperChar(s[0])] + ToUpper(s[1..])
  }

  /**
   * The characters `trim` removes: WhiteSpace (tab, vertical tab, form feed,
   * space, no-break space, zero-width no-break space and the other Zs
   * characters) and LineTerminator (LF, CR, line and paragraph separator)
   * of ECMA-262's lexical grammar.
   */
  predicate IsJsWhitespace(c: char) {
    || c == '\t' || c == '\n' || c == '\U{B}' || c == '\U{C}' || c == '\r' || c == ' '
    || c == '\U{A0}' || c == '\U{1680}' || ('\U{2000}' <= c <= '\U{200A}')
    || c == '\U{2028}' || c == '\U{2029}' || c == '\U{202F}' || c == '\U{205F}'
    || c == '\U{3000}' || c == '\U{FEFF}'
  }

  predicate AllWhitespace(s: string) { forall i :: 0 <= i < |s| ==> IsJsWhitespace(s[i]) }

  /** Neither end of `s` is whitespace. */
  predicate IsTrimmed(s: string) {
    s == [] || (!IsJsWhitespace(s[0]) && !IsJsWhitespace(s[|s| - 1]))
  }

  /** `String.prototype.trim`: `s` with its leading and trailing whitespace removed. */
  function Trim(s: string): (r: string)
    ensures IsTrimmed(r)
    ensures |r| <= |s|
    decreases |s|
  {
    if s != [] && IsJsWhitespace(s[0]) then Trim(s[1..])
    else if s != [] && IsJsWhitespace(s[|s| - 1]) then Trim(s[..|s| - 1])
    else s
  }

  /** `r` occurs in `s` at `i` with only whitespace before and after it. */
  predicate Surrounds(s: string, i: nat, r: string) {
    i + |r| <= |s| && r == s[i..i + |r|] && AllWhitespace(s[..i]) && AllWhitespace(s[i + |r|..])
  }

  /** What `trim` removes is whitespace, and what it keeps is a contiguous part of the input, starting at `i`. */
  lemma {:induction false} TrimIsSlice(s: string) returns (i: nat)
    ensures Surrounds(s, i, Trim(s))
    decreases |s|
  {
    if s != [] && IsJsWhitespace(s[0]) {
      var j := TrimIsSlice(s[1..]);
      SliceFront(s, j, Trim(s[1..]));
      i := j + 1;
    } else if s != [] && IsJsWhitespace(s[|s| - 1]) {
      i := TrimIsSlice(s[..|s| - 1]);
      SliceBack(s, i, Trim(s[..|s| - 1]));
    } else {
      i := 0;
      assert s[..0] == [] && s[|s|..] == [];
    }
  }

  /** A slice of `s[1..]` surrounded by whitespace, seen in `s` when `s` starts with whitespace. */
  lemma SliceFront(s: string, j: nat, r: string)
    requires s != [] && IsJsWhitespace(s[0]) && Surrounds(s[1..], j, r)
    ensures Surrounds(s, j + 1, r)
  {
    var t := s[1..];
    assert s[..j + 1] == [s[0]] + t[..j];
    AllWhitespaceCons(s[0], t[..j]);
    assert t[j + |r|..] == s[j + 1 + |r|..];
  }

  /** A slice of `s[..|s| - 1]` surrounded by whitespace, seen in `s` when `s` ends with whitespace. */
  lemma SliceBack(s: string, i: nat, r: string)
    requires s != [] && IsJsWhitespace(s[|s| - 1]) && Surrounds(s[..|s| - 1], i, r)
    ensures Surrounds(s, i, r)
  {
    var u := s[..|s| - 1];
    assert u[i..i + |r|] == s[i..i + |r|];
    assert u[..i] == s[..i];
    assert s[i + |r|..] == u[i + |r|..] + [s[|s| - 1]];
    AllWhitespaceSnoc(u[i + |r|..], s[|s| - 1]);
  }

  lemma AllWhitespaceSnoc(v: string, c: char)
    requires AllWhitespace(v) && IsJsWhitespace(c)
    ensures AllWhitespace(v + [c])
  {
    var w := v + [c];
    forall k | 0 <= k < |w|
      ensures IsJsWhitespace(w[k])
    {
      if k < |v| {
        assert w[k] == v[k];
      }
    }
  }

  lemma AllWhitespaceCons(c: char, v: string)
    requires IsJsWhitespace(c) && AllWhitespace(v)
    ensures AllWhitespace([c] + v)
  {
    var w := [c] + v;
    forall k | 0 <= k < |w|
      ensures IsJsWhitespace(w[k])
    {
      if k > 0 {
        assert w[k] == v[k - 1];
      }
    }
  }

  /** A string that does not start with whitespace keeps its first character. */
  lemma {:induction false} TrimKeepsFirst(s: string)
    requires s != [] && !IsJsWhitespace(s[0])
    ensures Trim(s) != [] && Trim(s)[0] == s[0]
    decreases |s|
  {
    if IsJsWhitespace(s[|s| - 1]) {
      var u := s[..|s| - 1];
      assert u != [] && u[0] == s[0];
      TrimKeepsFirst(u);
    }
  }

  /** Trimming a trimmed string changes nothing; in particular `trim` is idempotent. */
  lemma TrimOfTrimmed(s: string)
    requires IsTrimmed(s)
    ensures Trim(s) == s
  {
  }

  /** Every character is either trimmed whitespace-free content or it is gone: a string without whitespace is its own trim. */
  lemma TrimNoWhitespace(s: string)
    requires forall i :: 0 <= i < |s| ==> !IsJsWhitespace(s[i])
    ensures Trim(s) == s
  {
    TrimOfTrimmed(s);
  }

  /** `s.indexOf(c)`: the first position of `c`, or -1. */
  function IndexOf(s: string, c: char): (i: int)
    ensures -1 <= i < |s|
    ensures i >= 0 ==> s[i] == c && c !in s[..i]
    ensures forall j :: 0 <= j < i ==> s[j] != c
    ensures i == -1 <==> c !in s
    decreases |s|
  {
    if |s| == 0 then -1
    else if s[0] == c then 0
    else
      var k := IndexOf(s[1..], c);
      if k == -1 then -1
      else
        assert s[..k + 1] == [s[0]] + s[1..][..k];
        k + 1
  }

  lemma IndexOfConcat(a: string, c: char, b: string)
    requires c !in a
    ensures IndexOf(a + [c] + b, c) == |a|
  {
    var s := a + [c] + b;
    assert s[|a|] == c;
    assert s[..|a|] == a;
    var i := IndexOf(s, c);
    assert forall j :: 0 <= j < |a| ==> s[j] == a[j];
  }

  /** `s.split(sep)` for a one-character separator: the pieces between separators, empty ones included. */
  function Split(s: string, sep: char): (parts: seq<string>)
    ensures |parts| >= 1
    ensures forall k :: 0 <= k < |parts| ==> sep !in parts[k]
    decreases |s|
  {
    var i := IndexOf(s, sep);
    if i < 0 then [s] else [s[..i]] + Split(s[i + 1..], sep)
  }

  /** `parts.join(sep)`. */
  function Join(parts: seq<string>, sep: string): string
  {
    if |parts| == 0 then ""
    else if |parts| == 1 then parts[0]
    else parts[0] + sep + Join(parts[1..], sep)
  }

  lemma Decompose(s: string, i: nat)
    requires i < |s|
    ensures s == s[..i] + [s[i]] + s[i + 1..]
  {
  }

  lemma JoinCons(x: string, tail: seq<string>, sep: string)
    requires |tail| >= 1
    ensures Join([x] + tail, sep) == x + sep + Join(tail, sep)
  {
    assert ([x] + tail)[1..] == tail;
  }

  /** Joining the pieces of a split restores the string. */
  lemma {:induction false} JoinSplit(s: string, sep: char)
    ensures Join(Split(s, sep), [sep]) == s
    decreases |s|
  {
    var i := IndexOf(s, sep);
    if i >= 0 {
      var rest := s[i + 1..];
      var tail := Split(rest, sep);
      JoinSplit(rest, sep);
      assert Split(s, sep) == [s[..i]] + tail;
      JoinCons(s[..i], tail, [sep]);
      Decompose(s, i);
    }
  }

  /** Splitting a join recovers the pieces when no piece contains the separator. */
  lemma {:induction false} SplitJoin(parts: seq<string>, sep: char)
    requires |parts| >= 1
    requires forall k :: 0 <= k < |parts| ==> sep !in parts[k]
    ensures Split(Join(parts, [sep]), sep) == parts
    decreases |parts|
  {
    if |parts| == 1 {
      assert IndexOf(parts[0], sep) == -1;
    } else {
      var tail := Join(parts[1..], [sep]);
      var s := Join(parts, [sep]);
      assert s == parts[0] + [sep] + tail;
      IndexOfConcat(parts[0], sep, tail);
      assert s[..|parts[0]|] == parts[0];
      assert s[|parts[0]| + 1..] == tail;
      SplitJoin(parts[1..], sep);
      assert Split(s, sep) == [parts[0]] + Split(tail, sep);
    }
  }

  lemma JoinNotIn(parts: seq<string>, sep: string, c: char)
    requires forall k :: 0 <= k < |parts| ==> c !in parts[k]
    requires c !in sep
    ensures c !in Join(parts, sep)
  {
    if |parts| > 1 {
      JoinNotIn(parts[1..], sep, c);
    }
  }

  function DigitChar(d: nat): char
    requires d < 10
  {
    ('0' as int + d) as char
  }

  function DigitValue(c: char): nat
    requires IsDigit(c)
  {
    c as int - '0' as int
  }

  /** The decimal numeral of `n`, as `String(n)` writes a non-negative integer. */
  function NatToString(n: nat): (r: string)
    ensures |r| >= 1 && AllDigits(r)
    ensures |r| > 1 ==> r[0] != '0'
    decreases n
  {
    if n < 10 then [DigitChar(n)] else NatToString(n / 10) + [DigitChar(n % 10)]
  }

  /** The value of a string of decimal digits. */
  function ParseDecimal(s: string): nat
    requires AllDigits(s)
    decreases |s|
  {
    if s == [] then 0 else 10 * ParseDecimal(s[..|s| - 1]) + DigitValue(s[|s| - 1])
  }

  /** Reading the numeral back gives the number. */
  lemma {:induction false} ParseNatToString(n: nat)
    ensures ParseDecimal(NatToString(n)) == n
    decreases n
  {
    if n >= 10 {
      ParseNatToString(n / 10);
      var s := NatToString(n);
      assert s[..|s| - 1] == NatToString(n / 10);
    }
  }

  /** Different numbers have different numerals. */
  lemma NatToStringInjective(a: nat, b: nat)
    ensures NatToString(a) == NatToString(b) <==> a == b
  {
    ParseNatToString(a);
    ParseNatToString(b);
  }

  /** `s.replace(/\/+$/, '')`: `s` without its trailing run of `/`. */
  function TrimTrailingSlashes(s: string): (r: string)
    ensures r <= s
    ensures forall i :: |r| <= i < |s| ==> s[i] == '/'
    ensures r == [] || r[|r| - 1] != '/'
    decreases |s|
  {
    if |s| > 0 && s[|s| - 1] == '/' then TrimTrailingSlashes(s[..|s| - 1]) else s
  }

  /**
   * The three facts of TrimTrailingSlashes's contract determine its result:
   * any prefix of `s` that leaves only `/` behind and does not itself end in
   * `/` is that result.
   */
  lemma TrimTrailingSlashesUnique(s: string, t: string)
    requires t <= s
    requires forall i :: |t| <= i < |s| ==> s[i] == '/'
    requires t == [] || t[|t| - 1] != '/'
    ensures t == TrimTrailingSlashes(s)
  {
    var r := TrimTrailingSlashes(s);
    assert forall k :: 0 <= k < |t| ==> t[k] == s[k];
    assert forall k :: 0 <= k < |r| ==> r[k] == s[k];
    assert t == s[..|t|] && r == s[..|r|];
  }
}
