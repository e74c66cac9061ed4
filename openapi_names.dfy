/**
 * The naming rules of scripts/generate-openapi-modules.js: `toIdentifier`,
 * which turns an operationId (or a description of the operation) into a
 * camelCase function name, and `tagToFileName`, which turns a tag into the
 * kebab-case base name of its controller file.
 */
module OpenApiNames {
  import opened Text

  // ----- words -----

  /** The length of the run of `[a-zA-Z0-9]` at the start of `s`. */
  function AlnumRun(s: string): (n: nat)
    ensures n <= |s|
    ensures forall i :: 0 <= i < n ==> IsAlnum(s[i])
    ensures n < |s| ==> !IsAlnum(s[n])
    decreases |s|
  {
    if s != [] && IsAlnum(s[0]) then 1 + AlnumRun(s[1..]) else 0
  }

  /**
   * `String(input).split(/[^a-zA-Z0-9]+/g).filter(Boolean)`: the maximal
   * runs of ASCII letters and digits, in order; the empty pieces the split
   * leaves at either end are dropped.
   */
  function Words(s: string): (ws: seq<string>)
    ensures forall k :: 0 <= k < |ws| ==> ws[k] != [] && AllAlnum(ws[k])
    decreases |s|
  {
    if s == [] then []
    else if !IsAlnum(s[0]) then Words(s[1..])
    else
      var n := AlnumRun(s);
      [s[..n]] + Words(s[n..])
  }

  /** The letters and digits of `s`, in order. */
  function AlnumOnly(s: string): (r: string)
    ensures AllAlnum(r) && |r| <= |s|
    decreases |s|
  {
    if s == [] then []
    else if IsAlnum(s[0]) then [s[0]] + AlnumOnly(s[1..])
    else AlnumOnly(s[1..])
  }

  function Concat(ws: seq<string>): string
    decreases |ws|
  {
    if ws == [] then [] else ws[0] + Concat(ws[1..])
  }

  lemma {:induction false} AlnumOnlyAppend(a: string, b: string)
    ensures AlnumOnly(a + b) == AlnumOnly(a) + AlnumOnly(b)
    decreases |a|
  {
    if a == [] {
      assert a + b == b;
    } else {
      assert (a + b)[0] == a[0] && (a + b)[1..] == a[1..] + b;
      AlnumOnlyAppend(a[1..], b);
    }
  }

  lemma {:induction false} AlnumOnlyOfAlnum(s: string)
    requires AllAlnum(s)
    ensures AlnumOnly(s) == s
    decreases |s|
  {
    if s != [] {
      AlnumOnlyOfAlnum(s[1..]);
    }
  }

  lemma {:induction false} AlnumOnlyOfSymbols(s: string)
    requires forall i :: 0 <= i < |s| ==> !IsAlnum(s[i])
    ensures AlnumOnly(s) == []
    decreases |s|
  {
    if s != [] {
      AlnumOnlyOfSymbols(s[1..]);
    }
  }

  /** The words, put back together, are exactly the letters and digits of the input. */
  lemma {:induction false} WordsConcat(s: string)
    ensures Concat(Words(s)) == AlnumOnly(s)
    decreases |s|
  {
    if s != [] {
      if !IsAlnum(s[0]) {
        WordsConcat(s[1..]);
      } else {
        var n := AlnumRun(s);
        WordsConcat(s[n..]);
        assert s == s[..n] + s[n..];
        AlnumOnlyAppend(s[..n], s[n..]);
        AlnumOnlyOfAlnum(s[..n]);
        assert Words(s) == [s[..n]] + Words(s[n..]);
        assert ([s[..n]] + Words(s[n..]))[1..] == Words(s[n..]);
      }
    }
  }

  /** A string without letters or digits has no words. */
  lemma WordsEmpty(s: string)
    ensures Words(s) == [] <==> AlnumOnly(s) == []
  {
    WordsConcat(s);
    if Words(s) != [] {
      var ws := Words(s);
      assert Concat(ws) == ws[0] + Concat(ws[1..]);
    }
  }

  lemma {:induction false} AlnumRunOfPrefix(w: string, c: char, rest: string)
    requires AllAlnum(w) && !IsAlnum(c)
    ensures AlnumRun(w + [c] + rest) == |w|
    decreases |w|
  {
    var s := w + [c] + rest;
    if w == [] {
      assert s[0] == c;
    } else {
      assert s[0] == w[0] && s[1..] == w[1..] + [c] + rest;
      AlnumRunOfPrefix(w[1..], c, rest);
    }
  }

  /** A word followed by a separator is the first word, and the words of the rest follow. */
  lemma WordsCons(w: string, c: char, rest: string)
    requires w != [] && AllAlnum(w) && !IsAlnum(c)
    ensures Words(w + [c] + rest) == [w] + Words(rest)
  {
    var s := w + [c] + rest;
    AlnumRunOfPrefix(w, c, rest);
    assert s[0] == w[0];
    assert s[..|w|] == w;
    var t := s[|w|..];
    assert t == [c] + rest;
    assert t[0] == c && t[1..] == rest;
  }

  /** A non-empty run of letters and digits is a single word. */
  lemma WordsOfAlnum(s: string)
    requires s != [] && AllAlnum(s)
    ensures Words(s) == [s]
  {
    var n := AlnumRun(s);
    assert n == |s|;
    assert s[..n] == s && s[n..] == [];
  }

  // ----- toIdentifier -----

  /** `w.charAt(0).toUpperCase() + w.slice(1)`. */
  function Capitalize(w: string): (r: string)
    ensures |r| == |w|
  {
    if w == [] then [] else [UpperChar(w[0])] + w[1..]
  }

  /** `w.charAt(0).toLowerCase() + w.slice(1)`. */
  function Decapitalize(w: string): (r: string)
    ensures |r| == |w|
  {
    if w == [] then [] else [LowerChar(w[0])] + w[1..]
  }

  /** `rest.map(capitalize).join('')`. */
  function CapitalizedConcat(ws: seq<string>): string
    decreases |ws|
  {
    if ws == [] then [] else Capitalize(ws[0]) + CapitalizedConcat(ws[1..])
  }

  lemma {:induction false} CapitalizedConcatAlnum(ws: seq<string>)
    requires forall k :: 0 <= k < |ws| ==> AllAlnum(ws[k])
    ensures AllAlnum(CapitalizedConcat(ws))
    decreases |ws|
  {
    if ws != [] {
      CapitalizedConcatAlnum(ws[1..]);
    }
  }

  /** The word-joining step of `toIdentifier`, before the check for a leading letter. */
  function CamelBase(ws: seq<string>): (base: string)
    requires ws != [] && ws[0] != [] && AllAlnum(ws[0])
    requires forall k :: 0 <= k < |ws| ==> AllAlnum(ws[k])
    ensures base != [] && AllAlnum(base)
  {
    CapitalizedConcatAlnum(ws[1..]);
    Decapitalize(ws[0]) + CapitalizedConcat(ws[1..])
  }

  /**
   * `toIdentifier(input)`: `operation` when the input has no letter or digit;
   * otherwise a non-empty run of ASCII letters and digits starting with a
   * lower-case letter, `op` being put in front when the first word starts
   * with a digit.
   */
  function ToIdentifier(input: string): (r: string)
    ensures Words(input) == [] ==> r == "operation"
    ensures r != [] && AllAlnum(r) && IsLower(r[0])
    ensures Words(input) != [] && IsDigit(Words(input)[0][0]) ==> |r| >= 3 && r[..2] == "op" && IsDigit(r[2])
    ensures Words(input) != [] && !IsDigit(Words(input)[0][0]) ==> |r| == |AlnumOnly(input)|
  {
    var ws := Words(input);
    if ws == [] then "operation"
    else
      var base := CamelBase(ws);
      assert base[0] == LowerChar(ws[0][0]);
      WordsConcat(input);
      ConcatLength(ws);
      if !IsLetter(base[0]) then "op" + base else base
  }

  lemma {:induction false} ConcatLength(ws: seq<string>)
    ensures |Concat(ws)| == |CapitalizedConcat(ws)|
    ensures ws != [] ==> |Concat(ws)| == |ws[0]| + |CapitalizedConcat(ws[1..])|
    decreases |ws|
  {
    if ws != [] {
      ConcatLength(ws[1..]);
    }
  }

  lemma ToLowerAppend(a: string, b: string)
    ensures ToLower(a + b) == ToLower(a) + ToLower(b)
  {
    var l := ToLower(a + b);
    assert forall i :: 0 <= i < |a| ==> l[i] == LowerChar(a[i]);
    assert forall i :: |a| <= i < |a| + |b| ==> l[i] == LowerChar(b[i - |a|]);
  }

  lemma ToLowerOfCase(w: string)
    ensures ToLower(Capitalize(w)) == ToLower(w) && ToLower(Decapitalize(w)) == ToLower(w)
  {
    if w != [] {
      assert w == [w[0]] + w[1..];
      ToLowerAppend([w[0]], w[1..]);
      ToLowerAppend([UpperChar(w[0])], w[1..]);
      ToLowerAppend([LowerChar(w[0])], w[1..]);
    }
  }

  lemma {:induction false} ToLowerCapitalizedConcat(ws: seq<string>)
    ensures ToLower(CapitalizedConcat(ws)) == ToLower(Concat(ws))
    decreases |ws|
  {
    if ws != [] {
      ToLowerCapitalizedConcat(ws[1..]);
      ToLowerOfCase(ws[0]);
      ToLowerAppend(Capitalize(ws[0]), CapitalizedConcat(ws[1..]));
      ToLowerAppend(ws[0], Concat(ws[1..]));
    }
  }

  /**
   * Apart from the `op` prefix, the identifier spells the letters and digits
   * of the input in order: only the case of the first letter of each word
   * changes.
   */
  lemma KeepsLettersAndDigits(input: string)
    requires AlnumOnly(input) != []
    ensures var a := AlnumOnly(input);
      ToLower(ToIdentifier(input)) == (if IsDigit(a[0]) then "op" else "") + ToLower(a)
  {
    var ws := Words(input);
    WordsEmpty(input);
    WordsConcat(input);
    var base := CamelBase(ws);
    ToLowerOfCase(ws[0]);
    ToLowerCapitalizedConcat(ws[1..]);
    ToLowerAppend(Decapitalize(ws[0]), CapitalizedConcat(ws[1..]));
    ToLowerAppend(ws[0], Concat(ws[1..]));
    assert Concat(ws) == ws[0] + Concat(ws[1..]);
    assert AlnumOnly(input)[0] == ws[0][0];
    if IsDigit(ws[0][0]) {
      ToLowerAppend("op", base);
    }
  }

  /**
   * Position `j` of the joined words starts a word: `j` is `|ws[0]| + ... +
   * |ws[k-1]|` for some `k < |ws|`.
   */
  predicate WordStart(ws: seq<string>, j: int)
    decreases |ws|
  {
    ws != [] && (j == 0 || WordStart(ws[1..], j - |ws[0]|))
  }

  lemma {:induction false} WordStartNonNegative(ws: seq<string>, j: int)
    requires WordStart(ws, j)
    ensures 0 <= j
    decreases |ws|
  {
    if j != 0 {
      WordStartNonNegative(ws[1..], j - |ws[0]|);
    }
  }

  /**
   * `rest.map(capitalize).join('')` upper-cases the character at each word
   * start and keeps every other character.
   */
  lemma {:induction false} CapitalizedConcatCase(ws: seq<string>)
    requires forall k :: 0 <= k < |ws| ==> ws[k] != []
    ensures |CapitalizedConcat(ws)| == |Concat(ws)|
    ensures forall j :: 0 <= j < |Concat(ws)| ==>
      CapitalizedConcat(ws)[j] == if WordStart(ws, j) then UpperChar(Concat(ws)[j]) else Concat(ws)[j]
    decreases |ws|
  {
    if ws != [] {
      var w, rest := ws[0], ws[1..];
      CapitalizedConcatCase(rest);
      var c, a := CapitalizedConcat(ws), Concat(ws);
      var c', a' := CapitalizedConcat(rest), Concat(rest);
      assert c == Capitalize(w) + c';
      assert a == w + a';
      forall j | 0 <= j < |a|
        ensures c[j] == if WordStart(ws, j) then UpperChar(a[j]) else a[j]
      {
        if j < |w| {
          if j > 0 && WordStart(rest, j - |w|) {
            WordStartNonNegative(rest, j - |w|);
          }
        } else {
          var i := j - |w|;
          assert WordStart(ws, j) == WordStart(rest, i);
          assert c[j] == c'[i];
          assert a[j] == a'[i];
        }
      }
    }
  }

  /** The joined words: the first word's first character lower-cased, every later word's first character upper-cased. */
  lemma CamelBaseCasing(ws: seq<string>)
    requires ws != [] && ws[0] != [] && AllAlnum(ws[0])
    requires forall k :: 0 <= k < |ws| ==> AllAlnum(ws[k])
    requires forall k :: 0 <= k < |ws| ==> ws[k] != []
    ensures var base, a := CamelBase(ws), Concat(ws);
      && |base| == |a|
      && base[0] == LowerChar(a[0])
      && (forall j :: 0 < j < |a| ==> base[j] == if WordStart(ws, j) then UpperChar(a[j]) else a[j])
  {
    var w, rest := ws[0], ws[1..];
    CapitalizedConcatCase(ws);
    var c' := CapitalizedConcat(rest);
    assert CamelBase(ws) == Decapitalize(w) + c';
    assert CapitalizedConcat(ws) == Capitalize(w) + c';
    assert Concat(ws) == w + Concat(rest);
    CaseOfFirstOnly(w, c');
  }

  /** Lower- or upper-casing the first word differs only in the first character. */
  lemma CaseOfFirstOnly(w: string, c: string)
    requires w != []
    ensures (Decapitalize(w) + c)[0] == LowerChar(w[0])
    ensures forall j :: 0 < j < |w| + |c| ==> (Decapitalize(w) + c)[j] == (Capitalize(w) + c)[j]
  {
  }

  /**
   * The casing rule of `toIdentifier`, character by character. With `a` the
   * input's letters and digits and `o` the length of the `op` prefix (two
   * when `a` starts with a digit, else none): the first character is
   * lower-cased, the first character of every later word is upper-cased, and
   * every other character is kept as it is.
   */
  lemma ToIdentifierCasing(input: string)
    requires AlnumOnly(input) != []
    ensures var a, ws, r := AlnumOnly(input), Words(input), ToIdentifier(input);
      var o := if IsDigit(a[0]) then 2 else 0;
      && |r| == o + |a|
      && r[..o] == (if o == 2 then "op" else "")
      && r[o] == LowerChar(a[0])
      && (forall j :: 0 < j < |a| ==> r[o + j] == if WordStart(ws, j) then UpperChar(a[j]) else a[j])
  {
    var ws, a := Words(input), AlnumOnly(input);
    WordsEmpty(input);
    WordsConcat(input);
    assert ws[0] != [] && AllAlnum(ws[0]);
    var base := CamelBase(ws);
    CamelBaseCasing(ws);
    var o := if IsDigit(a[0]) then 2 else 0;
    var prefix: string := if o == 2 then "op" else "";
    var r := ToIdentifier(input);
    assert r == prefix + base;
    assert forall j :: 0 <= j < |base| ==> r[o + j] == base[j];
  }

  /** An identifier is its own identifier: `toIdentifier` is idempotent. */
  lemma ToIdentifierIdempotent(input: string)
    ensures ToIdentifier(ToIdentifier(input)) == ToIdentifier(input)
  {
    var r := ToIdentifier(input);
    WordsOfAlnum(r);
    var ws: seq<string> := [r];
    assert ws[1..] == [];
    assert Decapitalize(r) == r by {
      assert LowerChar(r[0]) == r[0];
      assert r == [r[0]] + r[1..];
    }
    assert CamelBase(ws) == r;
  }

  // The words of `upload_wallpaper_api_pictures__post`, one separator at a time.

  lemma UploadWords4()
    ensures Words("_" + "post") == ["post"]
  {
    var w := "_" + "post";
    assert w[0] == '_' && w[1..] == "post";
    WordsOfAlnum("post");
  }

  lemma UploadWords3()
    ensures Words("pictures" + "_" + ("_" + "post")) == ["pictures", "post"]
  {
    UploadWords4();
    WordsCons("pictures", '_', "_" + "post");
  }

  lemma UploadWords2()
    ensures Words("api" + "_" + ("pictures" + "_" + ("_" + "post"))) == ["api", "pictures", "post"]
  {
    UploadWords3();
    WordsCons("api", '_', "pictures" + "_" + ("_" + "post"));
  }

  lemma UploadWords1()
    ensures Words("wallpaper" + "_" + ("api" + "_" + ("pictures" + "_" + ("_" + "post"))))
         == ["wallpaper", "api", "pictures", "post"]
  {
    UploadWords2();
    WordsCons("wallpaper", '_', "api" + "_" + ("pictures" + "_" + ("_" + "post")));
  }

  lemma UploadWords()
    ensures Words("upload" + "_" + ("wallpaper" + "_" + ("api" + "_" + ("pictures" + "_" + ("_" + "post")))))
         == ["upload", "wallpaper", "api", "pictures", "post"]
  {
    UploadWords1();
    WordsCons("upload", '_', "wallpaper" + "_" + ("api" + "_" + ("pictures" + "_" + ("_" + "post"))));
  }

  lemma UploadCamelBase()
    ensures CamelBase(["upload", "wallpaper", "api", "pictures", "post"])
         == "upload" + ("Wallpaper" + ("Api" + ("Pictures" + "Post")))
  {
    var ws := ["upload", "wallpaper", "api", "pictures", "post"];
    assert Decapitalize("upload") == "upload";
    assert Capitalize("wallpaper") == "Wallpaper";
    assert Capitalize("api") == "Api";
    assert Capitalize("pictures") == "Pictures";
    assert Capitalize("post") == "Post";
    assert ws[1..][1..][1..][1..][1..] == [];
  }

  /**
   * The generated `pictures` controller names its upload operation, whose
   * operationId is `upload_wallpaper_api_pictures__post`, this way.
   */
  lemma UploadWallpaperName()
    ensures ToIdentifier("upload" + "_" + ("wallpaper" + "_" + ("api" + "_" + ("pictures" + "_" + ("_" + "post")))))
         == "upload" + ("Wallpaper" + ("Api" + ("Pictures" + "Post")))
  {
    UploadWords();
    UploadCamelBase();
  }

  // ----- tagToFileName -----

  /** The class `[a-z0-9]`. */
  predicate IsLowerAlnum(c: char) { IsLower(c) || IsDigit(c) }

  predicate NoDoubleDash(s: string) {
    forall i, j :: 0 <= i < |s| && 0 <= j < |s| && j == i + 1 ==> s[i] != '-' || s[j] != '-'
  }

  predicate KebabChars(s: string) {
    forall i :: 0 <= i < |s| ==> IsLowerAlnum(s[i]) || s[i] == '-'
  }

  /** A well-formed controller file name: `[a-z0-9]` words joined by single dashes. */
  predicate IsFileName(s: string) {
    s != [] && KebabChars(s) && NoDoubleDash(s) && s[0] != '-' && s[|s| - 1] != '-'
  }

  /** `s` without its leading run of characters outside `[a-z0-9]`. */
  function SkipSymbols(s: string): (r: string)
    ensures |r| <= |s| && r == s[|s| - |r|..]
    ensures forall i :: 0 <= i < |s| - |r| ==> !IsLowerAlnum(s[i])
    ensures r == [] || IsLowerAlnum(r[0])
    decreases |s|
  {
    if s != [] && !IsLowerAlnum(s[0]) then SkipSymbols(s[1..]) else s
  }

  /** `replace(/[^a-z0-9]+/g, '-')`: every maximal run outside `[a-z0-9]` becomes one dash. */
  function DashRuns(s: string): (r: string)
    ensures KebabChars(r) && NoDoubleDash(r)
    ensures r == [] <==> s == []
    ensures s != [] && IsLowerAlnum(s[0]) ==> r[0] == s[0]
    decreases |s|
  {
    if s == [] then []
    else if IsLowerAlnum(s[0]) then [s[0]] + DashRuns(s[1..])
    else "-" + DashRuns(SkipSymbols(s[1..]))
  }

  function DropLeadingDashes(s: string): (r: string)
    ensures |r| <= |s| && r == s[|s| - |r|..]
    ensures r == [] || r[0] != '-'
    ensures forall i :: 0 <= i < |s| - |r| ==> s[i] == '-'
    decreases |s|
  {
    if s != [] && s[0] == '-' then DropLeadingDashes(s[1..]) else s
  }

  function DropTrailingDashes(s: string): (r: string)
    ensures |r| <= |s| && r == s[..|r|]
    ensures r == [] || r[|r| - 1] != '-'
    ensures forall i :: |r| <= i < |s| ==> s[i] == '-'
    decreases |s|
  {
    if s != [] && s[|s| - 1] == '-' then DropTrailingDashes(s[..|s| - 1]) else s
  }

  /** A part of a run of `[a-z0-9]` words and dashes without double dashes is one too. */
  lemma KebabSlice(s: string, i: nat, j: nat)
    requires i <= j <= |s| && KebabChars(s) && NoDoubleDash(s)
    ensures KebabChars(s[i..j]) && NoDoubleDash(s[i..j])
  {
    var t := s[i..j];
    assert forall k :: 0 <= k < |t| ==> t[k] == s[i + k];
  }

  /** `replace(/^-+|-+$/g, '')`: the leading and the trailing run of dashes removed. */
  function TrimDashes(s: string): (r: string)
    requires KebabChars(s) && NoDoubleDash(s)
    ensures r == [] || IsFileName(r)
  {
    var t := DropLeadingDashes(s);
    KebabSlice(s, |s| - |t|, |s|);
    var r := DropTrailingDashes(t);
    KebabSlice(t, 0, |r|);
    assert r != [] ==> r[0] == t[0];
    r
  }

  /**
   * `tagToFileName(tag)`: trimmed, lower-cased, each run outside `[a-z0-9]`
   * replaced by one dash, dashes at either end removed, and `default` when
   * nothing is left.
   */
  function TagToFileName(tag: string): (r: string)
    ensures IsFileName(r)
  {
    var n := TrimDashes(DashRuns(ToLower(Trim(tag))));
    if n != [] then n else "default"
  }

  lemma {:induction false} DashRunsOfSymbols(s: string)
    requires forall i :: 0 <= i < |s| ==> !IsLowerAlnum(s[i])
    ensures DashRuns(s) == [] || DashRuns(s) == "-"
    decreases |s|
  {
    if s != [] {
      assert SkipSymbols(s[1..]) == [];
    }
  }

  /** A tag that is blank or made of symbols only gives `default`. */
  lemma SymbolTagIsDefault(tag: string)
    requires forall i :: 0 <= i < |tag| ==> !IsAlnum(tag[i])
    ensures TagToFileName(tag) == "default"
  {
    var t := Trim(tag);
    var i := TrimIsSlice(tag);
    assert forall k :: 0 <= k < |t| ==> t[k] == tag[i + k];
    var l := ToLower(t);
    assert forall k :: 0 <= k < |l| ==> !IsLowerAlnum(l[k]);
    DashRunsOfSymbols(l);
  }

  /** The text left after a dash inside a well-formed name begins with a letter or digit. */
  predicate DashesInside(s: string) {
    KebabChars(s) && NoDoubleDash(s) && (s == [] || s[|s| - 1] != '-')
  }

  lemma {:induction false} DashRunsOfKebab(s: string)
    requires DashesInside(s)
    ensures DashRuns(s) == s
    decreases |s|
  {
    if s != [] {
      var t := s[1..];
      assert DashesInside(t);
      DashRunsOfKebab(t);
      if s[0] == '-' {
        assert t != [] && IsLowerAlnum(t[0]);
        assert SkipSymbols(t) == t;
      }
      assert s == [s[0]] + t;
    }
  }

  lemma ToLowerOfKebab(s: string)
    requires KebabChars(s)
    ensures ToLower(s) == s
  {
    var l := ToLower(s);
    assert forall i :: 0 <= i < |s| ==> l[i] == s[i];
  }

  /** A well-formed file name is its own file name. */
  lemma FileNameIsFixed(s: string)
    requires IsFileName(s)
    ensures TagToFileName(s) == s
  {
    TrimNoWhitespace(s);
    ToLowerOfKebab(s);
    DashRunsOfKebab(s);
  }

  /** `tagToFileName` is idempotent. */
  lemma TagToFileNameIdempotent(tag: string)
    ensures TagToFileName(TagToFileName(tag)) == TagToFileName(tag)
  {
    FileNameIsFixed(TagToFileName(tag));
  }

  // Letters and digits survive: the file name spells the tag's letters and digits, lower-cased.

  lemma AlnumOnlyOfToLower(s: string)
    ensures AlnumOnly(ToLower(s)) == ToLower(AlnumOnly(s))
    decreases |s|
  {
    if s != [] {
      AlnumOnlyOfToLower(s[1..]);
      assert ToLower(s)[1..] == ToLower(s[1..]);
      ToLowerAppend([s[0]], AlnumOnly(s[1..]));
    }
  }

  lemma {:induction false} AlnumOnlyOfSkipSymbols(s: string)
    requires forall i :: 0 <= i < |s| ==> !IsUpper(s[i])
    ensures AlnumOnly(SkipSymbols(s)) == AlnumOnly(s)
    decreases |s|
  {
    if s != [] && !IsLowerAlnum(s[0]) {
      AlnumOnlyOfSkipSymbols(s[1..]);
    }
  }

  lemma {:induction false} AlnumOnlyOfDashRuns(s: string)
    requires forall i :: 0 <= i < |s| ==> !IsUpper(s[i])
    ensures AlnumOnly(DashRuns(s)) == AlnumOnly(s)
    decreases |s|
  {
    if s != [] {
      var u := s[1..];
      assert forall i :: 0 <= i < |u| ==> !IsUpper(u[i]);
      if IsLowerAlnum(s[0]) {
        AlnumOnlyOfDashRuns(u);
        DashRunsLowerStep(s);
      } else {
        var t := SkipSymbols(u);
        assert forall i :: 0 <= i < |t| ==> !IsUpper(t[i]) by {
          assert forall i :: 0 <= i < |t| ==> t[i] == u[|u| - |t| + i];
        }
        AlnumOnlyOfSkipSymbols(u);
        AlnumOnlyOfDashRuns(t);
        DashRunsSymbolStep(s);
      }
    }
  }

  lemma DashRunsLowerStep(s: string)
    requires s != [] && IsLowerAlnum(s[0])
    ensures AlnumOnly(DashRuns(s)) == [s[0]] + AlnumOnly(DashRuns(s[1..]))
  {
    var d := DashRuns(s[1..]);
    assert DashRuns(s) == [s[0]] + d;
    assert ([s[0]] + d)[1..] == d;
  }

  lemma DashRunsSymbolStep(s: string)
    requires s != [] && !IsLowerAlnum(s[0])
    ensures AlnumOnly(DashRuns(s)) == AlnumOnly(DashRuns(SkipSymbols(s[1..])))
  {
    var d := DashRuns(SkipSymbols(s[1..]));
    assert DashRuns(s) == "-" + d;
    AlnumOnlyDashCons(d);
  }

  lemma AlnumOnlyDashCons(d: string)
    ensures AlnumOnly("-" + d) == AlnumOnly(d)
  {
    var x := "-" + d;
    assert x[0] == '-' && x[1..] == d;
  }

  lemma Slice3(s: string, i: nat, j: nat)
    requires i <= j <= |s|
    ensures s == s[..i] + s[i..j] + s[j..]
  {
  }

  lemma {:induction false} AlnumOnlyOfDropLeading(s: string)
    ensures AlnumOnly(DropLeadingDashes(s)) == AlnumOnly(s)
    decreases |s|
  {
    if s != [] && s[0] == '-' {
      AlnumOnlyOfDropLeading(s[1..]);
      assert DropLeadingDashes(s) == DropLeadingDashes(s[1..]);
      assert AlnumOnly(s) == AlnumOnly(s[1..]) by {
        assert !IsAlnum(s[0]);
      }
    } else {
      assert DropLeadingDashes(s) == s;
    }
  }

  lemma {:induction false} AlnumOnlyOfDropTrailing(s: string)
    ensures AlnumOnly(DropTrailingDashes(s)) == AlnumOnly(s)
    decreases |s|
  {
    if s != [] && s[|s| - 1] == '-' {
      var u := s[..|s| - 1];
      AlnumOnlyOfDropTrailing(u);
      assert s == u + "-";
      AlnumOnlyAppend(u, "-");
    }
  }

  lemma AlnumOnlyOfDropDashes(s: string)
    ensures AlnumOnly(DropTrailingDashes(DropLeadingDashes(s))) == AlnumOnly(s)
  {
    AlnumOnlyOfDropLeading(s);
    AlnumOnlyOfDropTrailing(DropLeadingDashes(s));
  }

  lemma {:induction false} AlnumOnlyOfWhitespace(s: string)
    requires AllWhitespace(s)
    ensures AlnumOnly(s) == []
    decreases |s|
  {
    if s != [] {
      assert IsJsWhitespace(s[0]);
      AlnumOnlyOfWhitespace(s[1..]);
    }
  }

  lemma AlnumOnlyOfTrim(s: string)
    ensures AlnumOnly(Trim(s)) == AlnumOnly(s)
  {
    var i := TrimIsSlice(s);
    var t := Trim(s);
    var j := i + |t|;
    var a, b := s[..i], s[j..];
    assert s == a + t + b by {
      Slice3(s, i, j);
    }
    AlnumOnlyAppend(a + t, b);
    AlnumOnlyAppend(a, t);
    AlnumOnlyOfWhitespace(a);
    AlnumOnlyOfWhitespace(b);
  }

  /**
   * Unless the tag has no letter or digit, the file name keeps all of them,
   * in order and lower-cased, and adds only dashes between them.
   */
  lemma FileNameKeepsLettersAndDigits(tag: string)
    requires AlnumOnly(tag) != []
    ensures AlnumOnly(TagToFileName(tag)) == ToLower(AlnumOnly(tag))
  {
    var t := Trim(tag);
    var l := ToLower(t);
    var d := DashRuns(l);
    var n := TrimDashes(d);
    assert AlnumOnly(t) == AlnumOnly(tag) by {
      AlnumOnlyOfTrim(tag);
    }
    assert AlnumOnly(l) == ToLower(AlnumOnly(tag)) by {
      AlnumOnlyOfToLower(t);
    }
    assert AlnumOnly(d) == AlnumOnly(l) by {
      assert forall i :: 0 <= i < |l| ==> !IsUpper(l[i]);
      AlnumOnlyOfDashRuns(l);
    }
    assert AlnumOnly(n) == AlnumOnly(d) by {
      AlnumOnlyOfDropDashes(d);
    }
    assert n != [] by {
      assert |ToLower(AlnumOnly(tag))| > 0;
    }
  }

  // Where the dashes go: each run outside `[a-z0-9]` becomes one dash in its place.

  /** A run outside `[a-z0-9]` in front of `v`, which starts with `[a-z0-9]` if at all, is skipped whole. */
  lemma {:induction false} SkipSymbolsPrefix(x: string, v: string)
    requires forall i :: 0 <= i < |x| ==> !IsLowerAlnum(x[i])
    requires v == [] || IsLowerAlnum(v[0])
    ensures SkipSymbols(x + v) == v
    decreases |x|
  {
    if x == [] {
      assert x + v == v;
    } else {
      assert (x + v)[0] == x[0] && (x + v)[1..] == x[1..] + v;
      SkipSymbolsPrefix(x[1..], v);
    }
  }

  lemma SkipSymbolsCons(c: char, t: string)
    ensures SkipSymbols([c] + t) == if IsLowerAlnum(c) then [c] + t else SkipSymbols(t)
  {
    var x := [c] + t;
    assert x[0] == c && x[1..] == t;
  }

  lemma DashRunsLowerCons(c: char, t: string)
    requires IsLowerAlnum(c)
    ensures DashRuns([c] + t) == [c] + DashRuns(t)
  {
    var x := [c] + t;
    assert x[0] == c && x[1..] == t;
  }

  lemma DashRunsSymbolCons(c: char, t: string)
    requires !IsLowerAlnum(c)
    ensures DashRuns([c] + t) == "-" + DashRuns(SkipSymbols(t))
  {
    var x := [c] + t;
    assert x[0] == c && x[1..] == t;
  }

  /** Skipping symbols stops inside `x` when `x` ends with `[a-z0-9]`. */
  lemma {:induction false} SkipSymbolsAppend(x: string, y: string)
    requires x != [] && IsLowerAlnum(x[|x| - 1])
    ensures SkipSymbols(x + y) == SkipSymbols(x) + y
    ensures SkipSymbols(x) != [] && IsLowerAlnum(SkipSymbols(x)[|SkipSymbols(x)| - 1])
    decreases |x|
  {
    var c, x' := x[0], x[1..];
    assert x == [c] + x';
    assert x + y == [c] + (x' + y);
    SkipSymbolsCons(c, x');
    SkipSymbolsCons(c, x' + y);
    if !IsLowerAlnum(c) {
      assert x' != [] && x'[|x'| - 1] == x[|x| - 1];
      SkipSymbolsAppend(x', y);
    }
  }

  /** The cases of DashRunsSeparates, one lemma each; the last two take the induction hypothesis as a requires. */
  lemma SeparatesFirst(c: char, y: string, v: string)
    requires !IsLowerAlnum(c) && SkipSymbols(y) == v
    ensures DashRuns([c] + y) == "-" + DashRuns(v)
  {
    DashRunsSymbolCons(c, y);
  }

  lemma SeparatesLowerStep(c: char, t: string, sv: string, dv: string)
    requires IsLowerAlnum(c)
    requires DashRuns(t + sv) == DashRuns(t) + "-" + dv
    ensures DashRuns([c] + t + sv) == DashRuns([c] + t) + "-" + dv
  {
    assert [c] + t + sv == [c] + (t + sv);
    DashRunsLowerCons(c, t + sv);
    DashRunsLowerCons(c, t);
    var dt := DashRuns(t);
    Associate([c], dt + "-", dv);
    Associate([c], dt, "-");
  }

  lemma SeparatesSymbolStep(c: char, t: string, sv: string, dv: string)
    requires !IsLowerAlnum(c) && t != [] && IsLowerAlnum(t[|t| - 1])
    requires DashRuns(SkipSymbols(t) + sv) == DashRuns(SkipSymbols(t)) + "-" + dv
    ensures DashRuns([c] + t + sv) == DashRuns([c] + t) + "-" + dv
  {
    Associate([c], t, sv);
    DashRunsSymbolCons(c, t + sv);
    DashRunsSymbolCons(c, t);
    SkipSymbolsAppend(t, sv);
    var u := SkipSymbols(t);
    var du := DashRuns(u);
    assert DashRuns([c] + (t + sv)) == "-" + DashRuns(u + sv);
    Associate("-", du + "-", dv);
    Associate("-", du, "-");
  }

  /**
   * `replace(/[^a-z0-9]+/g, '-')` turns a run `s` outside `[a-z0-9]` that
   * stands between `[a-z0-9]` characters (or an end of the text) into exactly
   * one dash, and works on the two sides independently.
   */
  lemma {:induction false} DashRunsSeparates(u: string, s: string, v: string)
    requires u == [] || IsLowerAlnum(u[|u| - 1])
    requires s != [] && forall i :: 0 <= i < |s| ==> !IsLowerAlnum(s[i])
    requires v == [] || IsLowerAlnum(v[0])
    ensures DashRuns(u + s + v) == DashRuns(u) + "-" + DashRuns(v)
    decreases |u|, 1
  {
    if u == [] {
      var s' := s[1..];
      assert u + s + v == [s[0]] + (s' + v);
      SkipSymbolsPrefix(s', v);
      SeparatesFirst(s[0], s' + v, v);
    } else {
      var c, t := u[0], u[1..];
      assert u == [c] + t;
      if IsLowerAlnum(c) {
        SeparatesLower(c, t, s, v);
      } else {
        SeparatesSymbol(c, t, s, v);
      }
    }
  }

  lemma {:induction false} SeparatesLower(c: char, t: string, s: string, v: string)
    requires IsLowerAlnum(c) && (t == [] || IsLowerAlnum(t[|t| - 1]))
    requires s != [] && forall i :: 0 <= i < |s| ==> !IsLowerAlnum(s[i])
    requires v == [] || IsLowerAlnum(v[0])
    ensures DashRuns([c] + t + s + v) == DashRuns([c] + t) + "-" + DashRuns(v)
    decreases |t| + 1, 0
  {
    DashRunsSeparates(t, s, v);
    Associate(t, s, v);
    Associate([c] + t, s, v);
    SeparatesLowerStep(c, t, s + v, DashRuns(v));
  }

  lemma {:induction false} SeparatesSymbol(c: char, t: string, s: string, v: string)
    requires !IsLowerAlnum(c) && t != [] && IsLowerAlnum(t[|t| - 1])
    requires s != [] && forall i :: 0 <= i < |s| ==> !IsLowerAlnum(s[i])
    requires v == [] || IsLowerAlnum(v[0])
    ensures DashRuns([c] + t + s + v) == DashRuns([c] + t) + "-" + DashRuns(v)
    decreases |t| + 1, 0
  {
    SkipSymbolsAppend(t, s);
    var u' := SkipSymbols(t);
    DashRunsSeparates(u', s, v);
    Associate(u', s, v);
    Associate([c] + t, s, v);
    SeparatesSymbolStep(c, t, s + v, DashRuns(v));
  }

  // Regrouping a concatenation, called where the solver would otherwise search for it.
  lemma Associate(a: string, b: string, c: string)
    ensures a + (b + c) == a + b + c
  {
  }

  /** A lower-case word of letters and digits. */
  predicate IsLowerWord(w: string) {
    w != [] && forall i :: 0 <= i < |w| ==> IsLowerAlnum(w[i])
  }

  lemma ToLowerNoUpper(x: string)
    requires forall i :: 0 <= i < |x| ==> !IsUpper(x[i])
    ensures ToLower(x) == x
  {
    var l := ToLower(x);
    assert forall i :: 0 <= i < |x| ==> l[i] == x[i];
  }

  lemma SymbolsAreNotLowerAlnum(s: string)
    requires forall i :: 0 <= i < |s| ==> !IsAlnum(s[i])
    ensures forall i :: 0 <= i < |s| ==> !IsLowerAlnum(s[i])
  {
  }

  lemma NoUpperInJoin(w1: string, s: string, w2: string)
    requires IsLowerWord(w1) && IsLowerWord(w2)
    requires forall i :: 0 <= i < |s| ==> !IsAlnum(s[i])
    ensures forall i :: 0 <= i < |w1 + s + w2| ==> !IsUpper((w1 + s + w2)[i])
  {
  }

  lemma DashRunsOfLowerWord(w: string)
    requires IsLowerWord(w)
    ensures DashRuns(w) == w
  {
    assert DashesInside(w);
    DashRunsOfKebab(w);
  }

  lemma JoinedWordsIsFileName(w1: string, w2: string)
    requires IsLowerWord(w1) && IsLowerWord(w2)
    ensures IsFileName(w1 + "-" + w2)
  {
    var d := w1 + "-" + w2;
    assert forall i :: 0 <= i < |d| && i != |w1| ==> IsLowerAlnum(d[i]);
  }

  lemma TrimDashesOfFileName(d: string)
    requires IsFileName(d)
    ensures TrimDashes(d) == d
  {
    assert DropLeadingDashes(d) == d;
    assert DropTrailingDashes(d) == d;
  }

  /**
   * Two lower-case words with a run of symbols between them (`user profile`,
   * `user__profile`, `user - profile`) become the words joined by one dash.
   */
  lemma FileNameOfTwoWords(w1: string, s: string, w2: string)
    requires IsLowerWord(w1) && IsLowerWord(w2)
    requires s != [] && forall i :: 0 <= i < |s| ==> !IsAlnum(s[i])
    ensures TagToFileName(w1 + s + w2) == w1 + "-" + w2
  {
    var x := w1 + s + w2;
    assert x[0] == w1[0] && x[|x| - 1] == w2[|w2| - 1];
    TrimOfTrimmed(x);
    NoUpperInJoin(w1, s, w2);
    ToLowerNoUpper(x);
    SymbolsAreNotLowerAlnum(s);
    DashRunsSeparates(w1, s, w2);
    DashRunsOfLowerWord(w1);
    DashRunsOfLowerWord(w2);
    var d := w1 + "-" + w2;
    JoinedWordsIsFileName(w1, w2);
    TrimDashesOfFileName(d);
  }
}
