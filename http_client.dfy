/**
 * The request assembly of src/api/httpClient.ts: filling the `{name}`
 * placeholders of an OpenAPI path template (`buildPath`), flattening query
 * parameters into `?k=v&...` (`buildQueryString`), overlaying header
 * parameters on the `init` headers (`mergeHeaders`), and the decisions
 * `apiRequest` takes around the `fetch` call: the URL it requests, the
 * default `Content-Type`, the body it sends and how it reads the response.
 *
 * JavaScript values reach the client as `unknown`; here a parameter value is
 * an `Item` that is `undefined`, `null`, or present with the text `String(v)`
 * gives for it. `fetch` itself is a parameter: the response is an input.
 */
module HttpClient {
  import opened Wrappers
  import opened Text
  import opened UrlEncoding

  // ----- values and errors -----

  /** One parameter value: `undefined`, `null`, or present with its `String(...)` text. */
  datatype Item = Undefined | Null | Present(text: string)

  /** A query parameter's value: one item, or an array of them. */
  datatype Value = Single(item: Item) | Array(items: seq<Item>)

  /** The errors `apiRequest` throws. */
  datatype Failure =
    | MissingPathParameter(key: string)
    | RequestFailed(status: nat, statusText: string, body: string)
    | NetworkFailure(reason: string)

  /** The message of the `Error` the client throws. */
  function Message(f: Failure): string {
    match f
    case MissingPathParameter(key) => "缺少路径参数: " + key
    case RequestFailed(status, statusText, body) =>
      "请求失败: " + NatToString(status) + " " + statusText + (if body != "" then " - " + body else "")
    case NetworkFailure(reason) => reason
  }

  // ----- buildPath -----

  /**
   * `pathParams[key]`, over the object's own properties: a key it does not
   * hold reads as `undefined`. Properties inherited from `Object.prototype`
   * (such as `constructor` or `toString`) are not modelled.
   */
  function Lookup(params: map<string, Item>, key: string): Item {
    if key in params then params[key] else Undefined
  }

  /** A template cut into the pieces `/{([^}]+)}/g` sees: single characters and placeholders. */
  datatype Piece = Literal(c: char) | Placeholder(name: string)

  predicate IsPlaceholderName(name: string) { name != "" && '}' !in name }

  /**
   * The matches of `/{([^}]+)}/g`, left to right: at a `{` whose first
   * following `}` is not the very next character a placeholder starts and
   * runs to that `}`; everywhere else the character stands for itself. So
   * `{}` is no placeholder, and a name may contain `{` but never `}`.
   */
  function Scan(t: string): (ps: seq<Piece>)
    ensures forall k :: 0 <= k < |ps| && ps[k].Placeholder? ==> IsPlaceholderName(ps[k].name)
    decreases |t|
  {
    if t == [] then []
    else
      var j := IndexOf(t[1..], '}');
      if t[0] == '{' && j > 0 then [Placeholder(t[1..j + 1])] + Scan(t[j + 2..])
      else [Literal(t[0])] + Scan(t[1..])
  }

  /** Writes pieces back as text, a placeholder as `{name}`. */
  function Render(ps: seq<Piece>): string
    decreases |ps|
  {
    if ps == [] then ""
    else
      match ps[0]
      case Literal(c) => [c] + Render(ps[1..])
      case Placeholder(n) => "{" + n + "}" + Render(ps[1..])
  }

  function PlaceholderNames(ps: seq<Piece>): (names: seq<string>)
    decreases |ps|
  {
    if ps == [] then []
    else if ps[0].Placeholder? then [ps[0].name] + PlaceholderNames(ps[1..])
    else PlaceholderNames(ps[1..])
  }

  predicate AllLiterals(ps: seq<Piece>) { forall k :: 0 <= k < |ps| ==> ps[k].Literal? }

  function PrependText(s: string, r: Result<string, Failure>): Result<string, Failure> {
    match r
    case Ok(t) => Ok(s + t)
    case Err(e) => Err(e)
  }

  /**
   * The replace callback run over the pieces in order: a placeholder becomes
   * the encoded value of its key; the first key whose value is `undefined`
   * or `null` throws.
   */
  function Fill(ps: seq<Piece>, params: map<string, Item>): Result<string, Failure>
    decreases |ps|
  {
    if ps == [] then Ok("")
    else
      match ps[0]
      case Literal(c) => PrependText([c], Fill(ps[1..], params))
      case Placeholder(n) =>
        match Lookup(params, n)
        case Present(v) => PrependText(EncodeUriComponent(v), Fill(ps[1..], params))
        case _ => Err(MissingPathParameter(n))
  }

  /** `buildPath(template, pathParams)`; `None` is an absent path-parameter object. */
  function BuildPath(template: string, pathParams: Option<map<string, Item>>): (r: Result<string, Failure>)
    ensures pathParams.None? ==> r == Ok(template)
  {
    match pathParams
    case None => Ok(template)
    case Some(params) => Fill(Scan(template), params)
  }

  /** The text of the template is its pieces: rendering the scan restores it. */
  lemma {:induction false} ScanRender(t: string)
    ensures Render(Scan(t)) == t
    decreases |t|
  {
    if t != [] {
      var j := IndexOf(t[1..], '}');
      if t[0] == '{' && j > 0 {
        var n, rest := t[1..j + 1], t[j + 2..];
        assert Scan(t) == [Placeholder(n)] + Scan(rest);
        ScanRender(rest);
        RenderPlaceholderCons(n, Scan(rest));
        assert t[1..][j] == '}';
        SplitAroundPlaceholder(t, j);
      } else {
        assert Scan(t) == [Literal(t[0])] + Scan(t[1..]);
        ScanRender(t[1..]);
        RenderLiteralCons(t[0], Scan(t[1..]));
        assert t == [t[0]] + t[1..];
      }
    }
  }

  lemma RenderPlaceholderCons(n: string, rest: seq<Piece>)
    ensures Render([Placeholder(n)] + rest) == "{" + n + "}" + Render(rest)
  {
    assert ([Placeholder(n)] + rest)[1..] == rest;
  }

  lemma RenderLiteralCons(c: char, rest: seq<Piece>)
    ensures Render([Literal(c)] + rest) == [c] + Render(rest)
  {
    assert ([Literal(c)] + rest)[1..] == rest;
  }

  lemma SplitAroundPlaceholder(t: string, j: int)
    requires 0 < j && j + 2 <= |t| && t[0] == '{' && t[j + 1] == '}'
    ensures t == "{" + t[1..j + 1] + "}" + t[j + 2..]
  {
    assert t == t[..1] + t[1..j + 1] + t[j + 1..j + 2] + t[j + 2..];
  }

  /** `{}` is not a placeholder: both braces stay in the path. */
  lemma EmptyBracesStay(s: string)
    ensures Scan("{}" + s) == [Literal('{'), Literal('}')] + Scan(s)
  {
    var t := "{}" + s;
    assert IndexOf(t[1..], '}') == 0;
    assert t[1..] == "}" + s;
    assert ("}" + s)[1..] == s;
    assert IndexOf(s, '}') >= -1;
  }

  /** Every placeholder has a usable value. */
  predicate AllPresent(names: seq<string>, params: map<string, Item>) {
    forall k :: 0 <= k < |names| ==> Lookup(params, names[k]).Present?
  }

  /** The template with each placeholder replaced by the encoding of its value and every other character kept. */
  function Expand(ps: seq<Piece>, params: map<string, Item>): string
    requires AllPresent(PlaceholderNames(ps), params)
    decreases |ps|
  {
    if ps == [] then ""
    else
      match ps[0]
      case Literal(c) => [c] + Expand(ps[1..], params)
      case Placeholder(n) =>
        var tail := PlaceholderNames(ps[1..]);
        assert PlaceholderNames(ps) == [n] + tail;
        assert forall k :: 0 <= k < |tail| ==> tail[k] == PlaceholderNames(ps)[k + 1];
        assert PlaceholderNames(ps)[0] == n;
        EncodeUriComponent(Lookup(params, n).text) + Expand(ps[1..], params)
  }

  /**
   * Filling succeeds exactly when every placeholder has a value, and then
   * yields the expansion; otherwise it throws for the first placeholder,
   * in template order, whose value is missing.
   */
  lemma {:induction false} FillOutcome(ps: seq<Piece>, params: map<string, Item>)
    ensures Fill(ps, params).Ok? <==> AllPresent(PlaceholderNames(ps), params)
    ensures var names := PlaceholderNames(ps);
      match Fill(ps, params)
      case Ok(p) => p == Expand(ps, params)
      case Err(e) =>
        e.MissingPathParameter? &&
        exists i :: 0 <= i < |names| && names[i] == e.key && !Lookup(params, e.key).Present?
          && AllPresent(names[..i], params)
    decreases |ps|
  {
    if ps != [] {
      FillOutcome(ps[1..], params);
      var names := PlaceholderNames(ps);
      var rest := PlaceholderNames(ps[1..]);
      match ps[0] {
        case Literal(c) =>
          assert names == rest;
        case Placeholder(n) =>
          assert names == [n] + rest;
          match Lookup(params, n) {
            case Present(v) =>
              match Fill(ps[1..], params) {
                case Ok(p) =>
                case Err(e) =>
                  var i :| 0 <= i < |rest| && rest[i] == e.key && !Lookup(params, e.key).Present?
                    && AllPresent(rest[..i], params);
                  assert names[i + 1] == e.key;
                  assert names[..i + 1] == [n] + rest[..i];
              }
            case Undefined =>
              assert names[0] == n && names[..0] == [];
            case Null =>
              assert names[0] == n && names[..0] == [];
          }
      }
    }
  }

  /** `buildPath` throws exactly when some placeholder of the template has a missing value. */
  lemma BuildPathSucceeds(template: string, params: map<string, Item>)
    ensures BuildPath(template, Some(params)).Ok?
        <==> AllPresent(PlaceholderNames(Scan(template)), params)
  {
    FillOutcome(Scan(template), params);
  }

  /** Params beyond the template's placeholders make no difference. */
  lemma {:induction false} FillIgnoresExtraParams(ps: seq<Piece>, m1: map<string, Item>, m2: map<string, Item>)
    requires forall n :: n in PlaceholderNames(ps) ==> Lookup(m1, n) == Lookup(m2, n)
    ensures Fill(ps, m1) == Fill(ps, m2)
    decreases |ps|
  {
    if ps != [] {
      var names := PlaceholderNames(ps);
      if ps[0].Placeholder? {
        assert names == [ps[0].name] + PlaceholderNames(ps[1..]);
        assert ps[0].name in names;
      }
      FillIgnoresExtraParams(ps[1..], m1, m2);
    }
  }

  lemma BuildPathIgnoresExtraParams(template: string, m1: map<string, Item>, m2: map<string, Item>)
    requires forall n :: n in PlaceholderNames(Scan(template)) ==> Lookup(m1, n) == Lookup(m2, n)
    ensures BuildPath(template, Some(m1)) == BuildPath(template, Some(m2))
  {
    FillIgnoresExtraParams(Scan(template), m1, m2);
  }

  /** Text without `}` holds no placeholder. */
  lemma {:induction false} ScanWithoutCloseBrace(s: string)
    requires '}' !in s
    ensures AllLiterals(Scan(s)) && Render(Scan(s)) == s
    decreases |s|
  {
    if s != [] {
      assert '}' !in s[1..];
      ScanWithoutCloseBrace(s[1..]);
      ScanRender(s);
    }
  }

  /** Text without `{` holds no placeholder, whatever follows it. */
  lemma {:induction false} ScanAfterPlainText(a: string, b: string)
    requires '{' !in a
    ensures Scan(a + b) == seq(|a|, k requires 0 <= k < |a| => Literal(a[k])) + Scan(b)
    decreases |a|
  {
    if a != [] {
      assert a + b == [a[0]] + (a[1..] + b);
      ScanCons(a[0], a[1..] + b);
      ScanAfterPlainText(a[1..], b);
      assert seq(|a|, k requires 0 <= k < |a| => Literal(a[k]))
          == [Literal(a[0])] + seq(|a| - 1, k requires 0 <= k < |a| - 1 => Literal(a[1..][k]));
    } else {
      assert a + b == b;
    }
  }

  lemma {:induction false} FillOfLiterals(ps: seq<Piece>, params: map<string, Item>)
    requires AllLiterals(ps)
    ensures Fill(ps, params) == Ok(Render(ps))
    decreases |ps|
  {
    if ps != [] {
      FillOfLiterals(ps[1..], params);
    }

  }
  /** A character starts no placeholder when it is not `{`, when no `}` follows, or when `}` follows at once. */
  lemma ScanCons(c: char, s: string)
    requires c != '{' || '}' !in s || (s != [] && s[0] == '}')
    ensures Scan([c] + s) == [Literal(c)] + Scan(s)
  {
    var t := [c] + s;
    assert t[0] == c && t[1..] == s;
  }

  lemma FillLiteralCons(c: char, rest: seq<Piece>, params: map<string, Item>)
    ensures Fill([Literal(c)] + rest, params) == PrependText([c], Fill(rest, params))
  {
    assert ([Literal(c)] + rest)[1..] == rest;
  }

  lemma FillPlaceholderCons(n: string, rest: seq<Piece>, params: map<string, Item>)
    requires Lookup(params, n).Present?
    ensures Fill([Placeholder(n)] + rest, params)
         == PrependText(EncodeUriComponent(Lookup(params, n).text), Fill(rest, params))
  {
    assert ([Placeholder(n)] + rest)[1..] == rest;
  }

  /** A filled text whose template starts with `}` starts with `}` itself. */
  lemma FilledStartsWithCloseBrace(u: string, params: map<string, Item>)
    requires u != [] && u[0] == '}'
    requires Fill(Scan(u), params).Ok?
    ensures var p := Fill(Scan(u), params).value; p != [] && p[0] == '}'
  {
    assert u == [u[0]] + u[1..];
    ScanCons('}', u[1..]);
    FillLiteralCons('}', Scan(u[1..]), params);
  }

  // A sequence fact FilledPathHasNoPlaceholder needs twice, kept out of its larger proof.
  lemma AllLiteralsConcat(a: seq<Piece>, b: seq<Piece>)
    requires AllLiterals(a) && AllLiterals(b)
    ensures AllLiterals(a + b)
  {
  }

  /**
   * A filled path holds no placeholder any more: encoded values bring no
   * braces, and a `{` that was not a placeholder in the template is not
   * one afterwards either.
   */
  lemma {:induction false} FilledPathHasNoPlaceholder(t: string, params: map<string, Item>)
    requires Fill(Scan(t), params).Ok?
    ensures AllLiterals(Scan(Fill(Scan(t), params).value))
    decreases |t|
  {
    var p := Fill(Scan(t), params).value;
    if t == [] {
      assert p == "";
    } else {
      var j := IndexOf(t[1..], '}');
      if t[0] == '{' && j > 0 {
        var n := t[1..j + 1];
        var rest := t[j + 2..];
        assert Scan(t) == [Placeholder(n)] + Scan(rest);
        assert Lookup(params, n).Present?;
        var e := EncodeUriComponent(Lookup(params, n).text);
        FillPlaceholderCons(n, Scan(rest), params);
        var p' := Fill(Scan(rest), params).value;
        assert p == e + p';
        FilledPathHasNoPlaceholder(rest, params);
        ScanAfterPlainText(e, p');
        AllLiteralsConcat(seq(|e|, k requires 0 <= k < |e| => Literal(e[k])), Scan(p'));
      } else {
        var u := t[1..];
        assert Scan(t) == [Literal(t[0])] + Scan(u);
        FillLiteralCons(t[0], Scan(u), params);
        var p' := Fill(Scan(u), params).value;
        assert p == [t[0]] + p';
        FilledPathHasNoPlaceholder(u, params);
        if t[0] == '{' {
          if j == 0 {
            FilledStartsWithCloseBrace(u, params);
          } else {
            ScanWithoutCloseBrace(u);
            FillOfLiterals(Scan(u), params);
          }
        }
        ScanCons(t[0], p');
        AllLiteralsConcat([Literal(t[0])], Scan(p'));
      }
    }
  }

  /** Filling an already filled path again, with any parameters, changes nothing. */
  lemma BuildPathComplete(t: string, params: map<string, Item>, other: map<string, Item>)
    requires BuildPath(t, Some(params)).Ok?
    ensures BuildPath(BuildPath(t, Some(params)).value, Some(other)) == BuildPath(t, Some(params))
  {
    var p := BuildPath(t, Some(params)).value;
    FilledPathHasNoPlaceholder(t, params);
    FillOfLiterals(Scan(p), other);
    ScanRender(p);
  }

  // ----- buildQueryString -----

  /** The `URLSearchParams` buffer: the name-value pairs appended so far. */
  class SearchParams {
    var list: seq<(string, string)>

    constructor ()
      ensures list == []
    {
      list := [];
    }

    method Append(name: string, value: string)
      modifies this
      ensures list == old(list) + [(name, value)]
    {
      list := list + [(name, value)];
    }

    /** `toString()`: the application/x-www-form-urlencoded serialization. */
    function ToString(): string
      reads this
    {
      SerializeForm(list)
    }
  }

  /** The texts of the non-null items of an array, in element order. */
  function PresentTexts(items: seq<Item>): seq<string>
    decreases |items|
  {
    if items == [] then []
    else if items[0].Present? then [items[0].text] + PresentTexts(items[1..])
    else PresentTexts(items[1..])
  }

  /** The pairs one query entry contributes. */
  function EntryPairs(key: string, v: Value): (pairs: seq<(string, string)>)
    ensures forall k :: 0 <= k < |pairs| ==> pairs[k].0 == key
  {
    match v
    case Single(Present(t)) => [(key, t)]
    case Single(_) => []
    case Array(items) =>
      var ts := PresentTexts(items);
      seq(|ts|, k requires 0 <= k < |ts| => (key, ts[k]))
  }

  /** The pairs a query object yields, entry after entry. */
  function QueryPairs(entries: seq<(string, Value)>): seq<(string, string)>
    decreases |entries|
  {
    if entries == [] then [] else EntryPairs(entries[0].0, entries[0].1) + QueryPairs(entries[1..])
  }

  /** What `buildQueryString` returns; `None` is an absent query object. */
  function QueryString(query: Option<seq<(string, Value)>>): string {
    match query
    case None => ""
    case Some(entries) =>
      var qs := SerializeForm(QueryPairs(entries));
      if qs != "" then "?" + qs else ""
  }

  /** `buildQueryString(query)`: append the surviving pairs to a fresh buffer, then serialize it. */
  method BuildQueryString(query: Option<seq<(string, Value)>>) returns (qs: string)
    ensures qs == QueryString(query)
  {
    if query.None? {
      return "";
    }
    var entries := query.value;
    var searchParams := new SearchParams();
    var i := 0;
    while i < |entries|
      invariant 0 <= i <= |entries|
      invariant searchParams.list == QueryPairs(entries[..i])
    {
      var (key, value) := entries[i];
      match value {
        case Single(item) =>
          if item.Present? {
            searchParams.Append(key, item.text);
          }
        case Array(items) =>
          AppendItems(searchParams, key, items);
      }
      QueryPairsSnoc(entries[..i], entries[i]);
      assert entries[..i + 1] == entries[..i] + [entries[i]];
      i := i + 1;
    }
    assert entries[..i] == entries;
    var s := searchParams.ToString();
    qs := if s != "" then "?" + s else "";
  }

  /** The `forEach` over an array value: append each non-null item under `key`. */
  method AppendItems(searchParams: SearchParams, key: string, items: seq<Item>)
    modifies searchParams
    ensures searchParams.list == old(searchParams.list) + EntryPairs(key, Array(items))
  {
    ghost var start := searchParams.list;
    var j := 0;
    while j < |items|
      invariant 0 <= j <= |items|
      invariant searchParams.list == start + EntryPairs(key, Array(items[..j]))
    {
      EntryPairsSnoc(key, items[..j], items[j]);
      assert items[..j + 1] == items[..j] + [items[j]];
      if items[j].Present? {
        searchParams.Append(key, items[j].text);
      }
      j := j + 1;
    }
    assert items[..j] == items;
  }

  lemma EntryPairsSnoc(key: string, items: seq<Item>, x: Item)
    ensures EntryPairs(key, Array(items + [x]))
         == EntryPairs(key, Array(items)) + (if x.Present? then [(key, x.text)] else [])
  {
    PresentTextsSnoc(items, x);
  }

  lemma {:induction false} PresentTextsSnoc(items: seq<Item>, x: Item)
    ensures PresentTexts(items + [x]) == PresentTexts(items) + (if x.Present? then [x.text] else [])
    decreases |items|
  {
    if items == [] {
      assert [x][1..] == [];
    } else {
      assert (items + [x])[1..] == items[1..] + [x];
      PresentTextsSnoc(items[1..], x);
    }
  }

  lemma {:induction false} QueryPairsSnoc(entries: seq<(string, Value)>, e: (string, Value))
    ensures QueryPairs(entries + [e]) == QueryPairs(entries) + EntryPairs(e.0, e.1)
    decreases |entries|
  {
    if entries == [] {
      assert [e][1..] == [];
    } else {
      assert (entries + [e])[1..] == entries[1..] + [e];
      QueryPairsSnoc(entries[1..], e);
    }
  }

  lemma {:induction false} PresentTextsMember(items: seq<Item>, t: string)
    ensures t in PresentTexts(items) <==> Present(t) in items
    decreases |items|
  {
    if items != [] {
      PresentTextsMember(items[1..], t);
      assert items == [items[0]] + items[1..];
    }
  }

  /** Whether the entry `e` yields the pair (key, text). */
  predicate Yields(e: (string, Value), key: string, text: string) {
    e.0 == key && (e.1 == Single(Present(text)) || (e.1.Array? && Present(text) in e.1.items))
  }

  /**
   * A pair is in the query string's list exactly when some entry carries it:
   * undefined and null values are skipped and arrays give one pair per
   * non-null element under the same key.
   */
  lemma {:induction false} QueryPairsMember(entries: seq<(string, Value)>, key: string, text: string)
    ensures (key, text) in QueryPairs(entries)
        <==> exists i :: 0 <= i < |entries| && Yields(entries[i], key, text)
    decreases |entries|
  {
    if entries != [] {
      QueryPairsMember(entries[1..], key, text);
      var e := entries[0];
      if e.1.Array? {
        PresentTextsMember(e.1.items, text);
        var ts := PresentTexts(e.1.items);
        if (key, text) in EntryPairs(e.0, e.1) {
          var k :| 0 <= k < |ts| && EntryPairs(e.0, e.1)[k] == (key, text);
          assert ts[k] == text;
        }
        if Yields(e, key, text) {
          var k :| 0 <= k < |ts| && ts[k] == text;
          assert EntryPairs(e.0, e.1)[k] == (key, text);
        }
      }
      if exists i :: 0 <= i < |entries| && Yields(entries[i], key, text) {
        var i :| 0 <= i < |entries| && Yields(entries[i], key, text);
        if i > 0 {
          assert Yields(entries[1..][i - 1], key, text);
        }
      }
      if exists i :: 0 <= i < |entries| - 1 && Yields(entries[1..][i], key, text) {
        var i :| 0 <= i < |entries| - 1 && Yields(entries[1..][i], key, text);
        assert Yields(entries[i + 1], key, text);
      }
    }
  }

  /** Pairs keep the order of the entries: the pairs of an earlier entry come first. */
  lemma {:induction false} QueryPairsAppend(a: seq<(string, Value)>, b: seq<(string, Value)>)
    ensures QueryPairs(a + b) == QueryPairs(a) + QueryPairs(b)
    decreases |a|
  {
    if a == [] {
      assert a + b == b;
    } else {
      assert (a + b)[1..] == a[1..] + b;
      QueryPairsAppend(a[1..], b);
    }
  }

  /**
   * The query string is empty when there is no query object or no pair
   * survives; otherwise it is `?` followed by a string that parses back to
   * exactly the surviving pairs, in order.
   */
  lemma QueryStringMeaning(query: Option<seq<(string, Value)>>)
    ensures QueryString(query) == "" <==> (query.None? || QueryPairs(query.value) == [])
    ensures QueryString(query) != "" ==>
      QueryString(query)[0] == '?' && ParseForm(QueryString(query)[1..]) == Some(QueryPairs(query.value))
  {
    if query.Some? {
      var pairs := QueryPairs(query.value);
      SerializeFormEmpty(pairs);
      FormSerializeRoundTrip(pairs);
      if pairs != [] {
        assert ("?" + SerializeForm(pairs))[1..] == SerializeForm(pairs);
      }
    }
  }

  // ----- mergeHeaders -----

  /** A header name as `Headers` keeps it: no upper-case letter. */
  predicate IsLowerCaseName(name: string) { forall i :: 0 <= i < |name| ==> !IsUpper(name[i]) }

  /** Header lists keyed by lower-cased names, as `Headers` stores them. */
  type HeaderMap = m: map<string, string> | forall k :: k in m ==> IsLowerCaseName(k) witness map[]

  lemma ToLowerHasNoUpper(s: string)
    ensures IsLowerCaseName(ToLower(s))
  {
  }

  /** A `Headers` object: names are matched case-insensitively by lower-casing them. */
  class Headers {
    var fields: HeaderMap

    constructor (init: HeaderMap)
      ensures fields == init
    {
      fields := init;
    }

    function Has(name: string): bool
      reads this
    {
      ToLower(name) in fields
    }

    method Set(name: string, value: string)
      modifies this
      ensures fields == old(fields)[ToLower(name) := value]
    {
      ToLowerHasNoUpper(name);
      fields := fields[ToLower(name) := value];
    }
  }

  /** One step of the loop in `mergeHeaders`: a present value is `set`, a missing one skipped. */
  function SetIfPresent(fields: HeaderMap, e: (string, Item)): HeaderMap {
    ToLowerHasNoUpper(e.0);
    if e.1.Present? then fields[ToLower(e.0) := e.1.text] else fields
  }

  /** The headers after every extra entry has been applied in order. */
  function Overlay(fields: HeaderMap, extras: seq<(string, Item)>): HeaderMap
    decreases |extras|
  {
    if extras == [] then fields else Overlay(SetIfPresent(fields, extras[0]), extras[1..])
  }

  /** `mergeHeaders(baseHeaders, extraHeaders)`; `None` is an absent extra-header object. */
  method MergeHeaders(base: HeaderMap, extraHeaders: Option<seq<(string, Item)>>) returns (headers: Headers)
    ensures fresh(headers)
    ensures headers.fields == if extraHeaders.None? then base else Overlay(base, extraHeaders.value)
  {
    headers := new Headers(base);
    if extraHeaders.Some? {
      var extras := extraHeaders.value;
      var i := 0;
      while i < |extras|
        invariant 0 <= i <= |extras|
        invariant Overlay(headers.fields, extras[i..]) == Overlay(base, extras)
      {
        var (key, value) := extras[i];
        assert extras[i..][1..] == extras[i + 1..];
        if value.Present? {
          headers.Set(key, value.text);
        }
        i := i + 1;
      }
    }
  }

  /** The value of the last extra entry with a present value whose name lower-cases to `name`. */
  function LastExtra(extras: seq<(string, Item)>, name: string): Option<string>
    decreases |extras|
  {
    if extras == [] then None
    else
      var e := extras[|extras| - 1];
      if ToLower(e.0) == name && e.1.Present? then Some(e.1.text)
      else LastExtra(extras[..|extras| - 1], name)
  }

  lemma {:induction false} OverlaySnoc(fields: HeaderMap, extras: seq<(string, Item)>, e: (string, Item))
    ensures Overlay(fields, extras + [e]) == SetIfPresent(Overlay(fields, extras), e)
    decreases |extras|
  {
    if extras == [] {
      assert [e][1..] == [];
    } else {
      assert (extras + [e])[1..] == extras[1..] + [e];
      OverlaySnoc(SetIfPresent(fields, extras[0]), extras[1..], e);
    }
  }

  /**
   * After merging, a header is the value of the last present extra entry of
   * that name, if there is one, and otherwise whatever the base headers held:
   * null and undefined extras change nothing.
   */
  lemma {:induction false} OverlayLookup(base: HeaderMap, extras: seq<(string, Item)>, name: string)
    ensures var r := Overlay(base, extras);
      match LastExtra(extras, name)
      case Some(v) => name in r && r[name] == v
      case None => (name in r <==> name in base) && (name in base ==> r[name] == base[name])
    decreases |extras|
  {
    if extras != [] {
      var init := extras[..|extras| - 1];
      var e := extras[|extras| - 1];
      assert extras == init + [e];
      OverlaySnoc(base, init, e);
      OverlayLookup(base, init, name);
    }
  }

  // ----- apiRequest -----

  /** `DEFAULT_API_BASE_URL`: the environment's `EXPO_PUBLIC_API_BASE_URL` when it is non-empty. */
  function DefaultBaseUrl(envBaseUrl: Option<string>): (r: string)
    ensures envBaseUrl.Some? && envBaseUrl.value != "" ==> r == envBaseUrl.value
    ensures envBaseUrl.None? || envBaseUrl.value == "" ==> r == "http://127.0.0.1:8203"
  {
    if envBaseUrl.Some? && envBaseUrl.value != "" then envBaseUrl.value else "http://127.0.0.1:8203"
  }

  /** The URL requested: the base without trailing `/`, then the filled path, then the query string. */
  function RequestUrl(baseUrl: string, path: string, pathParams: Option<map<string, Item>>,
                      query: Option<seq<(string, Value)>>): Result<string, Failure>
  {
    match BuildPath(path, pathParams)
    case Err(e) => Err(e)
    case Ok(p) => Ok(TrimTrailingSlashes(baseUrl) + p + QueryString(query))
  }

  /**
   * The URL always starts with the whole base up to its trailing slashes, the
   * part taken from the base never ends in `/`, and a path starting with `/`
   * therefore meets the base at exactly one `/`.
   */
  lemma RequestUrlShape(baseUrl: string, path: string, pathParams: Option<map<string, Item>>,
                        query: Option<seq<(string, Value)>>)
    requires RequestUrl(baseUrl, path, pathParams, query).Ok?
    ensures var url := RequestUrl(baseUrl, path, pathParams, query).value;
      var base := TrimTrailingSlashes(baseUrl);
      && base <= url
      && (base == [] || base[|base| - 1] != '/')
      && url[|base|..] == BuildPath(path, pathParams).value + QueryString(query)
  {
    var base := TrimTrailingSlashes(baseUrl);
    var p := BuildPath(path, pathParams).value;
    var q := QueryString(query);
    assert RequestUrl(baseUrl, path, pathParams, query) == Ok(base + p + q);
    assert base + p + q == base + (p + q);
    PrefixOfConcat(base, p + q);
  }

  // A prefix fact about `+` that the solver does not find inside RequestUrlShape unprompted.
  lemma PrefixOfConcat(a: string, b: string)
    ensures a <= a + b && (a + b)[|a|..] == b
  {
  }

  /** The request body: form data and blobs as they are, an absent body as none, anything else as JSON text. */
  datatype Body = Absent | FormData(form: nat) | Blob(blob: nat) | Json(serialized: string)

  datatype BodyInit = FormDataInit(form: nat) | BlobInit(blob: nat) | TextInit(text: string)

  /**
   * The body decision of `apiRequest`: a JSON body gets `Content-Type:
   * application/json` unless some Content-Type is set already; form data,
   * blobs and an absent body leave the headers alone.
   */
  method PrepareBody(headers: Headers, body: Body) returns (requestBody: Option<BodyInit>)
    modifies headers
    ensures body.Absent? ==> requestBody == None
    ensures body.FormData? ==> requestBody == Some(FormDataInit(body.form))
    ensures body.Blob? ==> requestBody == Some(BlobInit(body.blob))
    ensures body.Json? ==> requestBody == Some(TextInit(body.serialized))
    ensures headers.fields == WithJsonContentType(old(headers.fields), body)
  {
    match body {
      case Absent =>
        NonJsonKeepsHeaders(headers.fields, body);
        requestBody := None;
      case FormData(f) =>
        NonJsonKeepsHeaders(headers.fields, body);
        requestBody := Some(FormDataInit(f));
      case Blob(b) =>
        NonJsonKeepsHeaders(headers.fields, body);
        requestBody := Some(BlobInit(b));
      case Json(text) =>
        ghost var before := headers.fields;
        LowerContentType();
        var present := headers.Has("Content-Type");
        assert present <==> "content-type" in before;
        if !present {
          headers.Set("Content-Type", "application/json");
          assert headers.fields == before["content-type" := "application/json"];
        }
        requestBody := Some(TextInit(text));
    }
  }

  lemma LowerContentType()
    ensures ToLower("Content-Type") == "content-type"
  {
    LowerOf("Content-Type");
  }

  // The literal goes through a parameter: a proof written about the literal
  // itself lets the solver unfold ToLower on it many times over and grows
  // several times as costly.
  lemma LowerOf(s: string)
    requires s == "Content-Type"
    ensures ToLower(s) == "content-type"
  {
    var r := ToLower(s);
    assert r[0] == 'c' && r[1] == 'o' && r[2] == 'n' && r[3] == 't' && r[4] == 'e' && r[5] == 'n';
    assert r[6] == 't' && r[7] == '-' && r[8] == 't' && r[9] == 'y' && r[10] == 'p' && r[11] == 'e';
  }

  /** The headers after the body decision. */
  function WithJsonContentType(fields: HeaderMap, body: Body): HeaderMap {
    if body.Json? && "content-type" !in fields then fields["content-type" := "application/json"] else fields
  }

  lemma NonJsonKeepsHeaders(fields: HeaderMap, body: Body)
    requires !body.Json?
    ensures WithJsonContentType(fields, body) == fields
  {
  }

  /** A Content-Type already present is never replaced, and only a JSON body adds one. */
  lemma ContentTypeDefault(fields: HeaderMap, body: Body)
    ensures var r := WithJsonContentType(fields, body);
      && ("content-type" in r <==> ("content-type" in fields || body.Json?))
      && ("content-type" in fields ==> r["content-type"] == fields["content-type"])
      && ("content-type" !in fields && body.Json? ==> r["content-type"] == "application/json")
      && (forall n :: n != "content-type" ==> (n in r <==> n in fields))
      && (forall n :: n in fields ==> r[n] == fields[n])
  {
  }

  /** What `fetch` resolves to, reduced to what `apiRequest` reads of it. */
  datatype Response<J> = Response(status: nat, statusText: string, text: Option<string>, json: Option<J>) {
    /** `response.ok`: the status is in the range 200 to 299. */
    predicate Ok() { 200 <= status <= 299 }
  }

  /** What `apiRequest` resolves to or throws: `undefined` is `NoValue`. */
  datatype Outcome<J> = Failed(failure: Failure) | NoValue | Data(value: J)

  /**
   * The response handling of `apiRequest`: a status outside 200-299 throws
   * with the status, the status text and, when reading it succeeded, the
   * body; 204 resolves to `undefined`; otherwise the parsed JSON, or
   * `undefined` when parsing fails.
   */
  function HandleResponse<J>(response: Response<J>): (o: Outcome<J>)
    ensures o.Failed? <==> !response.Ok()
    ensures o.Failed? ==> o.failure == RequestFailed(response.status, response.statusText, response.text.GetOr(""))
    ensures o.Data? ==> response.status != 204 && response.json == Some(o.value)
    ensures response.Ok() && (response.status == 204 || response.json.None?) ==> o == NoValue
  {
    if !response.Ok() then Failed(RequestFailed(response.status, response.statusText, response.text.GetOr("")))
    else if response.status == 204 then NoValue
    else match response.json
      case None => NoValue
      case Some(v) => Data(v)
  }

  /**
   * The message of a failed request: it names the status, as a decimal
   * number that reads back as the status, and the status text, and it carries
   * ` - ` and the body exactly when the body is non-empty.
   */
  lemma RequestFailedMessage(status: nat, statusText: string, body: string)
    ensures var m := Message(RequestFailed(status, statusText, body));
      var head := "请求失败: " + NatToString(status) + " " + statusText;
      && head <= m
      && ParseDecimal(m[|"请求失败: "|..|"请求失败: "| + |NatToString(status)|]) == status
      && (body == "" ==> m == head)
      && (body != "" ==> m == head + " - " + body)
  {
    var m := Message(RequestFailed(status, statusText, body));
    var digits := NatToString(status);
    assert m[|"请求失败: "|..|"请求失败: "| + |digits|] == digits;
    ParseNatToString(status);
  }

  /** The parameters `apiRequest` reads from its config. */
  datatype RequestConfig = RequestConfig(
    path: string,
    verb: string,
    pathParams: Option<map<string, Item>>,
    query: Option<seq<(string, Value)>>,
    header: Option<seq<(string, Item)>>,
    body: Body,
    baseUrl: Option<string>,
    initHeaders: HeaderMap)

  /**
   * The arguments `apiRequest` hands to `fetch` that it sets itself: the URL
   * and the method, headers and body of the options. The caller's other
   * `init` fields, spread into those options unchanged, are not modelled.
   */
  datatype Request = Request(url: string, verb: string, headers: HeaderMap, body: Option<BodyInit>)

  /** `fetch` either rejects (a network error) or resolves to a response. */
  datatype FetchResult<J> = NetworkError(reason: string) | Received(response: Response<J>)

  /**
   * `apiRequest(config)`, with `fetch` given as the result it produces.
   * `sent` is the request passed to `fetch`, absent when `buildPath` threw
   * before anything was sent.
   */
  method ApiRequest<J>(config: RequestConfig, defaultBaseUrl: string, fetch: FetchResult<J>)
    returns (sent: Option<Request>, outcome: Outcome<J>)
    ensures var url := RequestUrl(config.baseUrl.GetOr(defaultBaseUrl), config.path, config.pathParams, config.query);
      match url
      case Err(e) => sent == None && outcome == Failed(e)
      case Ok(u) =>
        && sent.Some?
        && sent.value.url == u
        && sent.value.verb == ToUpper(config.verb)
        && sent.value.headers == WithJsonContentType(
             if config.header.None? then config.initHeaders else Overlay(config.initHeaders, config.header.value),
             config.body)
        && sent.value.body == (match config.body
                               case Absent => None
                               case FormData(f) => Some(FormDataInit(f))
                               case Blob(b) => Some(BlobInit(b))
                               case Json(t) => Some(TextInit(t)))
        && outcome == match fetch
                      case NetworkError(reason) => Failed(NetworkFailure(reason))
                      case Received(response) => HandleResponse(response)
  {
    var baseUrl := config.baseUrl.GetOr(defaultBaseUrl);
    var base := TrimTrailingSlashes(baseUrl);
    var finalPath := BuildPath(config.path, config.pathParams);
    if finalPath.Err? {
      return None, Failed(finalPath.error);
    }
    var queryString := BuildQueryString(config.query);
    var url := base + finalPath.value + queryString;
    var headers := MergeHeaders(config.initHeaders, config.header);
    var requestBody := PrepareBody(headers, config.body);
    sent := Some(Request(url, ToUpper(config.verb), headers.fields, requestBody));
    match fetch {
      case NetworkError(reason) => outcome := Failed(NetworkFailure(reason));
      case Received(response) => outcome := HandleResponse(response);
    }
  }
}
