/**
 * The generation steps of scripts/generate-openapi-modules.js: picking a
 * unique function name per operation (`buildFunctionName`), writing the
 * lines of one controller file (`generateControllerFileContent`), grouping
 * the operations of the OpenAPI `paths` object by their first tag and
 * sorting each group by path and method (`main`).
 *
 * The document arrives as JSON; here a path item is either something that
 * is not an object or the list of its keys with the operation under each
 * (absent when the value is falsy), and an operation keeps the fields the
 * script reads.
 */
module OpenApiGenerator {
  import opened Wrappers
  import opened Text
  import opened OpenApiNames

  /** An operation object: its `tags` array (empty when it is no array), `summary` and `operationId` when they are strings. */
  datatype Operation = Operation(tags: seq<string>, summary: Option<string>, operationId: Option<string>)

  /** One `{ path, method, operation }` record of a tag group. */
  datatype OperationEntry = OperationEntry(path: string, verb: string, operation: Operation)

  // The loop-step fact about prefixes `s[..i]` that the loops below call at each iteration.
  lemma TakeOneMore<T>(s: seq<T>, i: nat)
    requires i < |s|
    ensures s[..i + 1] == s[..i] + [s[i]]
  {
  }

  // ----- buildFunctionName -----

  /** The `usedNames` set one controller file shares between its operations. */
  class NameSet {
    var names: set<string>

    constructor ()
      ensures names == {}
    {
      names := {};
    }

    function Has(name: string): bool
      reads this
    {
      name in names
    }

    method Add(name: string)
      modifies this
      ensures names == old(names) + {name}
    {
      names := names + {name};
    }
  }

  /** `seg.replace(/[{}]/g, '')`. */
  function RemoveBraces(seg: string): (r: string)
    ensures '{' !in r && '}' !in r
    ensures |r| <= |seg|
    decreases |seg|
  {
    if seg == [] then []
    else if seg[0] == '{' || seg[0] == '}' then RemoveBraces(seg[1..])
    else [seg[0]] + RemoveBraces(seg[1..])
  }

  /** The path segments the fallback name uses: empty ones and `api` dropped, braces removed. */
  function KeptSegments(parts: seq<string>): (r: seq<string>)
    ensures forall k :: 0 <= k < |r| ==> '{' !in r[k] && '}' !in r[k]
    decreases |parts|
  {
    if parts == [] then []
    else if parts[0] != "" && parts[0] != "api" then [RemoveBraces(parts[0])] + KeptSegments(parts[1..])
    else KeptSegments(parts[1..])
  }

  /** A segment is used exactly when some non-empty segment other than `api` gives it. */
  lemma {:induction false} KeptSegmentsMember(parts: seq<string>, x: string)
    ensures x in KeptSegments(parts)
        <==> exists k :: 0 <= k < |parts| && parts[k] != "" && parts[k] != "api" && x == RemoveBraces(parts[k])
    decreases |parts|
  {
    if parts != [] {
      KeptSegmentsMember(parts[1..], x);
      var tail := parts[1..];
      assert forall k :: 0 <= k < |tail| ==> tail[k] == parts[k + 1];
      if exists k :: 0 <= k < |parts| && parts[k] != "" && parts[k] != "api" && x == RemoveBraces(parts[k]) {
        var k :| 0 <= k < |parts| && parts[k] != "" && parts[k] != "api" && x == RemoveBraces(parts[k]);
        if k > 0 {
          assert tail[k - 1] == parts[k];
        }
      }
    }
  }

  /** `[method.toLowerCase(), tag, ...segments].join(' ')`. */
  function FallbackText(verb: string, tag: string, apiPath: string): string {
    Join([ToLower(verb), tag] + KeptSegments(Split(apiPath, '/')), " ")
  }

  /** Whether `operationId` is a string that is not blank. */
  predicate HasUsableId(operationId: Option<string>) {
    operationId.Some? && Trim(operationId.value) != ""
  }

  /** The name before deduplication: from the operationId when it is usable, otherwise from method, tag and path. */
  function BaseName(verb: string, tag: string, apiPath: string, operationId: Option<string>): (r: string)
    ensures r != [] && AllAlnum(r) && IsLower(r[0])
  {
    if HasUsableId(operationId) then ToIdentifier(operationId.value)
    else ToIdentifier(FallbackText(verb, tag, apiPath))
  }

  /** The letters and digits of each part, one part after the other. */
  function LettersOf(parts: seq<string>): (r: string)
    ensures AllAlnum(r)
    decreases |parts|
  {
    if parts == [] then [] else AlnumOnly(parts[0]) + LettersOf(parts[1..])
  }

  /** Joining with spaces adds no letter or digit. */
  lemma {:induction false} AlnumOnlyOfJoin(parts: seq<string>)
    ensures AlnumOnly(Join(parts, " ")) == LettersOf(parts)
    decreases |parts|
  {
    if |parts| == 1 {
      assert parts[1..] == [];
    } else if |parts| > 1 {
      var tail := parts[1..];
      AlnumOnlyOfJoin(tail);
      AlnumOnlyAppend(parts[0] + " ", Join(tail, " "));
      AlnumOnlyAppend(parts[0], " ");
    }
  }

  lemma FallbackTextLetters(verb: string, tag: string, apiPath: string)
    ensures AlnumOnly(FallbackText(verb, tag, apiPath))
         == AlnumOnly(ToLower(verb)) + AlnumOnly(tag) + LettersOf(KeptSegments(Split(apiPath, '/')))
  {
    var segs := KeptSegments(Split(apiPath, '/'));
    var parts := [ToLower(verb), tag] + segs;
    AlnumOnlyOfJoin(parts);
    assert parts[1..] == [tag] + segs;
    assert parts[1..][1..] == segs;
  }

  /**
   * Without a usable operationId the name spells, apart from case and a
   * possible `op` prefix, the letters and digits of the lower-cased method,
   * then of the tag, then of each kept path segment.
   */
  lemma FallbackNameSpelling(verb: string, tag: string, apiPath: string, operationId: Option<string>)
    requires !HasUsableId(operationId)
    ensures var a := AlnumOnly(ToLower(verb)) + AlnumOnly(tag) + LettersOf(KeptSegments(Split(apiPath, '/')));
      a != [] ==> ToLower(BaseName(verb, tag, apiPath, operationId)) == (if IsDigit(a[0]) then "op" else "") + ToLower(a)
  {
    FallbackTextLetters(verb, tag, apiPath);
    if AlnumOnly(FallbackText(verb, tag, apiPath)) != [] {
      KeepsLettersAndDigits(FallbackText(verb, tag, apiPath));
    }
  }

  /** The `index`-th name the loop tries: the base name itself, then the base name followed by 1, 2, .... */
  function Candidate(base: string, index: nat): string {
    if index == 0 then base else base + NatToString(index)
  }

  lemma AppendCancel(base: string, x: string, y: string)
    ensures base + x == base + y <==> x == y
  {
    assert (base + x)[|base|..] == x;
    assert (base + y)[|base|..] == y;
  }

  /** Different indices give different candidates. */
  lemma CandidateInjective(base: string, j: nat, k: nat)
    ensures Candidate(base, j) == Candidate(base, k) <==> j == k
  {
    if j > 0 && k > 0 {
      AppendCancel(base, NatToString(j), NatToString(k));
      NatToStringInjective(j, k);
    }
  }

  /**
   * `name` is what the deduplication loop picks from `base` against the
   * names in `used`: the first candidate that is not taken.
   */
  ghost predicate FirstFree(base: string, used: set<string>, name: string) {
    exists k: nat :: name == Candidate(base, k) && name !in used
      && forall j: nat :: j < k ==> Candidate(base, j) in used
  }

  /** At most one name is the first free candidate: the loop's result is determined by the base name and the set. */
  lemma FirstFreeUnique(base: string, used: set<string>, n1: string, n2: string)
    requires FirstFree(base, used, n1) && FirstFree(base, used, n2)
    ensures n1 == n2
  {
    var k1: nat :| n1 == Candidate(base, k1) && n1 !in used && forall j: nat :: j < k1 ==> Candidate(base, j) in used;
    var k2: nat :| n2 == Candidate(base, k2) && n2 !in used && forall j: nat :: j < k2 ==> Candidate(base, j) in used;
    assert !(k1 < k2) && !(k2 < k1);
  }

  /** A free base name is used as it is; a taken one gets a numeric suffix of at least 1. */
  lemma FirstFreeShape(base: string, used: set<string>, name: string)
    requires FirstFree(base, used, name)
    ensures base !in used <==> name == base
    ensures base in used ==> exists k: nat :: k >= 1 && name == base + NatToString(k)
  {
    var k: nat :| name == Candidate(base, k) && name !in used && forall j: nat :: j < k ==> Candidate(base, j) in used;
    if k > 0 {
      assert Candidate(base, 0) in used;
      CandidateInjective(base, 0, k);
    }
  }

  /** The candidates before the `n`-th. */
  ghost function Tried(base: string, n: nat): set<string> {
    set j: nat | j < n :: Candidate(base, j)
  }

  lemma TriedNext(base: string, n: nat)
    ensures Tried(base, n + 1) == Tried(base, n) + {Candidate(base, n)}
    ensures Candidate(base, n) !in Tried(base, n)
  {
    forall j: nat | j < n
      ensures Candidate(base, j) != Candidate(base, n)
    {
      CandidateInjective(base, j, n);
    }
  }

  lemma FewerLeft(used: set<string>, tried: set<string>, x: string)
    requires x in used && x !in tried
    ensures |used - (tried + {x})| < |used - tried|
  {
    assert used - (tried + {x}) == (used - tried) - {x};
  }

  /**
   * `buildFunctionName(method, tag, apiPath, operationId, usedNames)`: the
   * first candidate of the base name that `usedNames` does not hold, which
   * is then added to it.
   */
  method BuildFunctionName(verb: string, tag: string, apiPath: string, operationId: Option<string>, usedNames: NameSet)
    returns (name: string)
    modifies usedNames
    ensures FirstFree(BaseName(verb, tag, apiPath, operationId), old(usedNames.names), name)
    ensures name !in old(usedNames.names)
    ensures usedNames.names == old(usedNames.names) + {name}
  {
    var baseName := BaseName(verb, tag, apiPath, operationId);
    name := baseName;
    var index := 1;
    while usedNames.Has(name)
      invariant index >= 1
      invariant name == Candidate(baseName, index - 1)
      invariant forall j: nat :: j < index - 1 ==> Candidate(baseName, j) in usedNames.names
      invariant Tried(baseName, index - 1) <= usedNames.names
      invariant usedNames.names == old(usedNames.names)
      decreases |usedNames.names - Tried(baseName, index - 1)|
    {
      TriedNext(baseName, index - 1);
      FewerLeft(usedNames.names, Tried(baseName, index - 1), name);
      name := baseName + NatToString(index);
      index := index + 1;
    }
    assert FirstFree(baseName, usedNames.names, name) by {
      assert name == Candidate(baseName, index - 1);
    }
    usedNames.Add(name);
  }

  // ----- generateControllerFileContent -----

  /** The lines every controller file starts with. */
  function HeaderLines(): seq<string> {
    [ "/**",
      " * " + "此文件由 scripts/" + "generate-openapi-modules.js 自动生成。",
      " *",
      " * 请勿手动修改，如需更新请执行：",
      " *   npm run openapi",
      " */",
      "",
      "import { apiRequest, " + "type ApiRequestConfig, " + "type ApiResponse } from '..';",
      "" ]
  }

  /** The summary as the doc comment shows it: trimmed, and only when it is a non-blank string. */
  function DocSummary(op: Operation): (r: Option<string>)
    ensures r.Some? <==> op.summary.Some? && Trim(op.summary.value) != ""
    ensures r.Some? ==> r.value == Trim(op.summary.value) && IsTrimmed(r.value)
  {
    if op.summary.Some? && Trim(op.summary.value) != "" then Some(Trim(op.summary.value)) else None
  }

  /** `if (operationId)`: a string operationId that is not empty. */
  predicate HasIdLine(operationId: Option<string>) {
    operationId.Some? && operationId.value != ""
  }

  /** The doc comment above a wrapper: the summary line, then the operationId line, each when present. */
  function DocLines(summary: Option<string>, operationId: Option<string>): (r: seq<string>)
    ensures r == [] <==> summary.None? && !HasIdLine(operationId)
    ensures r != [] ==> |r| >= 3 && r[0] == "/**" && r[|r| - 1] == " */"
    ensures summary.Some? ==> r[1] == " * " + summary.value
    ensures HasIdLine(operationId) ==> " * operationId: " + operationId.value in r
  {
    var idLine := if HasIdLine(operationId) then [" * operationId: " + operationId.value] else [];
    match summary
    case Some(s) => ["/**", " * " + s] + idLine + [" */"]
    case None => if HasIdLine(operationId) then ["/**"] + idLine + [" */"] else []
  }

  /** The first line of the wrapper for `path` and `verb`. */
  function ExportLine(name: string, path: string, verb: string): string {
    "export function " + name + "(config?: Omit<ApiRequestConfig<'" + path + "', '" + verb + "'>, 'path' | 'method'>,"
  }

  /** The wrapper function: it calls `apiRequest` with the caller's config and fixes path and method. */
  function FunctionLines(name: string, path: string, verb: string): seq<string> {
    [ ExportLine(name, path, verb),
      "): Promise<ApiResponse<'" + path + "', '" + verb + "'>> {",
      "  return apiRequest<'" + path + "', '" + verb + "'>({",
      "    ...(config as ApiRequestConfig<'" + path + "', '" + verb + "'> | undefined),",
      "    path: '" + path + "',",
      "    method: '" + verb + "',",
      "  });",
      "}",
      "" ]
  }

  /** Everything one operation adds to the file. */
  function EntryLines(e: OperationEntry, name: string): seq<string> {
    DocLines(DocSummary(e.operation), e.operation.operationId) + FunctionLines(name, e.path, ToLower(e.verb))
  }

  /** The pieces one after the other. */
  function Flatten(chunks: seq<seq<string>>): seq<string>
    decreases |chunks|
  {
    if chunks == [] then [] else Flatten(chunks[..|chunks| - 1]) + chunks[|chunks| - 1]
  }

  /** The lines each operation adds, in order. */
  function EntryChunks(ops: seq<OperationEntry>, names: seq<string>): seq<seq<string>>
    requires |names| == |ops|
  {
    seq(|ops|, k requires 0 <= k < |ops| => EntryLines(ops[k], names[k]))
  }

  function BodyLines(ops: seq<OperationEntry>, names: seq<string>): seq<string>
    requires |names| == |ops|
  {
    Flatten(EntryChunks(ops, names))
  }

  /** The lines of a controller file whose operations got the names `names`. */
  function FileLines(ops: seq<OperationEntry>, names: seq<string>): seq<string>
    requires |names| == |ops|
  {
    HeaderLines() + BodyLines(ops, names)
  }

  function NameSetOf(names: seq<string>): set<string> {
    set k | 0 <= k < |names| :: names[k]
  }

  /** The base name `buildFunctionName` starts from for a record of the file of `tag`. */
  function EntryBase(tag: string, e: OperationEntry): string {
    BaseName(ToLower(e.verb), tag, e.path, e.operation.operationId)
  }

  /** Every name is the first free candidate of its operation's base name against the names before it. */
  ghost predicate NamesChosen(tag: string, ops: seq<OperationEntry>, names: seq<string>)
    requires |names| == |ops|
  {
    forall i :: 0 <= i < |ops| ==> FirstFree(EntryBase(tag, ops[i]), NameSetOf(names[..i]), names[i])
  }

  lemma NameSetOfSnoc(names: seq<string>, n: string)
    ensures NameSetOf(names + [n]) == NameSetOf(names) + {n}
  {
    var s := names + [n];
    assert forall k :: 0 <= k < |names| ==> s[k] == names[k];
    assert s[|names|] == n;
  }

  /** One turn of the `forEach` of generateControllerFileContent: the new name and lines extend the old ones. */
  lemma RenderStep(tag: string, ops: seq<OperationEntry>, i: nat, names: seq<string>, n: string)
    requires i < |ops| && |names| == i && NamesChosen(tag, ops[..i], names)
    requires FirstFree(EntryBase(tag, ops[i]), NameSetOf(names), n)
    ensures NamesChosen(tag, ops[..i + 1], names + [n])
    ensures FileLines(ops[..i + 1], names + [n]) == FileLines(ops[..i], names) + EntryLines(ops[i], n)
    ensures NameSetOf(names + [n]) == NameSetOf(names) + {n}
  {
    TakeOneMore(ops, i);
    NamesChosenSnoc(tag, ops[..i], names, ops[i], n);
    FileLinesSnoc(ops[..i], names, ops[i], n);
    NameSetOfSnoc(names, n);
  }

  lemma NamesChosenSnoc(tag: string, ops: seq<OperationEntry>, names: seq<string>, e: OperationEntry, n: string)
    requires |names| == |ops| && NamesChosen(tag, ops, names)
    requires FirstFree(EntryBase(tag, e), NameSetOf(names), n)
    ensures NamesChosen(tag, ops + [e], names + [n])
  {
    var ops', names' := ops + [e], names + [n];
    forall i | 0 <= i < |ops'|
      ensures FirstFree(EntryBase(tag, ops'[i]), NameSetOf(names'[..i]), names'[i])
    {
      if i < |ops| {
        assert names'[..i] == names[..i];
        assert ops'[i] == ops[i] && names'[i] == names[i];
      } else {
        assert names'[..i] == names;
      }
    }
  }

  lemma FileLinesSnoc(ops: seq<OperationEntry>, names: seq<string>, e: OperationEntry, n: string)
    requires |names| == |ops|
    ensures FileLines(ops + [e], names + [n]) == FileLines(ops, names) + EntryLines(e, n)
  {
    BodyLinesSnoc(ops, names, e, n);
  }

  lemma BodyLinesSnoc(ops: seq<OperationEntry>, names: seq<string>, e: OperationEntry, n: string)
    requires |names| == |ops|
    ensures BodyLines(ops + [e], names + [n]) == BodyLines(ops, names) + EntryLines(e, n)
  {
    var c := EntryChunks(ops + [e], names + [n]);
    assert c[..|ops|] == EntryChunks(ops, names);
    assert c[|ops|] == EntryLines(e, n);
  }

  /** No two operations of a file share a function name. */
  lemma NamesDistinct(tag: string, ops: seq<OperationEntry>, names: seq<string>)
    requires |names| == |ops| && NamesChosen(tag, ops, names)
    ensures forall i, j :: 0 <= i < j < |names| ==> names[i] != names[j]
  {
    forall i, j | 0 <= i < j < |names|
      ensures names[i] != names[j]
    {
      var base := EntryBase(tag, ops[j]);
      var k: nat :| names[j] == Candidate(base, k) && names[j] !in NameSetOf(names[..j])
        && forall m: nat :: m < k ==> Candidate(base, m) in NameSetOf(names[..j]);
      assert names[..j][i] == names[i];
      assert names[i] in NameSetOf(names[..j]);
    }
  }

  /**
   * The callback `generateControllerFileContent` runs for one operation:
   * it picks the function name and appends the doc comment and the wrapper.
   */
  method EmitOperation(tag: string, e: OperationEntry, usedFunctionNames: NameSet, lines: seq<string>)
    returns (functionName: string, lines': seq<string>)
    modifies usedFunctionNames
    ensures FirstFree(EntryBase(tag, e), old(usedFunctionNames.names), functionName)
    ensures usedFunctionNames.names == old(usedFunctionNames.names) + {functionName}
    ensures lines' == lines + EntryLines(e, functionName)
  {
    var summary := DocSummary(e.operation);
    var operationId := e.operation.operationId;
    var methodLiteral := ToLower(e.verb);
    functionName := BuildFunctionName(methodLiteral, tag, e.path, operationId, usedFunctionNames);
    lines' := lines + DocLines(summary, operationId) + FunctionLines(functionName, e.path, methodLiteral);
  }

  /**
   * `generateControllerFileContent(tag, operations)`: the header, then for
   * each operation in order its doc comment and its wrapper under a fresh
   * name, joined with line feeds. `names` are the function names in order.
   */
  method GenerateControllerFileContent(tag: string, operations: seq<OperationEntry>)
    returns (content: string, names: seq<string>)
    ensures |names| == |operations|
    ensures NamesChosen(tag, operations, names)
    ensures content == Join(FileLines(operations, names), "\n")
    ensures (forall k :: 0 <= k < |operations| ==> OneLineEntry(operations[k])) ==>
      ExportLines(Split(content, '\n'))
      == seq(|operations|, k requires 0 <= k < |operations| => ExportLine(names[k], operations[k].path, ToLower(operations[k].verb)))
  {
    var usedFunctionNames := new NameSet();
    var lines := HeaderLines();
    names := [];
    var i := 0;
    while i < |operations|
      invariant 0 <= i <= |operations|
      invariant |names| == i
      invariant usedFunctionNames.names == NameSetOf(names)
      invariant NamesChosen(tag, operations[..i], names)
      invariant lines == FileLines(operations[..i], names)
    {
      var functionName;
      functionName, lines := EmitOperation(tag, operations[i], usedFunctionNames, lines);
      RenderStep(tag, operations, i, names, functionName);
      names := names + [functionName];
      i := i + 1;
    }
    assert operations[..i] == operations;
    content := Join(lines, "\n");
    if forall k :: 0 <= k < |operations| ==> OneLineEntry(operations[k]) {
      ContentExports(tag, operations, names);
    }
  }

  // The exported functions of a file, in order.

  predicate IsExportLine(l: string) {
    |l| >= 16 && l[..16] == "export function "
  }

  function ExportLines(lines: seq<string>): seq<string>
    decreases |lines|
  {
    if lines == [] then []
    else if IsExportLine(lines[|lines| - 1]) then ExportLines(lines[..|lines| - 1]) + [lines[|lines| - 1]]
    else ExportLines(lines[..|lines| - 1])
  }

  lemma {:induction false} ExportLinesAppend(a: seq<string>, b: seq<string>)
    ensures ExportLines(a + b) == ExportLines(a) + ExportLines(b)
    decreases |b|
  {
    if b == [] {
      assert a + b == a;
    } else {
      var b' := b[..|b| - 1];
      assert (a + b)[..|a + b| - 1] == a + b';
      ExportLinesAppend(a, b');
    }
  }

  /** Lines that do not start with `e` export nothing. */
  lemma {:induction false} NoExportLines(lines: seq<string>)
    requires forall k :: 0 <= k < |lines| ==> lines[k] == [] || lines[k][0] != 'e'
    ensures ExportLines(lines) == []
    decreases |lines|
  {
    if lines != [] {
      NoExportLines(lines[..|lines| - 1]);
    }
  }

  lemma HeaderExportsNothing()
    ensures ExportLines(HeaderLines()) == []
  {
    var h := HeaderLines();
    assert h[0][0] == '/' && h[1][0] == ' ' && h[2][0] == ' ' && h[3][0] == ' ' && h[4][0] == ' ';
    assert h[5][0] == ' ' && h[6] == [] && h[7][0] == 'i' && h[8] == [];
    NoExportLines(h);
  }

  lemma DocExportsNothing(summary: Option<string>, operationId: Option<string>)
    ensures ExportLines(DocLines(summary, operationId)) == []
  {
    var d := DocLines(summary, operationId);
    assert forall k :: 0 <= k < |d| ==> d[k][0] == '/' || d[k][0] == ' ';
    NoExportLines(d);
  }

  lemma FunctionExportsItself(name: string, path: string, verb: string)
    ensures ExportLines(FunctionLines(name, path, verb)) == [ExportLine(name, path, verb)]
  {
    var f := FunctionLines(name, path, verb);
    var head, rest := f[0], f[1..];
    assert head[..16] == "export function ";
    assert rest[0][0] == ')' && rest[1][0] == ' ' && rest[2][0] == ' ' && rest[3][0] == ' ';
    assert rest[4][0] == ' ' && rest[5][0] == ' ' && rest[6][0] == '}' && rest[7] == [];
    NoExportLines(rest);
    assert f == [head] + rest;
    ExportLinesAppend([head], rest);
    assert [head][..0] == [];
  }

  lemma EntryExports(e: OperationEntry, name: string)
    ensures ExportLines(EntryLines(e, name)) == [ExportLine(name, e.path, ToLower(e.verb))]
  {
    DocExportsNothing(DocSummary(e.operation), e.operation.operationId);
    FunctionExportsItself(name, e.path, ToLower(e.verb));
    ExportLinesAppend(DocLines(DocSummary(e.operation), e.operation.operationId), FunctionLines(name, e.path, ToLower(e.verb)));
  }

  lemma {:induction false} FlattenExports(chunks: seq<seq<string>>, exports: seq<string>)
    requires |chunks| == |exports|
    requires forall k :: 0 <= k < |chunks| ==> ExportLines(chunks[k]) == [exports[k]]
    ensures ExportLines(Flatten(chunks)) == exports
    decreases |chunks|
  {
    if chunks != [] {
      var n := |chunks| - 1;
      FlattenExports(chunks[..n], exports[..n]);
      ExportLinesAppend(Flatten(chunks[..n]), chunks[n]);
      assert exports == exports[..n] + [exports[n]];
    }
  }

  lemma BodyExports(ops: seq<OperationEntry>, names: seq<string>)
    requires |names| == |ops|
    ensures ExportLines(BodyLines(ops, names))
         == seq(|ops|, k requires 0 <= k < |ops| => ExportLine(names[k], ops[k].path, ToLower(ops[k].verb)))
  {
    var chunks := EntryChunks(ops, names);
    var exports := seq(|ops|, k requires 0 <= k < |ops| => ExportLine(names[k], ops[k].path, ToLower(ops[k].verb)));
    forall k | 0 <= k < |chunks|
      ensures ExportLines(chunks[k]) == [exports[k]]
    {
      EntryExports(ops[k], names[k]);
    }
    FlattenExports(chunks, exports);
  }

  /**
   * The lines pushed for a controller file export exactly one function per
   * operation, in the order of the operations, each wrapping that
   * operation's path and lower-cased method under its chosen name.
   * `ContentExports` carries this over to the joined text of the file.
   */
  lemma ExportsFollowOperations(ops: seq<OperationEntry>, names: seq<string>)
    requires |names| == |ops|
    ensures ExportLines(FileLines(ops, names))
         == seq(|ops|, k requires 0 <= k < |ops| => ExportLine(names[k], ops[k].path, ToLower(ops[k].verb)))
  {
    HeaderExportsNothing();
    ExportLinesAppend(HeaderLines(), BodyLines(ops, names));
    BodyExports(ops, names);
  }

  // From the pushed lines to the text of the file.

  /** No line feed in the texts an operation puts into the file: summary, operationId, path and method. */
  predicate OneLineEntry(e: OperationEntry) {
    && (DocSummary(e.operation).Some? ==> '\n' !in DocSummary(e.operation).value)
    && (e.operation.operationId.Some? ==> '\n' !in e.operation.operationId.value)
    && '\n' !in e.path
    && '\n' !in e.verb
  }

  predicate OneLineEach(lines: seq<string>) {
    forall k :: 0 <= k < |lines| ==> '\n' !in lines[k]
  }

  lemma OneLineConcat(a: string, b: string)
    requires '\n' !in a && '\n' !in b
    ensures '\n' !in a + b
  {
  }

  lemma GeneratedNoteOneLine()
    ensures '\n' !in HeaderLines()[1]
  {
    OneLineConcat(" * ", "此文件由 scripts/");
    OneLineConcat(" * " + "此文件由 scripts/", "generate-openapi-modules.js 自动生成。");
  }

  lemma ImportOneLine()
    ensures '\n' !in HeaderLines()[7]
  {
    OneLineConcat("import { apiRequest, ", "type ApiRequestConfig, ");
    OneLineConcat("import { apiRequest, " + "type ApiRequestConfig, ", "type ApiResponse } from '..';");
  }

  lemma HeaderOneLine()
    ensures OneLineEach(HeaderLines())
  {
    var h := HeaderLines();
    GeneratedNoteOneLine();
    ImportOneLine();
    assert '\n' !in h[0] && '\n' !in h[2] && '\n' !in h[3] && '\n' !in h[4] && '\n' !in h[5];
  }

  lemma LowerKeepsLineFeeds(s: string)
    requires '\n' !in s
    ensures '\n' !in ToLower(s)
  {
  }

  lemma NameOneLine(base: string, k: nat)
    requires AllAlnum(base)
    ensures '\n' !in Candidate(base, k)
  {
    if k > 0 {
      var d := NatToString(k);
      assert forall i :: 0 <= i < |d| ==> IsDigit(d[i]);
    }
  }

  lemma ExportLiteralsOneLine()
    ensures '\n' !in "(config?: Omit<ApiRequestConfig<'"
    ensures '\n' !in "'>, 'path' | 'method'>,"
  {
  }

  lemma ExportLineOneLine(name: string, path: string, verb: string)
    requires '\n' !in name && '\n' !in path && '\n' !in verb
    ensures '\n' !in ExportLine(name, path, verb)
  {
    ExportLiteralsOneLine();
    OneLineConcat("export function ", name);
    OneLineConcat("export function " + name, "(config?: Omit<ApiRequestConfig<'");
    OneLineConcat("export function " + name + "(config?: Omit<ApiRequestConfig<'", path);
    OneLineConcat("export function " + name + "(config?: Omit<ApiRequestConfig<'" + path, "', '");
    OneLineConcat("export function " + name + "(config?: Omit<ApiRequestConfig<'" + path + "', '", verb);
    OneLineConcat("export function " + name + "(config?: Omit<ApiRequestConfig<'" + path + "', '" + verb, "'>, 'path' | 'method'>,");
  }

  lemma PromiseLineOneLine(name: string, path: string, verb: string)
    requires '\n' !in name && '\n' !in path && '\n' !in verb
    ensures '\n' !in FunctionLines(name, path, verb)[1]
  {
    OneLineConcat("): Promise<ApiResponse<'", path);
    OneLineConcat("): Promise<ApiResponse<'" + path, "', '");
    OneLineConcat("): Promise<ApiResponse<'" + path + "', '", verb);
    OneLineConcat("): Promise<ApiResponse<'" + path + "', '" + verb, "'>> {");
  }

  lemma ReturnLineOneLine(name: string, path: string, verb: string)
    requires '\n' !in name && '\n' !in path && '\n' !in verb
    ensures '\n' !in FunctionLines(name, path, verb)[2]
  {
    OneLineConcat("  return apiRequest<'", path);
    OneLineConcat("  return apiRequest<'" + path, "', '");
    OneLineConcat("  return apiRequest<'" + path + "', '", verb);
    OneLineConcat("  return apiRequest<'" + path + "', '" + verb, "'>({");
  }

  lemma SpreadLineOneLine(name: string, path: string, verb: string)
    requires '\n' !in name && '\n' !in path && '\n' !in verb
    ensures '\n' !in FunctionLines(name, path, verb)[3]
  {
    OneLineConcat("    ...(config as ApiRequestConfig<'", path);
    OneLineConcat("    ...(config as ApiRequestConfig<'" + path, "', '");
    OneLineConcat("    ...(config as ApiRequestConfig<'" + path + "', '", verb);
    OneLineConcat("    ...(config as ApiRequestConfig<'" + path + "', '" + verb, "'> | undefined),");
  }

  lemma FunctionOneLine(name: string, path: string, verb: string)
    requires '\n' !in name && '\n' !in path && '\n' !in verb
    ensures OneLineEach(FunctionLines(name, path, verb))
  {
    var f := FunctionLines(name, path, verb);
    ExportLineOneLine(name, path, verb);
    PromiseLineOneLine(name, path, verb);
    ReturnLineOneLine(name, path, verb);
    SpreadLineOneLine(name, path, verb);
    OneLineConcat("    path: '", path);
    OneLineConcat("    path: '" + path, "',");
    OneLineConcat("    method: '", verb);
    OneLineConcat("    method: '" + verb, "',");
    assert '\n' !in f[6] && '\n' !in f[7] && '\n' !in f[8];
  }

  lemma DocOneLine(summary: Option<string>, operationId: Option<string>)
    requires summary.Some? ==> '\n' !in summary.value
    requires operationId.Some? ==> '\n' !in operationId.value
    ensures OneLineEach(DocLines(summary, operationId))
  {
    if summary.Some? {
      OneLineConcat(" * ", summary.value);
    }
    if operationId.Some? {
      OneLineConcat(" * operationId: ", operationId.value);
    }
  }

  lemma EntryOneLine(e: OperationEntry, name: string)
    requires OneLineEntry(e) && '\n' !in name
    ensures OneLineEach(EntryLines(e, name))
  {
    LowerKeepsLineFeeds(e.verb);
    DocOneLine(DocSummary(e.operation), e.operation.operationId);
    FunctionOneLine(name, e.path, ToLower(e.verb));
  }

  lemma {:induction false} FlattenOneLine(chunks: seq<seq<string>>)
    requires forall k :: 0 <= k < |chunks| ==> OneLineEach(chunks[k])
    ensures OneLineEach(Flatten(chunks))
    decreases |chunks|
  {
    if chunks != [] {
      FlattenOneLine(chunks[..|chunks| - 1]);
    }
  }

  /** The names the loop picks are letters and digits, so no name holds a line feed. */
  lemma ChosenNamesOneLine(tag: string, ops: seq<OperationEntry>, names: seq<string>)
    requires |names| == |ops| && NamesChosen(tag, ops, names)
    ensures forall i :: 0 <= i < |names| ==> '\n' !in names[i]
  {
    forall i | 0 <= i < |names|
      ensures '\n' !in names[i]
    {
      var base := EntryBase(tag, ops[i]);
      var k: nat :| names[i] == Candidate(base, k) && names[i] !in NameSetOf(names[..i])
        && forall m: nat :: m < k ==> Candidate(base, m) in NameSetOf(names[..i]);
      NameOneLine(base, k);
    }
  }

  lemma FileOneLine(tag: string, ops: seq<OperationEntry>, names: seq<string>)
    requires |names| == |ops| && NamesChosen(tag, ops, names)
    requires forall k :: 0 <= k < |ops| ==> OneLineEntry(ops[k])
    ensures OneLineEach(FileLines(ops, names))
  {
    ChosenNamesOneLine(tag, ops, names);
    var chunks := EntryChunks(ops, names);
    forall k | 0 <= k < |chunks|
      ensures OneLineEach(chunks[k])
    {
      EntryOneLine(ops[k], names[k]);
    }
    FlattenOneLine(chunks);
    HeaderOneLine();
  }

  /**
   * The text of a controller file, read line by line, exports one function
   * per operation, in operation order, as long as no summary, operationId,
   * path or method holds a line feed of its own: joining the pushed lines
   * with line feeds and splitting the text again gives back the same lines.
   */
  lemma ContentExports(tag: string, ops: seq<OperationEntry>, names: seq<string>)
    requires |names| == |ops| && NamesChosen(tag, ops, names)
    requires forall k :: 0 <= k < |ops| ==> OneLineEntry(ops[k])
    ensures ExportLines(Split(Join(FileLines(ops, names), "\n"), '\n'))
         == seq(|ops|, k requires 0 <= k < |ops| => ExportLine(names[k], ops[k].path, ToLower(ops[k].verb)))
  {
    var lines := FileLines(ops, names);
    FileOneLine(tag, ops, names);
    SplitJoin(lines, '\n');
    ExportsFollowOperations(ops, names);
  }

  // ----- grouping by tag -----

  /** The value under one key of the `paths` object. */
  datatype PathItem = NotAnObject | Object(fields: seq<(string, Option<Operation>)>)

  const SupportedMethods: seq<string> := ["get", "post", "put", "patch", "delete", "options", "head"]

  /** `list.includes(m)`. */
  function Includes(list: seq<string>, m: string): bool
    decreases |list|
  {
    list != [] && (list[0] == m || Includes(list[1..], m))
  }

  lemma {:induction false} IncludesMeans(list: seq<string>, m: string)
    ensures Includes(list, m) <==> m in list
    decreases |list|
  {
    if list != [] {
      IncludesMeans(list[1..], m);
      assert list == [list[0]] + list[1..];
    }
  }

  /** The keys `main` reads as operations are the seven HTTP methods, in any letter case. */
  lemma SupportedKeys(key: string)
    ensures Includes(SupportedMethods, ToLower(key))
        <==> ToLower(key) in {"get", "post", "put", "patch", "delete", "options", "head"}
  {
    IncludesMeans(SupportedMethods, ToLower(key));
  }

  /** `String(rawTags[0] || 'default')`: the first tag, or `default` for none or an empty one. */
  function TagOf(op: Operation): (t: string)
    ensures t != ""
    ensures |op.tags| > 0 && op.tags[0] != "" ==> t == op.tags[0]
    ensures op.tags == [] || op.tags[0] == "" ==> t == "default"
  {
    if |op.tags| > 0 && op.tags[0] != "" then op.tags[0] else "default"
  }

  /** Whether the key `key` of a path item yields an operation: a supported method with a truthy value. */
  predicate Accepts(supportedMethods: seq<string>, key: string, value: Option<Operation>) {
    Includes(supportedMethods, ToLower(key)) && value.Some?
  }

  /** The record one key of a path item contributes, if any. */
  function FieldEntries(supportedMethods: seq<string>, path: string, field: (string, Option<Operation>)): seq<OperationEntry> {
    if Accepts(supportedMethods, field.0, field.1) then [OperationEntry(path, ToLower(field.0), field.1.value)] else []
  }

  /** The records one path item contributes, in key order. */
  function ItemEntries(supportedMethods: seq<string>, path: string, fields: seq<(string, Option<Operation>)>): seq<OperationEntry>
    decreases |fields|
  {
    if fields == [] then [] else ItemEntries(supportedMethods, path, fields[..|fields| - 1]) + FieldEntries(supportedMethods, path, fields[|fields| - 1])
  }

  function PathEntries(supportedMethods: seq<string>, item: (string, PathItem)): seq<OperationEntry> {
    match item.1
    case NotAnObject => []
    case Object(fields) => ItemEntries(supportedMethods, item.0, fields)
  }

  /** Every record `main` files, in document order. */
  function AcceptedEntries(supportedMethods: seq<string>, paths: seq<(string, PathItem)>): seq<OperationEntry>
    decreases |paths|
  {
    if paths == [] then [] else AcceptedEntries(supportedMethods, paths[..|paths| - 1]) + PathEntries(supportedMethods, paths[|paths| - 1])
  }

  function EntryTag(e: OperationEntry): string { TagOf(e.operation) }

  /** The tags in the order they first appear: the iteration order of `tagMap`. */
  function TagOrder(es: seq<OperationEntry>): seq<string>
    decreases |es|
  {
    if es == [] then []
    else
      var prev := TagOrder(es[..|es| - 1]);
      var t := EntryTag(es[|es| - 1]);
      if t in prev then prev else prev + [t]
  }

  /** The records of one tag, in document order. */
  function Group(es: seq<OperationEntry>, tag: string): seq<OperationEntry>
    decreases |es|
  {
    if es == [] then []
    else Group(es[..|es| - 1], tag) + (if EntryTag(es[|es| - 1]) == tag then [es[|es| - 1]] else [])
  }

  /** The `tagMap` of `main`: groups by tag, keys in insertion order. */
  class TagMap {
    var keys: seq<string>
    var groups: map<string, seq<OperationEntry>>

    constructor ()
      ensures keys == [] && groups == map[]
    {
      keys := [];
      groups := map[];
    }

    function Has(tag: string): bool
      reads this
    {
      tag in groups
    }

    /** `tagMap.set(tag, [])` for a new tag. */
    method Open(tag: string)
      requires tag !in groups
      modifies this
      ensures keys == old(keys) + [tag] && groups == old(groups)[tag := []]
    {
      keys := keys + [tag];
      groups := groups[tag := []];
    }

    /** `tagMap.get(tag).push(e)`. */
    method Push(tag: string, e: OperationEntry)
      requires tag in groups
      modifies this
      ensures keys == old(keys) && groups == old(groups)[tag := old(groups)[tag] + [e]]
    {
      groups := groups[tag := groups[tag] + [e]];
    }

    /** The map holds the records `es` grouped: a key per tag in order of first appearance, each with its records in order. */
    ghost predicate Files(es: seq<OperationEntry>)
      reads this
    {
      && keys == TagOrder(es)
      && (forall t :: t in groups <==> t in keys)
      && (forall t :: t in groups ==> groups[t] == Group(es, t))
    }
  }

  lemma TagOrderSnoc(es: seq<OperationEntry>, e: OperationEntry)
    ensures TagOrder(es + [e]) == if EntryTag(e) in TagOrder(es) then TagOrder(es) else TagOrder(es) + [EntryTag(e)]
    ensures forall t :: Group(es + [e], t) == Group(es, t) + (if EntryTag(e) == t then [e] else [])
  {
    assert (es + [e])[..|es|] == es;
  }

  lemma ItemEntriesStep(supportedMethods: seq<string>, path: string, fields: seq<(string, Option<Operation>)>, j: nat,
                        before: seq<OperationEntry>)
    requires j < |fields|
    ensures before + ItemEntries(supportedMethods, path, fields[..j]) + FieldEntries(supportedMethods, path, fields[j])
         == before + ItemEntries(supportedMethods, path, fields[..j + 1])
  {
    ItemEntriesSnoc(supportedMethods, path, fields, j);
  }

  lemma ItemEntriesSnoc(supportedMethods: seq<string>, path: string, fields: seq<(string, Option<Operation>)>, j: nat)
    requires j < |fields|
    ensures ItemEntries(supportedMethods, path, fields[..j + 1]) == ItemEntries(supportedMethods, path, fields[..j]) + FieldEntries(supportedMethods, path, fields[j])
  {
    assert fields[..j + 1][..j] == fields[..j];
  }

  lemma AcceptedEntriesSnoc(supportedMethods: seq<string>, paths: seq<(string, PathItem)>, i: nat)
    requires i < |paths|
    ensures AcceptedEntries(supportedMethods, paths[..i + 1]) == AcceptedEntries(supportedMethods, paths[..i]) + PathEntries(supportedMethods, paths[i])
  {
    assert paths[..i + 1][..i] == paths[..i];
  }

  /** A tag that does not occur has an empty group. */
  lemma {:induction false} GroupOfAbsentTag(es: seq<OperationEntry>, t: string)
    requires t !in TagOrder(es)
    ensures Group(es, t) == []
    decreases |es|
  {
    if es != [] {
      var init := es[..|es| - 1];
      TagOrderSnoc(init, es[|es| - 1]);
      assert init + [es[|es| - 1]] == es;
      GroupOfAbsentTag(init, t);
    }
  }

  /** The body of the inner loop for an accepted operation: open the tag's group if needed, then append. */
  method FileEntry(tagMap: TagMap, e: OperationEntry, ghost es: seq<OperationEntry>)
    requires tagMap.Files(es)
    modifies tagMap
    ensures tagMap.Files(es + [e])
  {
    var tag := TagOf(e.operation);
    if !tagMap.Has(tag) {
      GroupOfAbsentTag(es, tag);
      tagMap.Open(tag);
    }
    tagMap.Push(tag, e);
    TagOrderSnoc(es, e);
  }

  /** The body of the inner loop of `main` for one key of a path item. */
  method FileField(supportedMethods: seq<string>, tagMap: TagMap, apiPath: string,
                   field: (string, Option<Operation>), ghost before: seq<OperationEntry>)
    requires tagMap.Files(before)
    modifies tagMap
    ensures tagMap.Files(before + FieldEntries(supportedMethods, apiPath, field))
  {
    var (key, operation) := field;
    var methodLower := ToLower(key);
    if Includes(supportedMethods, methodLower) && operation.Some? {
      var e := OperationEntry(apiPath, methodLower, operation.value);
      FileEntry(tagMap, e, before);
    } else {
      assert before + [] == before;
    }
  }

  /** The inner loop of `main` over the keys of one path item. */
  method FilePathItem(supportedMethods: seq<string>, tagMap: TagMap, apiPath: string,
                      fields: seq<(string, Option<Operation>)>, ghost before: seq<OperationEntry>)
    requires tagMap.Files(before)
    modifies tagMap
    ensures tagMap.Files(before + ItemEntries(supportedMethods, apiPath, fields))
  {
    var j := 0;
    ghost var filed := before;
    assert before + ItemEntries(supportedMethods, apiPath, fields[..0]) == before by {
      assert fields[..0] == [];
    }
    while j < |fields|
      invariant 0 <= j <= |fields|
      invariant filed == before + ItemEntries(supportedMethods, apiPath, fields[..j])
      invariant tagMap.Files(filed)
    {
      FileField(supportedMethods, tagMap, apiPath, fields[j], filed);
      ItemEntriesStep(supportedMethods, apiPath, fields, j, before);
      filed := filed + FieldEntries(supportedMethods, apiPath, fields[j]);
      j := j + 1;
    }
    assert fields[..j] == fields;
  }

  /**
   * The grouping loop of `main`: every operation under a supported method
   * key of an object path item is appended to the group of its tag, a group
   * being opened the first time its tag occurs.
   */
  method GroupByTag(paths: seq<(string, PathItem)>, supportedMethods: seq<string>) returns (tagMap: TagMap)
    ensures fresh(tagMap)
    ensures tagMap.Files(AcceptedEntries(supportedMethods, paths))
  {
    tagMap := new TagMap();
    var i := 0;
    while i < |paths|
      invariant 0 <= i <= |paths|
      invariant tagMap.Files(AcceptedEntries(supportedMethods, paths[..i]))
    {
      var (apiPath, pathItem) := paths[i];
      AcceptedEntriesSnoc(supportedMethods, paths, i);
      if pathItem.Object? {
        FilePathItem(supportedMethods, tagMap, apiPath, pathItem.fields, AcceptedEntries(supportedMethods, paths[..i]));
      } else {
        assert AcceptedEntries(supportedMethods, paths[..i + 1]) == AcceptedEntries(supportedMethods, paths[..i]);
      }
      i := i + 1;
    }
    assert paths[..i] == paths;
  }

  lemma {:induction false} GroupMember(es: seq<OperationEntry>, t: string, e: OperationEntry)
    ensures e in Group(es, t) <==> e in es && EntryTag(e) == t
    decreases |es|
  {
    if es != [] {
      GroupMember(es[..|es| - 1], t, e);
      assert es == es[..|es| - 1] + [es[|es| - 1]];
    }
  }

  lemma {:induction false} TagOrderMember(es: seq<OperationEntry>, t: string)
    ensures t in TagOrder(es) <==> exists e :: e in es && EntryTag(e) == t
    decreases |es|
  {
    if es != [] {
      var init := es[..|es| - 1];
      var last := es[|es| - 1];
      TagOrderMember(init, t);
      assert es == init + [last];
      if exists e :: e in es && EntryTag(e) == t {
        var e :| e in es && EntryTag(e) == t;
        if e != last {
          assert e in init;
        }
      }
    }
  }

  lemma {:induction false} TagOrderDistinct(es: seq<OperationEntry>)
    ensures forall i, j :: 0 <= i < j < |TagOrder(es)| ==> TagOrder(es)[i] != TagOrder(es)[j]
    decreases |es|
  {
    if es != [] {
      TagOrderDistinct(es[..|es| - 1]);
    }
  }

  /**
   * Every accepted operation lands in exactly one group, the one of its
   * tag: the groups partition the accepted records, the keys are distinct,
   * and there is a key exactly for the tags that occur.
   */
  lemma GroupsPartition(supportedMethods: seq<string>, paths: seq<(string, PathItem)>, e: OperationEntry, t: string)
    ensures var es := AcceptedEntries(supportedMethods, paths);
      && (e in Group(es, t) <==> e in es && EntryTag(e) == t)
      && (t in TagOrder(es) <==> exists x :: x in es && EntryTag(x) == t)
      && (forall i, j :: 0 <= i < j < |TagOrder(es)| ==> TagOrder(es)[i] != TagOrder(es)[j])
  {
    var es := AcceptedEntries(supportedMethods, paths);
    GroupMember(es, t, e);
    TagOrderMember(es, t);
    TagOrderDistinct(es);
  }

  lemma {:induction false} ItemEntriesHas(supportedMethods: seq<string>, path: string, fields: seq<(string, Option<Operation>)>, e: OperationEntry)
    ensures e in ItemEntries(supportedMethods, path, fields) <==> exists k :: 0 <= k < |fields| && e in FieldEntries(supportedMethods, path, fields[k])
    decreases |fields|
  {
    if fields != [] {
      var n := |fields| - 1;
      var init := fields[..n];
      ItemEntriesHas(supportedMethods, path, init, e);
      assert forall k :: 0 <= k < n ==> init[k] == fields[k];
    }
  }

  /** A path item yields a record exactly for each supported method key with an operation. */
  lemma ItemEntriesMember(supportedMethods: seq<string>, path: string, fields: seq<(string, Option<Operation>)>, e: OperationEntry)
    ensures e in ItemEntries(supportedMethods, path, fields)
        <==> exists k :: 0 <= k < |fields| && Accepts(supportedMethods, fields[k].0, fields[k].1)
               && e == OperationEntry(path, ToLower(fields[k].0), fields[k].1.value)
  {
    ItemEntriesHas(supportedMethods, path, fields, e);
  }

  /** A record is filed exactly when one of the path items yields it. */
  lemma AcceptedEntriesMember(supportedMethods: seq<string>, paths: seq<(string, PathItem)>, e: OperationEntry)
    ensures e in AcceptedEntries(supportedMethods, paths)
        <==> exists i :: 0 <= i < |paths| && e in PathEntries(supportedMethods, paths[i])
  {
    if e in AcceptedEntries(supportedMethods, paths) {
      var i := AcceptedEntriesFrom(supportedMethods, paths, e);
    }
    if exists i :: 0 <= i < |paths| && e in PathEntries(supportedMethods, paths[i]) {
      var i :| 0 <= i < |paths| && e in PathEntries(supportedMethods, paths[i]);
      AcceptedEntriesHas(supportedMethods, paths, e, i);
    }
  }

  /** Every record filed comes from some path item, which this names. */
  lemma {:induction false} AcceptedEntriesFrom(supportedMethods: seq<string>, paths: seq<(string, PathItem)>, e: OperationEntry)
    returns (i: nat)
    requires e in AcceptedEntries(supportedMethods, paths)
    ensures i < |paths| && e in PathEntries(supportedMethods, paths[i])
    decreases |paths|
  {
    var n := |paths| - 1;
    var init := paths[..n];
    assert AcceptedEntries(supportedMethods, paths) == AcceptedEntries(supportedMethods, init) + PathEntries(supportedMethods, paths[n]);
    if e in AcceptedEntries(supportedMethods, init) {
      i := AcceptedEntriesFrom(supportedMethods, init, e);
      assert init[i] == paths[i];
    } else {
      i := n;
    }
  }

  /** Every record of every path item is filed. */
  lemma {:induction false} AcceptedEntriesHas(supportedMethods: seq<string>, paths: seq<(string, PathItem)>, e: OperationEntry, i: nat)
    requires i < |paths| && e in PathEntries(supportedMethods, paths[i])
    ensures e in AcceptedEntries(supportedMethods, paths)
    decreases |paths|
  {
    var n := |paths| - 1;
    var init := paths[..n];
    var earlier, last := AcceptedEntries(supportedMethods, init), PathEntries(supportedMethods, paths[n]);
    assert AcceptedEntries(supportedMethods, paths) == earlier + last;
    if i < n {
      assert init[i] == paths[i];
      AcceptedEntriesHas(supportedMethods, init, e, i);
      InAppend(earlier, last, e);
    } else {
      InAppend(earlier, last, e);
    }
  }

  // Membership in a concatenation, called where the solver would otherwise miss it.
  lemma InAppend<T>(a: seq<T>, b: seq<T>, x: T)
    ensures x in a + b <==> x in a || x in b
  {
  }


  // ----- sorting a group -----

  /** What the `localeCompare` comparisons have to be for the sort to be meaningful: a total order on strings. */
  ghost predicate TotalOrder(le: (string, string) -> bool) {
    && (forall x, y :: le(x, y) || le(y, x))
    && (forall x, y :: le(x, y) && le(y, x) ==> x == y)
    && (forall x, y, z :: le(x, y) && le(y, z) ==> le(x, z))
  }

  /** The comparator of the group sort: by method when the paths are equal, by path otherwise. */
  predicate EntryLe(le: (string, string) -> bool, a: OperationEntry, b: OperationEntry) {
    if a.path == b.path then le(a.verb, b.verb) else le(a.path, b.path)
  }

  /** The comparator orders all records totally and transitively. */
  lemma EntryLeTotalPreorder(le: (string, string) -> bool, a: OperationEntry, b: OperationEntry, c: OperationEntry)
    requires TotalOrder(le)
    ensures EntryLe(le, a, b) || EntryLe(le, b, a)
    ensures EntryLe(le, a, b) && EntryLe(le, b, c) ==> EntryLe(le, a, c)
  {
  }

  predicate SortedBy(le: (string, string) -> bool, s: seq<OperationEntry>) {
    forall p, q :: 0 <= p < q < |s| ==> EntryLe(le, s[p], s[q])
  }

  /** Inserting `x` into a sorted list: after every record that does not come after it. */
  function Insert(le: (string, string) -> bool, r: seq<OperationEntry>, x: OperationEntry): (r': seq<OperationEntry>)
    ensures multiset(r') == multiset(r) + multiset{x}
    decreases |r|
  {
    if r == [] then [x]
    else if EntryLe(le, r[|r| - 1], x) then r + [x]
    else
      var r0 := r[..|r| - 1];
      assert r == r0 + [r[|r| - 1]];
      Insert(le, r0, x) + [r[|r| - 1]]
  }

  /**
   * `operations.sort(...)`: the engine's sort is stable, and stable sorting
   * by a total preorder has one result, which insertion sort computes.
   */
  function SortEntries(le: (string, string) -> bool, s: seq<OperationEntry>): (r: seq<OperationEntry>)
    ensures multiset(r) == multiset(s)
    decreases |s|
  {
    if s == [] then []
    else
      var s0 := s[..|s| - 1];
      assert s == s0 + [s[|s| - 1]];
      Insert(le, SortEntries(le, s0), s[|s| - 1])
  }

  lemma {:induction false} InsertSorted(le: (string, string) -> bool, r: seq<OperationEntry>, x: OperationEntry)
    requires TotalOrder(le)
    requires SortedBy(le, r)
    ensures SortedBy(le, Insert(le, r, x))
    decreases |r|
  {
    if r != [] {
      var last := r[|r| - 1];
      if EntryLe(le, last, x) {
        forall p | 0 <= p < |r|
          ensures EntryLe(le, r[p], x)
        {
          EntryLeTotalPreorder(le, r[p], last, x);
        }
      } else {
        var r0 := r[..|r| - 1];
        InsertSorted(le, r0, x);
        var u := Insert(le, r0, x);
        EntryLeTotalPreorder(le, last, x, x);
        forall p | 0 <= p < |u|
          ensures EntryLe(le, u[p], last)
        {
          assert u[p] in multiset(u);
          if u[p] != x {
            assert u[p] in multiset(r0);
            var q :| 0 <= q < |r0| && r0[q] == u[p];
          }
        }
        var w := u + [last];
        forall p, q | 0 <= p < q < |w|
          ensures EntryLe(le, w[p], w[q])
        {
          if q < |u| {
            assert w[p] == u[p] && w[q] == u[q];
          }
        }
      }
    }
  }

  /** The sort's result is ordered by path and then by method. */
  lemma {:induction false} SortEntriesSorted(le: (string, string) -> bool, s: seq<OperationEntry>)
    requires TotalOrder(le)
    ensures SortedBy(le, SortEntries(le, s))
    decreases |s|
  {
    if s != [] {
      SortEntriesSorted(le, s[..|s| - 1]);
      InsertSorted(le, SortEntries(le, s[..|s| - 1]), s[|s| - 1]);
    }
  }

  /** The records of `s` for one path and method, in the order of `s`. */
  function SameRoute(s: seq<OperationEntry>, path: string, verb: string): seq<OperationEntry>
    decreases |s|
  {
    if s == [] then []
    else
      var x := s[|s| - 1];
      SameRoute(s[..|s| - 1], path, verb) + (if x.path == path && x.verb == verb then [x] else [])
  }

  lemma {:induction false} SameRouteAppend(a: seq<OperationEntry>, b: seq<OperationEntry>, path: string, verb: string)
    ensures SameRoute(a + b, path, verb) == SameRoute(a, path, verb) + SameRoute(b, path, verb)
    decreases |b|
  {
    if b == [] {
      assert a + b == a;
    } else {
      var b0 := b[..|b| - 1];
      var x := b[|b| - 1];
      var tail := if x.path == path && x.verb == verb then [x] else [];
      assert (a + b)[..|a + b| - 1] == a + b0;
      assert (a + b)[|a + b| - 1] == x;
      SameRouteAppend(a, b0, path, verb);
      calc {
        SameRoute(a + b, path, verb);
        SameRoute(a + b0, path, verb) + tail;
        (SameRoute(a, path, verb) + SameRoute(b0, path, verb)) + tail;
        SameRoute(a, path, verb) + (SameRoute(b0, path, verb) + tail);
      }
    }
  }

  lemma {:induction false} InsertStable(le: (string, string) -> bool, r: seq<OperationEntry>, x: OperationEntry, path: string, verb: string)
    requires TotalOrder(le)
    ensures SameRoute(Insert(le, r, x), path, verb) == SameRoute(r, path, verb) + SameRoute([x], path, verb)
    decreases |r|
  {
    if r == [] {
      assert Insert(le, r, x) == [x];
      assert SameRoute(r, path, verb) == [];
    } else if EntryLe(le, r[|r| - 1], x) {
      assert Insert(le, r, x) == r + [x];
      SameRouteAppend(r, [x], path, verb);
    } else {
      var r0 := r[..|r| - 1];
      var last := r[|r| - 1];
      var u := Insert(le, r0, x);
      assert Insert(le, r, x) == u + [last];
      assert r == r0 + [last];
      InsertStable(le, r0, x, path, verb);
      SameRouteAppend(u, [last], path, verb);
      SameRouteAppend(r0, [last], path, verb);
      var fx, fl := SameRoute([x], path, verb), SameRoute([last], path, verb);
      // `x` and `last` are not both of the route: its records are all ranked equal
      assert fx == [] || fl == [] by {
        assert [x][..0] == [] && [last][..0] == [];
        if x.path == last.path && x.verb == last.verb {
          EntryLeTotalPreorder(le, last, x, x);
        }
      }
      calc {
        SameRoute(u + [last], path, verb);
        SameRoute(u, path, verb) + fl;
        SameRoute(r0, path, verb) + fx + fl;
        { assert fx + fl == fl + fx; }
        SameRoute(r0, path, verb) + fl + fx;
        SameRoute(r, path, verb) + fx;
      }
    }
  }

  /**
   * The sort is stable: the records that share a path and a method, the only
   * ones the comparator ranks equal, keep their document order.
   */
  lemma {:induction false} SortEntriesStable(le: (string, string) -> bool, s: seq<OperationEntry>, path: string, verb: string)
    requires TotalOrder(le)
    ensures SameRoute(SortEntries(le, s), path, verb) == SameRoute(s, path, verb)
    decreases |s|
  {
    if s != [] {
      var s0, x := s[..|s| - 1], s[|s| - 1];
      var t0 := SortEntries(le, s0);
      calc {
        SameRoute(SortEntries(le, s), path, verb);
        { assert SortEntries(le, s) == Insert(le, t0, x); }
        SameRoute(Insert(le, t0, x), path, verb);
        { InsertStable(le, t0, x, path, verb); }
        SameRoute(t0, path, verb) + SameRoute([x], path, verb);
        { SortEntriesStable(le, s0, path, verb); }
        SameRoute(s0, path, verb) + SameRoute([x], path, verb);
        { SameRouteAppend(s0, [x], path, verb); assert s == s0 + [x]; }
        SameRoute(s, path, verb);
      }
    }
  }

  /** Under a total order on strings the comparator ranks two records equal exactly when path and method agree. */
  lemma EntryLeEqual(le: (string, string) -> bool, a: OperationEntry, b: OperationEntry)
    requires TotalOrder(le)
    ensures EntryLe(le, a, b) && EntryLe(le, b, a) <==> a.path == b.path && a.verb == b.verb
  {
    EntryLeTotalPreorder(le, a, a, a);
  }

  // ----- emitting the files -----

  /** The file `main` writes for a tag. */
  function ControllerFileName(tag: string): string {
    TagToFileName(tag) + ".ts"
  }

  /** What one file holds: the tag's group, sorted, rendered with names chosen in that order. */
  ghost predicate IsControllerFile(tag: string, group: seq<OperationEntry>, le: (string, string) -> bool, content: string) {
    var ops := SortEntries(le, group);
    exists names: seq<string> ::
      && |names| == |ops|
      && NamesChosen(tag, ops, names)
      && content == Join(FileLines(ops, names), "\n")
  }

  /** The body of the emission loop for one tag: sort its group, then render it. */
  method WriteController(tag: string, group: seq<OperationEntry>, le: (string, string) -> bool)
    returns (fileName: string, content: string)
    ensures fileName == ControllerFileName(tag)
    ensures IsControllerFile(tag, group, le, content)
  {
    var operations := SortEntries(le, group);
    var names;
    content, names := GenerateControllerFileContent(tag, operations);
    fileName := ControllerFileName(tag);
  }

  /**
   * The emission loop of `main`: for each tag in `tagMap` order its group is
   * sorted and rendered; `writes` lists the `writeFileSync` calls in order.
   */
  method EmitControllers(tagMap: TagMap, le: (string, string) -> bool) returns (writes: seq<(string, string)>)
    requires forall t :: t in tagMap.keys ==> t in tagMap.groups
    ensures |writes| == |tagMap.keys|
    ensures forall k :: 0 <= k < |writes| ==> writes[k].0 == ControllerFileName(tagMap.keys[k])
    ensures forall k :: 0 <= k < |writes| ==>
      IsControllerFile(tagMap.keys[k], tagMap.groups[tagMap.keys[k]], le, writes[k].1)
  {
    var keys, groups := tagMap.keys, tagMap.groups;
    writes := [];
    var k := 0;
    while k < |keys|
      invariant 0 <= k <= |keys|
      invariant |writes| == k
      invariant forall m :: 0 <= m < k ==> writes[m].0 == ControllerFileName(keys[m])
      invariant forall m :: 0 <= m < k ==> IsControllerFile(keys[m], groups[keys[m]], le, writes[m].1)
    {
      var fileName, content := WriteController(keys[k], groups[keys[k]], le);
      ghost var prev := writes;
      writes := writes + [(fileName, content)];
      forall m | 0 <= m < k + 1
        ensures writes[m].0 == ControllerFileName(keys[m])
        ensures IsControllerFile(keys[m], groups[keys[m]], le, writes[m].1)
      {
        if m < k {
          assert writes[m] == prev[m];
        }
      }
      k := k + 1;
    }
  }

  /**
   * `main` after the document is fetched: group the operations of `paths`
   * by tag, then write one controller file per tag, in the order the tags
   * first occur.
   */
  method GenerateModules(paths: seq<(string, PathItem)>, le: (string, string) -> bool) returns (writes: seq<(string, string)>)
    ensures var tags := TagOrder(AcceptedEntries(SupportedMethods, paths));
      && |writes| == |tags|
      && forall k :: 0 <= k < |writes| ==>
           && writes[k].0 == ControllerFileName(tags[k])
           && IsControllerFile(tags[k], Group(AcceptedEntries(SupportedMethods, paths), tags[k]), le, writes[k].1)
  {
    var tagMap := GroupByTag(paths, SupportedMethods);
    writes := EmitControllers(tagMap, le);
  }
}
