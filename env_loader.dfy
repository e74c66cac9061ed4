/**
 * The `.env` loading of `scripts/run-openapi.js`: the `KEY=VALUE` line
 * parser, the no-overwrite update of the process environment, the load
 * order of the two files, and the OpenAPI document URL derived from
 * `EXPO_PUBLIC_API_BASE_URL`.
 *
 * The environment is a map from names to strings; a name is "set" in the
 * sense of `process.env[key]` being truthy when it is present with a
 * non-empty value. A file is its content, `None` when it does not exist.
 */
module EnvLoader {
  import opened Wrappers
  import opened Text

  // ----- one line -----

  /**
   * The callback of `loadEnvFile` up to the update: the key and value a line
   * assigns, or `None` for a blank line, a comment, a line without `=` and a
   * line whose `=` comes first.
   */
  function ParseEnvLine(line: string): Option<(string, string)>
  {
    ParseTrimmedLine(Trim(line))
  }

  /** The same for a line already trimmed. */
  function ParseTrimmedLine(trimmed: string): Option<(string, string)>
  {
    if trimmed == "" || trimmed[0] == '#' then None
    else
      var eq := IndexOf(trimmed, '=');
      if eq <= 0 then None
      else Some((Trim(trimmed[..eq]), Trim(trimmed[eq + 1..])))
  }

  /**
   * The lines skipped are exactly the blank ones, the comments, and those
   * without an `=` after their first character; what a parsed line yields is
   * trimmed on both sides, and the key holds no `=`.
   */
  lemma ParseEnvLineSkips(line: string)
    ensures var t := Trim(line);
      ParseEnvLine(line).None? <==> t == "" || t[0] == '#' || IndexOf(t, '=') <= 0
    ensures ParseEnvLine(line).Some? ==>
      var kv := ParseEnvLine(line).value;
      IsTrimmed(kv.0) && IsTrimmed(kv.1) && '=' !in kv.0
  {
    var t := Trim(line);
    if ParseEnvLine(line).Some? {
      var eq := IndexOf(t, '=');
      assert '=' !in t[..eq];
      var i := TrimIsSlice(t[..eq]);
    }
  }

  /**
   * The key of a parsed line is never empty: the line is trimmed and its `=`
   * is not first, so the text before `=` starts with a non-blank character.
   * The key test of the update can therefore never fail.
   */
  lemma ParsedKeyStart(line: string)
    requires ParseEnvLine(line).Some?
    ensures var key := ParseEnvLine(line).value.0;
      key != "" && key[0] == Trim(line)[0] && key[0] != '#'
  {
    var t := Trim(line);
    var before := t[..IndexOf(t, '=')];
    assert before[0] == t[0];
    TrimKeepsFirst(before);
  }

  /** `KEY=VALUE` parses back to its key and value, whatever `=` the value holds. */
  lemma ParseAssignment(key: string, value: string)
    requires key != "" && IsTrimmed(key) && '=' !in key && key[0] != '#'
    requires IsTrimmed(value)
    ensures ParseEnvLine(key + "=" + value) == Some((key, value))
  {
    var line := key + "=" + value;
    var eq := |key|;
    assert Trim(line) == line by {
      AssignmentParts(key, value);
      TrimOfTrimmed(line);
    }
    assert ParseTrimmedLine(line) == Some((key, value)) by {
      AssignmentParts(key, value);
      TrimOfTrimmed(key);
      TrimOfTrimmed(value);
    }
  }

  /** How `KEY=VALUE` splits at its first `=`. */
  lemma AssignmentParts(key: string, value: string)
    requires key != "" && IsTrimmed(key) && '=' !in key && IsTrimmed(value)
    ensures var line := key + "=" + value;
      && IsTrimmed(line) && line[0] == key[0]
      && IndexOf(line, '=') == |key| && line[..|key|] == key && line[|key| + 1..] == value
  {
    var line := key + "=" + value;
    assert line[0] == key[0];
    assert line[|line| - 1] == if value == "" then '=' else value[|value| - 1];
    IndexOfConcat(key, '=', value);
    assert line[..|key|] == key;
    assert line[|key| + 1..] == value;
  }

  /** A parsed line written back as `KEY=VALUE` parses to the same pair. */
  lemma ParseCanonical(line: string)
    requires ParseEnvLine(line).Some?
    ensures var kv := ParseEnvLine(line).value; ParseEnvLine(kv.0 + "=" + kv.1) == Some(kv)
  {
    ParsedKeyStart(line);
    ParseEnvLineSkips(line);
    var kv := ParseEnvLine(line).value;
    ParseAssignment(kv.0, kv.1);
  }

  // ----- the update -----

  /** `process.env[key]` is truthy: present and not empty. */
  predicate IsSet(env: map<string, string>, key: string) {
    key in env && env[key] != ""
  }

  /** The effect of one line: parsed, with a key, and the key not set yet. */
  function Assign(env: map<string, string>, line: string): map<string, string> {
    match ParseEnvLine(line)
    case None => env
    case Some((key, value)) => if key != "" && !IsSet(env, key) then env[key := value] else env
  }

  /** The effect of the lines of a file, first to last. */
  function ApplyLines(env: map<string, string>, lines: seq<string>): map<string, string>
    decreases |lines|
  {
    if lines == [] then env else Assign(ApplyLines(env, lines[..|lines| - 1]), lines[|lines| - 1])
  }

  /** The effect of loading a file: nothing when it does not exist, its `\n`-separated lines otherwise. */
  function ApplyContent(env: map<string, string>, content: Option<string>): map<string, string> {
    match content
    case None => env
    case Some(text) => ApplyLines(env, Split(text, '\n'))
  }

  /** `process.env`, the one object `loadEnvFile` writes to. */
  class Environment {
    var vars: map<string, string>

    constructor (initial: map<string, string>)
      ensures vars == initial
    {
      vars := initial;
    }

    /** `loadEnvFile(filePath)`, given the file's content or `None` when it does not exist. */
    method LoadEnvFile(content: Option<string>)
      modifies this
      ensures vars == ApplyContent(old(vars), content)
      ensures content.None? ==> vars == old(vars)
    {
      if content.None? {
        return;
      }
      var lines := Split(content.value, '\n');
      var i := 0;
      while i < |lines|
        invariant 0 <= i <= |lines|
        invariant vars == ApplyLines(old(vars), lines[..i])
      {
        ApplyLine(lines[i]);
        assert lines[..i + 1][..i] == lines[..i];
        i := i + 1;
      }
      assert lines[..i] == lines;
    }

    /** The callback for one line: set the parsed key unless it is set already. */
    method ApplyLine(line: string)
      modifies this
      ensures vars == Assign(old(vars), line)
    {
      var parsed := ParseEnvLine(line);
      if parsed.Some? {
        var (key, value) := parsed.value;
        if key != "" && !(key in vars && vars[key] != "") {
          vars := vars[key := value];
        }
      }
    }
  }

  // ----- what loading promises -----

  lemma {:induction false} ApplyLinesAppend(env: map<string, string>, a: seq<string>, b: seq<string>)
    ensures ApplyLines(env, a + b) == ApplyLines(ApplyLines(env, a), b)
    decreases |b|
  {
    if b == [] {
      assert a + b == a;
    } else {
      assert (a + b)[..|a + b| - 1] == a + b[..|b| - 1];
      assert (a + b)[|a + b| - 1] == b[|b| - 1];
      ApplyLinesAppend(env, a, b[..|b| - 1]);
    }
  }

  /** A variable that is already set keeps its value, whatever the lines say. */
  lemma {:induction false} NeverOverwrites(env: map<string, string>, lines: seq<string>, key: string)
    requires IsSet(env, key)
    ensures key in ApplyLines(env, lines) && ApplyLines(env, lines)[key] == env[key]
    decreases |lines|
  {
    if lines != [] {
      NeverOverwrites(env, lines[..|lines| - 1], key);
    }
  }

  /** Whether `line` assigns `key`. */
  predicate Mentions(line: string, key: string) {
    ParseEnvLine(line).Some? && ParseEnvLine(line).value.0 == key
  }

  /** Lines that do not assign a variable leave it as it was. */
  lemma {:induction false} UnmentionedUnchanged(env: map<string, string>, lines: seq<string>, key: string)
    requires forall i :: 0 <= i < |lines| ==> !Mentions(lines[i], key)
    ensures key in ApplyLines(env, lines) <==> key in env
    ensures key in env ==> ApplyLines(env, lines)[key] == env[key]
    decreases |lines|
  {
    if lines != [] {
      UnmentionedUnchanged(env, lines[..|lines| - 1], key);
    }
  }

  /** A variable not set before stays unset while no line gives it a non-empty value. */
  lemma {:induction false} StaysUnset(env: map<string, string>, lines: seq<string>, key: string)
    requires !IsSet(env, key)
    requires forall i :: 0 <= i < |lines| ==> !(Mentions(lines[i], key) && ParseEnvLine(lines[i]).value.1 != "")
    ensures !IsSet(ApplyLines(env, lines), key)
    decreases |lines|
  {
    if lines != [] {
      StaysUnset(env, lines[..|lines| - 1], key);
    }
  }

  /**
   * For a variable not set before, the first line that gives it a non-empty
   * value decides it; earlier lines giving it an empty value do not count,
   * because an empty value leaves it unset.
   */
  lemma FirstNonEmptyWins(env: map<string, string>, lines: seq<string>, key: string, i: nat)
    requires !IsSet(env, key)
    requires i < |lines| && Mentions(lines[i], key) && ParseEnvLine(lines[i]).value.1 != ""
    requires forall j :: 0 <= j < i ==> !(Mentions(lines[j], key) && ParseEnvLine(lines[j]).value.1 != "")
    ensures key in ApplyLines(env, lines) && ApplyLines(env, lines)[key] == ParseEnvLine(lines[i]).value.1
  {
    var value := ParseEnvLine(lines[i]).value.1;
    var before := ApplyLines(env, lines[..i]);
    var after := Assign(before, lines[i]);
    assert !IsSet(before, key) by {
      StaysUnset(env, lines[..i], key);
    }
    assert IsSet(after, key) && after[key] == value by {
      ParsedKeyStart(lines[i]);
    }
    assert ApplyLines(env, lines[..i + 1]) == after by {
      assert lines[..i + 1][..i] == lines[..i];
    }
    calc {
      ApplyLines(env, lines);
      { assert lines[..i + 1] + lines[i + 1..] == lines; }
      ApplyLines(env, lines[..i + 1] + lines[i + 1..]);
      { ApplyLinesAppend(env, lines[..i + 1], lines[i + 1..]); }
      ApplyLines(after, lines[i + 1..]);
    }
    NeverOverwrites(after, lines[i + 1..], key);
  }

  /**
   * The script loads `.env.development` and then `.env`: what the process
   * environment already set wins over both files, and what the first file
   * set wins over the second.
   */
  lemma LoadOrder(env: map<string, string>, development: Option<string>, dotEnv: Option<string>, key: string)
    ensures var first := ApplyContent(env, development);
      var both := ApplyContent(first, dotEnv);
      && (IsSet(env, key) ==> key in both && both[key] == env[key])
      && (IsSet(first, key) ==> key in both && both[key] == first[key])
  {
    var first := ApplyContent(env, development);
    if IsSet(env, key) && development.Some? {
      NeverOverwrites(env, Split(development.value, '\n'), key);
    }
    if IsSet(first, key) && dotEnv.Some? {
      NeverOverwrites(first, Split(dotEnv.value, '\n'), key);
    }
  }

  // ----- the document URL -----

  const BaseUrlName := "EXPO_PUBLIC_API_BASE_URL"

  /**
   * The URL of the OpenAPI document: the base URL without its trailing
   * slashes, then `/openapi.json`; a missing or empty base URL is the
   * script's exit with status 1.
   */
  function OpenApiUrl(env: map<string, string>): (r: Result<string, nat>)
    ensures r.Err? <==> !IsSet(env, BaseUrlName)
    ensures r.Err? ==> r.error == 1
  {
    if !IsSet(env, BaseUrlName) then Err(1)
    else Ok(TrimTrailingSlashes(env[BaseUrlName]) + "/openapi.json")
  }

  /**
   * The URL is the whole base URL except a run of trailing slashes, followed
   * by exactly one `/` before `openapi.json`.
   */
  lemma OpenApiUrlShape(env: map<string, string>)
    requires IsSet(env, BaseUrlName)
    ensures var url := OpenApiUrl(env).value;
      var base := env[BaseUrlName];
      exists n: nat :: n <= |base|
        && url == base[..n] + "/openapi.json"
        && (n == 0 || base[n - 1] != '/')
        && (forall i :: n <= i < |base| ==> base[i] == '/')
  {
    var base := env[BaseUrlName];
    var t := TrimTrailingSlashes(base);
    assert t == base[..|t|];
  }

  /** Slashes at the end of the base URL make no difference. */
  lemma TrailingSlashesIgnored(env: map<string, string>, slashes: string)
    requires IsSet(env, BaseUrlName)
    requires forall i :: 0 <= i < |slashes| ==> slashes[i] == '/'
    ensures OpenApiUrl(env[BaseUrlName := env[BaseUrlName] + slashes]) == OpenApiUrl(env)
  {
    var base := env[BaseUrlName];
    var t := TrimTrailingSlashes(base);
    var longer := base + slashes;
    assert forall i :: |t| <= i < |longer| ==> longer[i] == '/' by {
      forall i | |t| <= i < |longer|
        ensures longer[i] == '/'
      {
        if i < |base| {
          assert longer[i] == base[i];
        }
      }
    }
    TrimTrailingSlashesUnique(longer, t);
  }

  /**
   * The top level of the script up to the two child processes: load both
   * files, then derive the document URL or fail.
   */
  method RunOpenApi(env: Environment, development: Option<string>, dotEnv: Option<string>)
    returns (openapiUrl: Result<string, nat>)
    modifies env
    ensures env.vars == ApplyContent(ApplyContent(old(env.vars), development), dotEnv)
    ensures openapiUrl == OpenApiUrl(env.vars)
  {
    env.LoadEnvFile(development);
    env.LoadEnvFile(dotEnv);
    if !(BaseUrlName in env.vars && env.vars[BaseUrlName] != "") {
      return Err(1);
    }
    openapiUrl := Ok(TrimTrailingSlashes(env.vars[BaseUrlName]) + "/openapi.json");
  }
}
