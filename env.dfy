/** Loading `KEY=value` lines from a `.env` file into the process environment. */
module Env {
  import opened Wrappers
  import opened Text

  /** How a load ends. `IndexOutOfRange` is the run-time panic raised by a line without `=`. */
  datatype Outcome =
    | Loaded
    | ReadError(reason: string)
    | SetenvError(key: string)
    | IndexOutOfRange(line: string)

  /** The checks `os.Setenv` makes on Unix before changing anything: a non-empty key without
      `=` or NUL, and a value without NUL. */
  predicate SetenvAccepts(key: string, value: string)
  {
    key != [] && '=' !in key && '\0' !in key && '\0' !in value
  }

  /** Applies the lines in order; the first line that fails ends the load, and the lines after
      it are not applied. */
  function ApplyLines(env: map<string, string>, lines: seq<string>): (r: (map<string, string>, Outcome))
    ensures r.1 == Loaded || r.1.SetenvError? || r.1.IndexOutOfRange?
    ensures r.1.IndexOutOfRange? ==> r.1.line in lines && '=' !in r.1.line
    decreases |lines|
  {
    if lines == [] then (env, Loaded)
    else
      var parts := SplitN2(lines[0], '=');
      if |parts| == 1 then (env, IndexOutOfRange(lines[0]))
      else if !SetenvAccepts(parts[0], parts[1]) then (env, SetenvError(parts[0]))
      else ApplyLines(env[parts[0] := parts[1]], lines[1..])
  }

  /** The environment and outcome after loading `file`, the result of reading `./.env`. */
  function Load(env: map<string, string>, file: Result<string, string>): (r: (map<string, string>, Outcome))
    ensures file.Failure? ==> r == (env, ReadError(file.error))
    ensures file.Success? ==> r == ApplyLines(env, Split(file.value, '\n'))
  {
    match file
    case Failure(e) => (env, ReadError(e))
    case Success(text) => ApplyLines(env, Split(text, '\n'))
  }

  class Environment {
    var vars: map<string, string>

    constructor (initial: map<string, string>)
      ensures vars == initial
    {
      vars := initial;
    }

    /** `LoadEnvFile`, given the outcome of reading the file. */
    method LoadEnvFile(file: Result<string, string>) returns (outcome: Outcome)
      modifies this
      ensures (vars, outcome) == Load(old(vars), file)
    {
      if file.Failure? {
        return ReadError(file.error);
      }
      var lines := Split(file.value, '\n');
      for i := 0 to |lines|
        invariant ApplyLines(vars, lines[i..]) == Load(old(vars), file)
      {
        assert lines[i..][1..] == lines[i + 1..];
        var parts := SplitN2(lines[i], '=');
        if |parts| == 1 {
          return IndexOutOfRange(lines[i]);
        }
        if !SetenvAccepts(parts[0], parts[1]) {
          return SetenvError(parts[0]);
        }
        vars := vars[parts[0] := parts[1]];
      }
      return Loaded;
    }
  }

  /** The key is everything before the first `=`, the value everything after it: later `=`
      signs and a trailing carriage return stay in the value. */
  lemma KeyValueSplitAtFirstEquals(key: string, value: string)
    requires '=' !in key
    ensures SplitN2(key + "=" + value, '=') == [key, value]
  {
    var line := key + "=" + value;
    var parts := SplitN2(line, '=');
    assert line[|key|] == '=';
    assert |parts| == 2;
    assert parts[0] + ['='] + parts[1] == line;
    assert forall j :: 0 <= j < |key| ==> line[j] == key[j] && line[j] != '=';
    assert forall j :: 0 <= j < |parts[0]| ==> line[j] == parts[0][j] && line[j] != '=';
    assert line[|parts[0]|] == '=';
    assert |parts[0]| == |key|;
    assert parts[0] == line[..|parts[0]|] == key;
    assert parts[1] == line[|key| + 1..] == value;
  }

  /** A line whose key or value `os.Setenv` refuses (an empty key, or a NUL character) ends
      the load with that key, and the environment is left as it was before the line. */
  lemma RefusedVariableStopsTheLoad(env: map<string, string>, key: string, value: string, rest: seq<string>)
    requires '=' !in key && !SetenvAccepts(key, value)
    ensures ApplyLines(env, [key + "=" + value] + rest) == (env, SetenvError(key))
  {
    KeyValueSplitAtFirstEquals(key, value);
    assert ([key + "=" + value] + rest)[0] == key + "=" + value;
  }

  /** The value the lines give `key`: the one on the last line that assigns it. */
  function LastValue(lines: seq<string>, key: string): Option<string>
  {
    if lines == [] then None
    else
      match LastValue(lines[1..], key)
      case Some(v) => Some(v)
      case None =>
        var parts := SplitN2(lines[0], '=');
        if |parts| == 2 && parts[0] == key then Some(parts[1]) else None
  }

  /** After a load that succeeds, each key holds the value of the last line assigning it, and
      keys no line assigns keep their earlier value. */
  lemma {:induction false} LaterLinesOverwrite(env: map<string, string>, lines: seq<string>, key: string)
    requires ApplyLines(env, lines).1 == Loaded
    decreases |lines|
    ensures var result := ApplyLines(env, lines).0;
      match LastValue(lines, key)
      case Some(v) => key in result && result[key] == v
      case None => (key in result <==> key in env) && (key in env ==> result[key] == env[key])
  {
    if lines != [] {
      var parts := SplitN2(lines[0], '=');
      LaterLinesOverwrite(env[parts[0] := parts[1]], lines[1..], key);
    }
  }

  /** A line without `=` anywhere in the file makes the load fail. */
  lemma {:induction false} LineWithoutSeparatorFails(env: map<string, string>, lines: seq<string>, k: nat)
    requires k < |lines| && '=' !in lines[k]
    ensures ApplyLines(env, lines).1 != Loaded
    decreases k
  {
    if k > 0 {
      var parts := SplitN2(lines[0], '=');
      if |parts| == 2 && SetenvAccepts(parts[0], parts[1]) {
        LineWithoutSeparatorFails(env[parts[0] := parts[1]], lines[1..], k - 1);
      }
    }
  }

  /** A file that ends with a newline splits into a last, empty line, which has no `=`: loading
      it never succeeds. */
  lemma NewlineTerminatedFileFails(env: map<string, string>, text: string)
    requires text != [] && text[|text| - 1] == '\n'
    ensures Load(env, Success(text)).1 != Loaded
  {
    var lines := Split(text, '\n');
    SplitTrailing(text, '\n');
    LineWithoutSeparatorFails(env, lines, |lines| - 1);
  }

  /** Lines after the first failing line have no effect on the environment or the outcome. */
  lemma {:induction false} FailureStopsTheLoad(env: map<string, string>, lines: seq<string>, rest: seq<string>)
    requires ApplyLines(env, lines).1 != Loaded
    ensures ApplyLines(env, lines + rest) == ApplyLines(env, lines)
    decreases |lines|
  {
    assert lines != [];
    assert (lines + rest)[0] == lines[0];
    var parts := SplitN2(lines[0], '=');
    if |parts| == 2 && SetenvAccepts(parts[0], parts[1]) {
      assert (lines + rest)[1..] == lines[1..] + rest;
      FailureStopsTheLoad(env[parts[0] := parts[1]], lines[1..], rest);
    }
  }
}
