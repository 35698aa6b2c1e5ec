/** electron-app/main.ts, `loadDotEnvFile`: definitions from a file, behind the variables already set. */
module DotEnv {
  import opened Text

  type Vars = map<string, string>

  /** The key and value a line defines, if it defines any. The trim also takes the carriage return of a line end. */
  function Definition(rawLine: string): Option<(string, string)> {
    var line := Trim(rawLine);
    if line == "" || line[0] == '#' then None
    else
      var eq := IndexOf(line, '=');
      if eq == |line| then None
      else
        var key := Trim(line[..eq]);
        if key == "" then None else Some((key, Trim(line[eq + 1..])))
  }

  /** The line, trimmed, is no comment and reads as a key text, the first equals sign, and a value text. */
  ghost predicate Spells(rawLine: string, key: string, value: string, a: string, b: string) {
    Trim(rawLine) == a + ['='] + b && '=' !in a && a != "" && a[0] != '#' && Trim(a) == key != "" && Trim(b) == value
  }

  /** A line defines a key and a value exactly when it spells them. */
  lemma DefinitionIff(rawLine: string, key: string, value: string)
    ensures Definition(rawLine) == Some((key, value)) <==> exists a, b :: Spells(rawLine, key, value, a, b)
  {
    var line := Trim(rawLine);
    var eq := IndexOf(line, '=');
    if Definition(rawLine) == Some((key, value)) {
      var a, b := line[..eq], line[eq + 1..];
      assert line == a + ['='] + b;
      assert a != "";
      assert Spells(rawLine, key, value, a, b);
    }
    if a, b :| Spells(rawLine, key, value, a, b) {
      IndexOfAt(a, '=', b);
      assert line[..|a|] == a && line[|a| + 1..] == b;
    }
  }

  /** The value a line gives a key, if it defines that key. */
  function Given(rawLine: string, key: string): Option<string> {
    var d := Definition(rawLine);
    if d.Some? && d.value.0 == key then Some(d.value.1) else None
  }

  /** The variables with one definition behind them. */
  function Extend(before: Vars, d: Option<(string, string)>): Vars {
    if d.None? || d.value.0 in before then before else before[d.value.0 := d.value.1]
  }

  function Loaded(env: Vars, lines: seq<string>): Vars {
    if lines == [] then env else Extend(Loaded(env, lines[..|lines| - 1]), Definition(lines[|lines| - 1]))
  }

  lemma LoadedNext(env: Vars, lines: seq<string>, i: nat)
    requires i < |lines|
    ensures Loaded(env, lines[..i + 1]) == Extend(Loaded(env, lines[..i]), Definition(lines[i]))
  {
    assert lines[..i + 1][..i] == lines[..i];
  }

  method ParseLine(rawLine: string) returns (d: Option<(string, string)>)
    ensures d == Definition(rawLine)
  {
    var line := Trim(rawLine);
    if line == "" || line[0] == '#' {
      return None;
    }
    var eq := IndexOf(line, '=');
    if eq == |line| {
      return None;
    }
    var key := Trim(line[..eq]);
    var value := Trim(line[eq + 1..]);
    if key == "" {
      return None;
    }
    return Some((key, value));
  }

  method LoadDotEnv(env: Vars, content: Option<string>) returns (after: Vars)
    ensures after == if content.None? then env else Loaded(env, Split(content.value, '\n'))
  {
    after := env;
    if content.None? {
      return;
    }
    var lines := Split(content.value, '\n');
    for i := 0 to |lines|
      invariant after == Loaded(env, lines[..i])
    {
      LoadedNext(env, lines, i);
      var d := ParseLine(lines[i]);
      if d.Some? && d.value.0 !in after {
        after := after[d.value.0 := d.value.1];
      }
    }
    assert lines[..|lines|] == lines;
  }

  /** Line `i` is the first that defines the key, and it gives it this value. */
  ghost predicate FirstDefinition(lines: seq<string>, key: string, value: string, i: int) {
    0 <= i < |lines| && Given(lines[i], key) == Some(value) && forall j :: 0 <= j < i ==> Given(lines[j], key) == None
  }

  function FirstValue(lines: seq<string>, key: string): Option<string> {
    if lines == [] then None
    else if Given(lines[0], key).Some? then Given(lines[0], key)
    else FirstValue(lines[1..], key)
  }

  lemma {:induction false} FirstValueIff(lines: seq<string>, key: string, value: string)
    ensures FirstValue(lines, key) == Some(value) <==> exists i :: FirstDefinition(lines, key, value, i)
  {
    if lines != [] {
      var rest := lines[1..];
      if Given(lines[0], key).Some? {
        assert Given(lines[0], key) == Some(value) ==> FirstDefinition(lines, key, value, 0);
      } else {
        FirstValueIff(rest, key, value);
        if i :| FirstDefinition(rest, key, value, i) {
          assert FirstDefinition(lines, key, value, i + 1) by {
            assert forall j :: 1 <= j <= i + 1 ==> lines[j] == rest[j - 1];
          }
        }
        if i :| FirstDefinition(lines, key, value, i) {
          assert FirstDefinition(rest, key, value, i - 1) by {
            assert forall j :: 0 <= j <= i - 1 ==> rest[j] == lines[j + 1];
          }
        }
      }
    }
  }

  lemma {:induction false} FirstValueSnoc(lines: seq<string>, last: string, key: string)
    ensures FirstValue(lines + [last], key) ==
            if FirstValue(lines, key).Some? then FirstValue(lines, key) else Given(last, key)
  {
    if lines == [] {
      assert (lines + [last])[1..] == [];
    } else {
      TailAppend(lines, [last]);
      FirstValueSnoc(lines[1..], last, key);
    }
  }

  lemma ExtendGets(before: Vars, rawLine: string, key: string)
    ensures Get(Extend(before, Definition(rawLine)), key) ==
            if key in before then Get(before, key) else Given(rawLine, key)
  {
  }

  lemma {:induction false} LoadedGets(env: Vars, lines: seq<string>, key: string)
    ensures Get(Loaded(env, lines), key) == if key in env then Get(env, key) else FirstValue(lines, key)
  {
    if lines != [] {
      var n := |lines| - 1;
      LoadedGets(env, lines[..n], key);
      ExtendGets(Loaded(env, lines[..n]), lines[n], key);
      FirstValueSnoc(lines[..n], lines[n], key);
      assert lines == lines[..n] + [lines[n]];
    }
  }

  /**
   * A left-biased merge: a variable that is set keeps its value, any other gets the value of its first definition in
   * the file, and nothing else becomes set.
   */
  lemma LoadedIsMerge(env: Vars, lines: seq<string>, key: string, value: string)
    ensures Get(Loaded(env, lines), key) == Some(value) <==>
            if key in env then env[key] == value else exists i :: FirstDefinition(lines, key, value, i)
  {
    LoadedGets(env, lines, key);
    FirstValueIff(lines, key, value);
  }

  /** Loading a file a second time changes nothing. */
  lemma LoadIdempotent(env: Vars, lines: seq<string>)
    ensures Loaded(Loaded(env, lines), lines) == Loaded(env, lines)
  {
    var once := Loaded(env, lines);
    var twice := Loaded(once, lines);
    forall key ensures Get(twice, key) == Get(once, key) {
      LoadedGets(env, lines, key);
      LoadedGets(once, lines, key);
    }
    assert forall key :: (key in once <==> Get(once, key).Some?) && (key in twice <==> Get(twice, key).Some?);
    assert forall key :: key in twice ==> twice[key] == Get(twice, key).value;
  }
}
