/** `load_env_file` and `resolve_root` of `upload_plugin.py`. The file
    reaches the model as its lines (as `for line in f` yields them) and the
    working directory as its path components. */
module EnvFile {
  import opened Wrappers
  import opened Text

  predicate IsQuote(c: char) {
    c == '"' || c == '\''
  }

  /** One line of `plugins.env`. A pair it gives has a key free of `=` that
      neither starts with a blank nor starts a comment, and a value without a
      quote at either end. */
  function ParseLine(line: string): (r: Option<(string, string)>)
    ensures r.Some? ==> '=' !in r.value.0
    ensures r.Some? && r.value.0 != [] ==> !IsSpace(r.value.0[0]) && r.value.0[0] != '#'
    ensures r.Some? && r.value.1 != [] ==> !IsQuote(r.value.1[0]) && !IsQuote(r.value.1[|r.value.1| - 1])
  {
    var t := Strip(line);
    if t == "" || t[0] == '#' || '=' !in t then None
    else
      var i := IndexOf(t, '=');
      Some((t[..i], StripWhere(t[i + 1..], IsQuote)))
  }

  /** What a line gives: the line is trimmed; blank lines, `#` comments and
      lines without `=` give nothing; otherwise the key is everything before
      the first `=` (not trimmed again) and the value everything after it
      with all surrounding quote characters removed. */
  lemma ParseLineShape(line: string)
    ensures ParseLine(line).None? <==> (Strip(line) == "" || Strip(line)[0] == '#' || '=' !in Strip(line))
    ensures ParseLine(line).Some? ==>
              var t, key := Strip(line), ParseLine(line).value.0;
              && |key| < |t| && t[..|key|] == key && t[|key|] == '='
              && '=' !in key
              && ParseLine(line).value.1 == StripWhere(t[|key| + 1..], IsQuote)
  {
  }

  /** A line written as `key=value`, with a key free of `=`, that does not
      start a comment and has no blanks or quotes at either end, reads back
      as that pair. */
  lemma ParseLineRoundTrip(key: string, value: string)
    requires key != [] && '=' !in key && !IsSpace(key[0]) && key[0] != '#'
    requires value != [] ==> !IsSpace(value[|value| - 1]) && !IsQuote(value[0]) && !IsQuote(value[|value| - 1])
    ensures ParseLine(key + "=" + value) == Some((key, value))
  {
    var line := key + "=" + value;
    assert line[0] == key[0];
    assert line[|line| - 1] == if value == [] then '=' else value[|value| - 1];
    StripWhereFixed(line, IsSpace);
    assert '=' in line by { assert line[|key|] == '='; }
    assert line[..|key|] == key;
    assert IndexOf(line, '=') == |key|;
    assert line[|key| + 1..] == value;
    StripWhereFixed(value, IsQuote);
  }

  /** What a parsed line does to the dict: `env[key] = value`, or nothing. */
  function Apply(env: map<string, string>, entry: Option<(string, string)>): map<string, string> {
    if entry.None? then env else env[entry.value.0 := entry.value.1]
  }

  /** The dict built from a run of parsed lines, first to last. */
  function Fold(entries: seq<Option<(string, string)>>): map<string, string>
    decreases |entries|
  {
    if entries == [] then map[] else Apply(Fold(entries[..|entries| - 1]), entries[|entries| - 1])
  }

  lemma FoldSnoc(entries: seq<Option<(string, string)>>, n: nat)
    requires n < |entries|
    ensures Fold(entries[..n + 1]) == Apply(Fold(entries[..n]), entries[n])
  {
    assert entries[..n + 1][..n] == entries[..n];
  }

  function Entries(lines: seq<string>): seq<Option<(string, string)>> {
    seq(|lines|, i requires 0 <= i < |lines| => ParseLine(lines[i]))
  }

  /** The dict the loop has built after the lines of `lines`. */
  function EnvOf(lines: seq<string>): map<string, string> {
    Fold(Entries(lines))
  }

  /** `load_env_file` over the file's lines. */
  method LoadEnvFile(lines: seq<string>) returns (env: map<string, string>)
    ensures env == EnvOf(lines)
  {
    env := map[];
    var n := 0;
    while n < |lines|
      invariant 0 <= n <= |lines|
      invariant env == Fold(Entries(lines)[..n])
    {
      ghost var entries := Entries(lines);
      FoldSnoc(entries, n);
      assert entries[n] == ParseLine(lines[n]);
      var line := Strip(lines[n]);
      if line != "" && line[0] != '#' && '=' in line {
        var i := IndexOf(line, '=');
        var key, value := line[..i], line[i + 1..];
        assert ParseLine(lines[n]) == Some((key, StripWhere(value, IsQuote)));
        env := env[key := StripWhere(value, IsQuote)];
      } else {
        assert ParseLine(lines[n]).None?;
      }
      n := n + 1;
    }
    assert Entries(lines)[..n] == Entries(lines);
  }

  /** A key is in the dict exactly when some entry sets it. */
  lemma {:induction false} FoldKeys(entries: seq<Option<(string, string)>>, key: string)
    ensures key in Fold(entries) <==>
              exists n :: 0 <= n < |entries| && entries[n].Some? && entries[n].value.0 == key
    decreases |entries|
  {
    if entries != [] {
      var init := entries[..|entries| - 1];
      FoldKeys(init, key);
      if key in Fold(init) {
        var n :| 0 <= n < |init| && init[n].Some? && init[n].value.0 == key;
        assert entries[n] == init[n];
      } else if key !in Fold(entries) {
        forall n | 0 <= n < |entries| && entries[n].Some?
          ensures entries[n].value.0 != key
        {
          if n < |init| {
            assert entries[n] == init[n];
          }
        }
      }
    }
  }

  /** The value of a key comes from the last entry that sets it. */
  lemma {:induction false} FoldLastWins(entries: seq<Option<(string, string)>>, n: nat)
    requires n < |entries| && entries[n].Some?
    requires forall m :: n < m < |entries| && entries[m].Some? ==> entries[m].value.0 != entries[n].value.0
    ensures entries[n].value.0 in Fold(entries)
    ensures Fold(entries)[entries[n].value.0] == entries[n].value.1
    decreases |entries|
  {
    if n < |entries| - 1 {
      var init := entries[..|entries| - 1];
      assert init[n] == entries[n];
      FoldLastWins(init, n);
    }
  }

  /** A key is present exactly when some line parses to it. */
  lemma EnvOfKeys(lines: seq<string>, key: string)
    ensures key in EnvOf(lines) <==>
              exists n :: 0 <= n < |lines| && ParseLine(lines[n]).Some? && ParseLine(lines[n]).value.0 == key
  {
    var entries := Entries(lines);
    FoldKeys(entries, key);
    if key in EnvOf(lines) {
      var n :| 0 <= n < |entries| && entries[n].Some? && entries[n].value.0 == key;
      assert ParseLine(lines[n]) == entries[n];
    } else {
      forall n | 0 <= n < |lines| && ParseLine(lines[n]).Some?
        ensures ParseLine(lines[n]).value.0 != key
      {
        assert ParseLine(lines[n]) == entries[n];
      }
    }
  }

  /** The value of a key comes from the last line that parses to it. */
  lemma EnvOfLastWins(lines: seq<string>, n: nat)
    requires n < |lines| && ParseLine(lines[n]).Some?
    requires forall m :: n < m < |lines| && ParseLine(lines[m]).Some?
                         ==> ParseLine(lines[m]).value.0 != ParseLine(lines[n]).value.0
    ensures ParseLine(lines[n]).value.0 in EnvOf(lines)
    ensures EnvOf(lines)[ParseLine(lines[n]).value.0] == ParseLine(lines[n]).value.1
  {
    var entries := Entries(lines);
    assert entries[n] == ParseLine(lines[n]);
    forall m | n < m < |entries| && entries[m].Some?
      ensures entries[m].value.0 != entries[n].value.0
    {
      assert entries[m] == ParseLine(lines[m]);
    }
    FoldLastWins(entries, n);
  }

  /** `resolve_root`: the parent of the working directory when that
      directory is named `scripts`, the working directory otherwise. A path
      is its list of components; the root directory's is empty. */
  function ResolveRoot(here: seq<string>): (root: seq<string>)
    ensures root <= here
    ensures root != here <==> here != [] && here[|here| - 1] == "scripts"
    ensures root != here ==> |root| == |here| - 1
  {
    if here != [] && here[|here| - 1] == "scripts" then here[..|here| - 1] else here
  }
}
