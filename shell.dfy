/** The developer shell launcher (scripts/shell.js): the `.env` parser, the
    container check and the `docker-compose` arguments.  Reading the file,
    the process arguments, exiting and spawning are left to the caller. */
module Shell {
  import opened Helper

  // ---------------------------------------------------------------------
  // String.prototype.split and trim
  // ---------------------------------------------------------------------

  /** `s.split(c)` for a one-character separator: the pieces between the
      separators, one more than there are separators. */
  function SplitOn(s: string, c: char): (r: seq<string>)
    ensures |r| >= 1
    ensures forall i :: 0 <= i < |r| ==> c !in r[i]
    ensures c !in s ==> r == [s]
  {
    if s == [] then [""]
    else
      var rest := SplitOn(s[1..], c);
      if s[0] == c then [""] + rest
      else assert s == [s[0]] + s[1..]; [[s[0]] + rest[0]] + rest[1..]
  }

  /** `pieces.join(c)`. */
  function Join(pieces: seq<string>, c: char): string
    requires |pieces| >= 1
  {
    if |pieces| == 1 then pieces[0] else pieces[0] + [c] + Join(pieces[1..], c)
  }

  /** Splitting loses nothing: joining the pieces gives the text back. */
  lemma {:induction false} SplitJoin(s: string, c: char)
    ensures Join(SplitOn(s, c), c) == s
  {
    if s != [] {
      var rest := SplitOn(s[1..], c);
      SplitJoin(s[1..], c);
      if s[0] != c {
        if |rest| > 1 {
          assert rest[1..][1..] == rest[2..];
          assert Join(rest, c) == rest[0] + [c] + Join(rest[1..], c);
        }
      }
    }
  }

  /** The characters `trim` removes: the ASCII white space, the no-break
      space and the byte-order mark (the other Unicode space separators and
      line terminators are not modelled). */
  predicate IsSpace(ch: char) {
    ch == ' ' || ch == '\t' || ch == '\n' || ch == '\r' || ch == '\U{000B}' || ch == '\U{000C}' ||
    ch == '\U{00A0}' || ch == '\U{FEFF}'
  }

  function TrimStart(s: string): (r: string)
    ensures |r| <= |s| && r == s[|s| - |r|..]
    ensures forall i :: 0 <= i < |s| - |r| ==> IsSpace(s[i])
    ensures r == [] || !IsSpace(r[0])
  {
    if s != [] && IsSpace(s[0]) then TrimStart(s[1..]) else s
  }

  function TrimEnd(s: string): (r: string)
    ensures |r| <= |s| && r == s[..|r|]
    ensures forall i :: |r| <= i < |s| ==> IsSpace(s[i])
    ensures r == [] || !IsSpace(r[|r| - 1])
  {
    if s != [] && IsSpace(s[|s| - 1]) then TrimEnd(s[..|s| - 1]) else s
  }

  /** `s.trim()`: `s` without its leading and trailing spaces. */
  function Trim(s: string): (r: string)
    ensures r == [] || (!IsSpace(r[0]) && !IsSpace(r[|r| - 1]))
    ensures forall ch :: ch in r ==> ch in s
  {
    TrimEnd(TrimStart(s))
  }

  /** Trimming twice is trimming once. */
  lemma TrimIdempotent(s: string)
    ensures Trim(Trim(s)) == Trim(s)
  {
    var t := Trim(s);
    if t != [] {
      assert TrimStart(t) == t;
      assert TrimEnd(t) == t;
    }
  }

  // ---------------------------------------------------------------------
  // parseEnvFile
  // ---------------------------------------------------------------------

  /** The entry one line of `.env` contributes, if any: empty lines and
      comments contribute nothing; otherwise the text before the first '='
      and the text between the first and the second, both non-empty before
      trimming, are stored trimmed. */
  function LineEntry(line: string): (r: Option<(string, string)>)
    ensures line == "" || line[0] == '#' ==> r.None?
    ensures r.Some? ==> '=' in line && '=' !in r.value.0 && '=' !in r.value.1
  {
    if line == "" || line[0] == '#' then None
    else
      var parts := SplitOn(line, '=');
      var key := parts[0];
      if key != "" && |parts| > 1 && parts[1] != "" then Some((Trim(key), Trim(parts[1]))) else None
  }

  /** The variables of the first lines, each later line overwriting. */
  function EnvFromLines(lines: seq<string>): map<string, string> {
    if lines == [] then map[]
    else
      var env := EnvFromLines(lines[..|lines| - 1]);
      var entry := LineEntry(lines[|lines| - 1]);
      if entry.Some? then env[entry.value.0 := entry.value.1] else env
  }

  /** `parseEnvFile` on the file's text. */
  method ParseEnvFile(content: string) returns (envVars: map<string, string>)
    ensures envVars == EnvFromLines(SplitOn(content, '\n'))
  {
    var lines := SplitOn(content, '\n');
    envVars := map[];
    for i := 0 to |lines|
      invariant envVars == EnvFromLines(lines[..i])
    {
      assert lines[..i + 1][..i] == lines[..i];
      var entry := LineEntry(lines[i]);
      if entry.Some? {
        envVars := envVars[entry.value.0 := entry.value.1];
      }
    }
    assert lines[..|lines|] == lines;
  }

  /** The line sets the variable `key`. */
  predicate Sets(line: string, key: string) {
    LineEntry(line).Some? && LineEntry(line).value.0 == key
  }

  /** Line `i` is the last of `lines` that sets `key`. */
  predicate LastSetter(lines: seq<string>, key: string, i: int) {
    0 <= i < |lines| && Sets(lines[i], key) && forall j :: i < j < |lines| ==> !Sets(lines[j], key)
  }

  /** A variable is set exactly when some line sets it. */
  lemma {:induction false} EnvHasKey(lines: seq<string>, key: string)
    ensures key in EnvFromLines(lines) <==> exists i :: 0 <= i < |lines| && Sets(lines[i], key)
  {
    if lines != [] {
      var init := lines[..|lines| - 1];
      EnvHasKey(init, key);
      assert forall i :: 0 <= i < |init| ==> init[i] == lines[i];
      if key in EnvFromLines(lines) && !Sets(lines[|init|], key) {
        var i :| 0 <= i < |init| && Sets(init[i], key);
        assert Sets(lines[i], key);
      }
    }
  }

  /** A variable holds the value of the last line that sets it. */
  lemma {:induction false} EnvLastWins(lines: seq<string>, key: string, i: int)
    requires LastSetter(lines, key, i)
    ensures key in EnvFromLines(lines) && EnvFromLines(lines)[key] == LineEntry(lines[i]).value.1
  {
    var init := lines[..|lines| - 1];
    if i < |init| {
      assert !Sets(lines[|init|], key);
      assert forall j :: 0 <= j < |init| ==> init[j] == lines[j];
      EnvLastWins(init, key, i);
    }
  }

  // ---------------------------------------------------------------------
  // Container and arguments
  // ---------------------------------------------------------------------

  const ValidContainers := ["backend", "frontend", "db", "zero_cache"]
  const MissingContainerMessage := "Please specify a container name. Usage: pnpm shell <container>"
  const InvalidContainerMessage := "Invalid container name. Valid options are: backend, frontend, db, zero_cache"

  /** The container argument check: missing or empty, then not one of the
      four services, ends the script with the matching message. */
  function CheckContainer(arg: Option<string>): (r: Result<string>)
    ensures r.Ok? <==> arg.Some? && arg.value in ValidContainers
    ensures r.Ok? ==> r.value == arg.value
    ensures arg.None? || arg.value == "" ==> r == Err(MissingContainerMessage)
    ensures arg.Some? && arg.value != "" && arg.value !in ValidContainers ==> r == Err(InvalidContainerMessage)
  {
    if arg.None? || arg.value == "" then Err(MissingContainerMessage)
    else if arg.value !in ValidContainers then Err(InvalidContainerMessage)
    else Ok(arg.value)
  }

  /** The `docker-compose` arguments; an argument read from a variable the
      file does not set is `None` (JavaScript `undefined`). */
  function ComposeArgs(container: string, envVars: map<string, string>): (r: seq<Option<string>>)
    ensures |r| >= 5 && r[..3] == [Some("-f"), Some("docker-compose.dev.yml"), Some("exec")]
    ensures r[3] == Some(container)
    ensures container == "db" ==> r[4..] == [Some("psql"), Some("-U"), Lookup(envVars, "POSTGRES_USER"),
                                             Some("-d"), Lookup(envVars, "POSTGRES_DB")]
    ensures container != "db" ==> r[4..] == [Some("sh")]
  {
    var args := [Some("-f"), Some("docker-compose.dev.yml"), Some("exec")];
    if container == "db" then
      args + [Some("db"), Some("psql"), Some("-U"), Lookup(envVars, "POSTGRES_USER"), Some("-d"), Lookup(envVars, "POSTGRES_DB")]
    else
      args + [Some(container), Some("sh")]
  }

  function Lookup(envVars: map<string, string>, key: string): Option<string> {
    if key in envVars then Some(envVars[key]) else None
  }
}
