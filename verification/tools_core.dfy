/** The shared helpers of the asset tools: the help-flag test, and the
    lookups of a script's name, options and help text. The configuration
    file is given as a map from script file name to its entry, and the
    README as its list of lines; reading and parsing those files is left
    out. */
module ToolsCore {
  import opened Common

  /** One script's entry in the configuration; a missing key is `None`. */
  datatype ScriptEntry = ScriptEntry(name: Option<string>, options: Option<seq<string>>)

  type Config = map<string, ScriptEntry>

  predicate IsHelpFlag(arg: string)
  {
    arg == "-h" || arg == "--help"
  }

  /** `need_help`: scans the arguments for a help flag. */
  function NeedHelp(args: seq<string>): (r: bool)
    ensures r <==> exists i :: 0 <= i < |args| && IsHelpFlag(args[i])
  {
    if args == [] then false
    else if IsHelpFlag(args[0]) then true
    else
      var rest := NeedHelp(args[1..]);
      assert forall i :: 1 <= i < |args| ==> args[i] == args[1..][i - 1];
      rest
  }

  /** `os.path.basename`: what follows the last `/`. */
  function Basename(path: string): (b: string)
    ensures '/' !in b
    ensures |b| <= |path|
  {
    if path == [] then []
    else if path[|path| - 1] == '/' then []
    else Basename(path[..|path| - 1]) + [path[|path| - 1]]
  }

  /** The basename is the part after the last `/`: a suffix of the path,
      preceded by a `/` whenever it is shorter than the path. */
  lemma {:induction false} BasenameIsSuffix(path: string)
    ensures var b := Basename(path);
            b == path[|path| - |b|..] && (|b| < |path| ==> path[|path| - |b| - 1] == '/')
  {
    if path != [] && path[|path| - 1] != '/' {
      var init := path[..|path| - 1];
      BasenameIsSuffix(init);
      var b := Basename(init);
      assert path[|path| - |b| - 1..] == init[|init| - |b|..] + [path[|path| - 1]];
    }
  }

  /** The directory part never matters: a path and its file name have the
      same basename. */
  lemma {:induction false} BasenameOfJoin(dir: string, file: string)
    requires '/' !in file
    ensures Basename(dir + "/" + file) == file
  {
    if file == [] {
      assert (dir + "/" + file)[|dir + "/" + file| - 1] == '/';
    } else {
      var p := dir + "/" + file;
      assert p[..|p| - 1] == dir + "/" + file[..|file| - 1];
      assert '/' !in file[..|file| - 1] by {
        assert forall c :: c in file[..|file| - 1] ==> c in file;
      }
      BasenameOfJoin(dir, file[..|file| - 1]);
      assert file[..|file| - 1] + [file[|file| - 1]] == file;
    }
  }

  /** `get_tool_name`: the configured name, or `"unknown"` when the script
      or its name is missing. */
  function GetToolName(config: Config, file: string): (r: string)
    ensures var b := Basename(file);
            if b in config && config[b].name.Some? then r == config[b].name.value else r == "unknown"
  {
    var b := Basename(file);
    if b in config && config[b].name.Some? then config[b].name.value else "unknown"
  }

  /** `get_tool_options`: the configured option lines, or `None`. */
  function GetToolOptions(config: Config, file: string): (r: Option<seq<string>>)
    ensures var b := Basename(file);
            r == if b in config then config[b].options else None
  {
    var b := Basename(file);
    if b in config then config[b].options else None
  }

  /** Both lookups ignore the directory the script is run from. */
  lemma LookupsIgnoreDirectory(config: Config, dir: string, file: string)
    requires '/' !in file
    ensures GetToolName(config, dir + "/" + file) == GetToolName(config, file)
    ensures GetToolOptions(config, dir + "/" + file) == GetToolOptions(config, file)
  {
    BasenameOfJoin(dir, file);
    BasenameIdentity(file);
    SameBasenameSameName(config, dir + "/" + file, file);
    SameBasenameSameOptions(config, dir + "/" + file, file);
  }

  lemma SameBasenameSameName(config: Config, p: string, q: string)
    requires Basename(p) == Basename(q)
    ensures GetToolName(config, p) == GetToolName(config, q)
  {
    var b := Basename(p);
    assert GetToolName(config, p) == if b in config && config[b].name.Some? then config[b].name.value else "unknown";
  }

  lemma SameBasenameSameOptions(config: Config, p: string, q: string)
    requires Basename(p) == Basename(q)
    ensures GetToolOptions(config, p) == GetToolOptions(config, q)
  {
    var b := Basename(p);
    assert GetToolOptions(config, p) == if b in config then config[b].options else None;
  }

  lemma {:induction false} BasenameIdentity(file: string)
    requires '/' !in file
    ensures Basename(file) == file
  {
    if file != [] {
      assert '/' !in file[..|file| - 1] by {
        assert forall c :: c in file[..|file| - 1] ==> c in file;
      }
      BasenameIdentity(file[..|file| - 1]);
      assert file[..|file| - 1] + [file[|file| - 1]] == file;
    }
  }

  const NotAvailable: string := "not available"

  predicate StartsWith(line: string, prefix: string)
  {
    prefix <= line
  }

  /** The line that opens a script's section (a prefix match). */
  predicate IsStart(line: string, script: string)
  {
    StartsWith(line, "Script: " + script)
  }

  /** The line that closes it. */
  predicate IsEnd(line: string)
  {
    StartsWith(line, "EndScript")
  }

  /** Lines joined, each followed by a newline. */
  function Lines(ls: seq<string>): string
  {
    if ls == [] then "" else ls[0] + "\n" + Lines(ls[1..])
  }

  /** The loop of `get_tool_help` over the remaining lines, with the text
      gathered so far and whether it is copying. */
  function Scan(ls: seq<string>, script: string, help: string, copy: bool): string
  {
    if ls == [] then help
    else if IsStart(ls[0], script) then Scan(ls[1..], script, ls[0] + "\n", true)
    else if IsEnd(ls[0]) && copy then help
    else Scan(ls[1..], script, if copy then help + ls[0] + "\n" else help, copy)
  }

  /** `get_tool_help`: the script's section of the README. */
  function GetToolHelp(readme: seq<string>, file: string): (r: string)
    ensures r == NotAvailable <==> forall i :: 0 <= i < |readme| ==> !IsStart(readme[i], Basename(file))
  {
    var script := Basename(file);
    ScanFallback(readme, script);
    Scan(readme, script, NotAvailable, false)
  }

  /** The fallback text comes back exactly when no line opens the section. */
  lemma ScanFallback(ls: seq<string>, script: string)
    ensures Scan(ls, script, NotAvailable, false) == NotAvailable <==>
            forall i :: 0 <= i < |ls| ==> !IsStart(ls[i], script)
  {
    if forall i :: 0 <= i < |ls| ==> !IsStart(ls[i], script) {
      ScanWithoutStart(ls, script, NotAvailable);
    } else {
      ScanFindsStart(ls, script, NotAvailable);
    }
  }

  /** Before the first start line nothing is gathered. */
  lemma {:induction false} ScanWithoutStart(ls: seq<string>, script: string, help: string)
    requires forall i :: 0 <= i < |ls| ==> !IsStart(ls[i], script)
    ensures Scan(ls, script, help, false) == help
  {
    if ls != [] {
      ScanWithoutStart(ls[1..], script, help);
    }
  }

  /** Once a start line has been seen the text ends in a newline, so it is
      never the "not available" fallback. */
  lemma {:induction false} ScanFindsStart(ls: seq<string>, script: string, help: string)
    requires exists i :: 0 <= i < |ls| && IsStart(ls[i], script)
    ensures Scan(ls, script, help, false) != NotAvailable
  {
    if !IsStart(ls[0], script) {
      var i :| 0 <= i < |ls| && IsStart(ls[i], script);
      assert IsStart(ls[1..][i - 1], script);
      ScanFindsStart(ls[1..], script, help);
    } else {
      CopyEndsInNewline(ls[1..], script, ls[0] + "\n");
    }
  }

  lemma {:induction false} CopyEndsInNewline(ls: seq<string>, script: string, help: string)
    requires |help| > 0 && help[|help| - 1] == '\n'
    ensures var r := Scan(ls, script, help, true);
            |r| > 0 && r[|r| - 1] == '\n'
  {
    if ls != [] {
      if IsStart(ls[0], script) {
        CopyEndsInNewline(ls[1..], script, ls[0] + "\n");
      } else if !IsEnd(ls[0]) {
        CopyEndsInNewline(ls[1..], script, help + ls[0] + "\n");
      }
    }
  }

  predicate NoMarkers(ls: seq<string>, script: string)
  {
    forall i :: 0 <= i < |ls| ==> !IsStart(ls[i], script) && !IsEnd(ls[i])
  }

  /** While copying, lines without markers are appended in order. */
  lemma {:induction false} ScanCopiesBody(body: seq<string>, rest: seq<string>, script: string, help: string)
    requires NoMarkers(body, script)
    ensures Scan(body + rest, script, help, true) == Scan(rest, script, help + Lines(body), true)
  {
    if body == [] {
      assert body + rest == rest;
      assert help + Lines(body) == help;
    } else {
      assert (body + rest)[1..] == body[1..] + rest;
      assert NoMarkers(body[1..], script) by {
        forall i | 0 <= i < |body[1..]|
          ensures !IsStart(body[1..][i], script) && !IsEnd(body[1..][i])
        {
          assert body[1..][i] == body[i + 1];
        }
      }
      assert !IsStart(body[0], script) && !IsEnd(body[0]);
      ScanCopiesBody(body[1..], rest, script, help + body[0] + "\n");
      AppendAssoc(help, body[0] + "\n", Lines(body[1..]));
      AppendAssoc(help + body[0], "\n", Lines(body[1..]));
      AppendAssoc(help, body[0], "\n");
    }
  }

  /** Lines before the first start line are skipped. */
  lemma {:induction false} ScanSkipsPreamble(pre: seq<string>, rest: seq<string>, script: string, help: string)
    requires forall i :: 0 <= i < |pre| ==> !IsStart(pre[i], script)
    ensures Scan(pre + rest, script, help, false) == Scan(rest, script, help, false)
  {
    if pre == [] {
      assert pre + rest == rest;
    } else {
      assert (pre + rest)[1..] == pre[1..] + rest;
      assert !IsStart(pre[0], script);
      ScanSkipsPreamble(pre[1..], rest, script, help);
    }
  }

  /** A start line while copying, or not, begins the text afresh. */
  lemma ScanAtStart(line: string, rest: seq<string>, script: string, help: string, copy: bool)
    requires IsStart(line, script)
    ensures Scan([line] + rest, script, help, copy) == Scan(rest, script, line + "\n", true)
  {
    assert ([line] + rest)[1..] == rest;
  }

  /** A closing line ends the copy. */
  lemma ScanAtEnd(line: string, rest: seq<string>, script: string, help: string)
    requires IsEnd(line)
    ensures Scan([line] + rest, script, help, true) == help
  {
    assert !IsStart(line, script) by {
      assert "EndScript"[0] != ("Script: " + script)[0];
    }
  }

  /** The usual README layout: the help is the start line and the lines up
      to, not including, the closing `EndScript`; what follows is ignored. */
  lemma HelpIsTheSection(pre: seq<string>, start: string, body: seq<string>, end: string, post: seq<string>, file: string)
    requires var script := Basename(file);
             (forall i :: 0 <= i < |pre| ==> !IsStart(pre[i], script)) &&
             IsStart(start, script) && NoMarkers(body, script) && IsEnd(end)
    ensures GetToolHelp(pre + [start] + body + [end] + post, file) == Lines([start] + body)
  {
    var script := Basename(file);
    var tail := [end] + post;
    var section := [start] + (body + tail);
    AppendAssoc5(pre, [start], body, [end], post);
    ScanSkipsPreamble(pre, section, script, NotAvailable);
    ScanAtStart(start, body + tail, script, NotAvailable, false);
    ScanCopiesBody(body, tail, script, start + "\n");
    ScanAtEnd(end, post, script, start + "\n" + Lines(body));
    assert ([start] + body)[1..] == body;
  }

  /** A section that is never closed runs to the end of the README. */
  lemma HelpRunsToEnd(pre: seq<string>, start: string, body: seq<string>, file: string)
    requires var script := Basename(file);
             (forall i :: 0 <= i < |pre| ==> !IsStart(pre[i], script)) &&
             IsStart(start, script) && NoMarkers(body, script)
    ensures GetToolHelp(pre + [start] + body, file) == Lines([start] + body)
  {
    var script := Basename(file);
    AppendAssoc(pre, [start], body);
    ScanSkipsPreamble(pre, [start] + body, script, NotAvailable);
    ScanAtStart(start, body, script, NotAvailable, false);
    assert body + [] == body;
    ScanCopiesBody(body, [], script, start + "\n");
    assert ([start] + body)[1..] == body;
  }

  /** A second start line before the section is closed throws away what was
      gathered and starts again from there. */
  lemma HelpRestartsAtRepeatedStart(pre: seq<string>, s1: string, mid: seq<string>, s2: string, rest: seq<string>, file: string)
    requires var script := Basename(file);
             (forall i :: 0 <= i < |pre| ==> !IsStart(pre[i], script)) &&
             IsStart(s1, script) && IsStart(s2, script) &&
             (forall i :: 0 <= i < |mid| ==> !IsEnd(mid[i]))
    ensures GetToolHelp(pre + [s1] + mid + [s2] + rest, file) == GetToolHelp([s2] + rest, file)
  {
    var script := Basename(file);
    var later := [s2] + rest;
    var section := [s1] + (mid + later);
    AppendAssoc5(pre, [s1], mid, [s2], rest);
    ScanSkipsPreamble(pre, section, script, NotAvailable);
    ScanAtStart(s1, mid + later, script, NotAvailable, false);
    CopyUntilRestart(mid, later, script, s1 + "\n");
    ScanAtStart(s2, rest, script, NotAvailable, false);
    assert later[1..] == rest && later[0] == s2;
  }

  lemma {:induction false} CopyUntilRestart(mid: seq<string>, rest: seq<string>, script: string, help: string)
    requires forall i :: 0 <= i < |mid| ==> !IsEnd(mid[i])
    requires rest != [] && IsStart(rest[0], script)
    ensures Scan(mid + rest, script, help, true) == Scan(rest[1..], script, rest[0] + "\n", true)
  {
    if mid == [] {
      assert mid + rest == rest;
    } else {
      assert (mid + rest)[1..] == mid[1..] + rest;
      assert !IsEnd(mid[0]);
      var h := if IsStart(mid[0], script) then mid[0] + "\n" else help + mid[0] + "\n";
      CopyUntilRestart(mid[1..], rest, script, h);
    }
  }
}
