/** The imperative core of main.go: the run-state held in package globals
    (`exitCode`, `options.printPath`, standard output and standard error), the
    procedures that update it, and `main`'s loops over arguments and names. */
module Run {
  import opened GrepTypes
  import opened Format
  import opened LineFilter
  import opened Driver

  class Run {
    const opts: Options
    /** Standard output, one entry per record written. */
    var output: seq<string>
    /** Standard error, one entry per message written by `reportError`. */
    var messages: seq<Failure>
    var exitCode: int
    var printPath: bool
    /** Every error passed to `reportError`, shown or not. */
    ghost var reported: seq<Failure>

    /** The exit code records whether any error was reported, and -s hides
        the messages but not the errors. */
    ghost predicate Valid()
      reads this
    {
      && exitCode == (if reported == [] then 0 else 2)
      && messages == Shown(opts, reported)
    }

    ghost function View(): State
      reads this
    {
      State(output, reported, printPath)
    }

    constructor (opts: Options)
      ensures Valid() && this.opts == opts
      ensures output == [] && messages == [] && reported == []
      ensures exitCode == 0 && !printPath
    {
      this.opts := opts;
      output, messages, exitCode, printPath := [], [], 0, false;
      reported := [];
    }

    /** `reportError`: the message is written unless -s is given; the exit
        code becomes 2 either way. */
    method ReportError(e: Failure)
      requires Valid()
      modifies this`messages, this`exitCode, this`reported
      ensures Valid()
      ensures exitCode == 2
      ensures reported == old(reported) + [e]
      ensures messages == old(messages) + (if opts.noMessages then [] else [e])
    {
      if !opts.noMessages {
        messages := messages + [e];
      }
      exitCode := 2;
      reported := reported + [e];
    }

    /** `reportMatch`: writes one record for a selected line. */
    method ReportMatch(path: string, num: nat, line: string)
      modifies this`output
      ensures output == old(output) + [Record(opts, printPath, path, num, line)]
    {
      output := output + [Record(opts, printPath, path, num, line)];
    }

    /** `search`: numbers every scanned line from 1 and reports the selected
        ones; returns the scanner's trailing error. */
    method Search(matches: string -> bool, path: string, input: Input) returns (err: Option<Failure>)
      modifies this`output
      ensures output == old(output) + SearchRecords(opts, printPath, matches, path, input.lines)
      ensures err == (if input.scanError then Some(ScanFailed(path)) else None)
    {
      var lines := input.lines;
      var num := 0;
      while num < |lines|
        invariant 0 <= num <= |lines|
        invariant output == old(output) + SearchRecords(opts, printPath, matches, path, lines[..num])
      {
        SearchRecordsStep(opts, printPath, matches, path, lines, num);
        var line := lines[num];
        num := num + 1;
        if !opts.invert == matches(line) {
          ReportMatch(path, num, line);
        }
      }
      assert lines[..num] == lines;
      err := if input.scanError then Some(ScanFailed(path)) else None;
    }

    /** `searchFile`: an open failure is returned; otherwise the file is searched. */
    method SearchFile(matches: string -> bool, path: string, src: Source) returns (err: Option<Failure>)
      modifies this`output
      ensures output == old(output) + FileOutcome(opts, printPath, matches, path, src).records
      ensures err == FileOutcome(opts, printPath, matches, path, src).failure
    {
      match src
      case Unopenable =>
        err := Some(OpenFailed(path));
      case Readable(input) =>
        err := Search(matches, path, input);
    }

    /** `filepath.Walk` with main's callback, on the tree below `node`. */
    method Walk(matches: string -> bool, node: Node) returns (err: Option<Failure>)
      modifies this`output
      ensures output == old(output) + WalkOutcome(opts, printPath, matches, node).records
      ensures err == WalkOutcome(opts, printPath, matches, node).failure
      decreases node
    {
      match node
      case File(path, src) =>
        err := SearchFile(matches, path, src);
      case Dir(path, readable, children) =>
        if !readable {
          // the callback receives the listing error and returns it
          err := Some(ReadDirFailed(path));
        } else if !opts.recursive {
          // the callback returns SkipDir, which Walk turns into success
          err := None;
        } else {
          // the callback returns nil, and Walk goes on to the entries
          err := WalkEntries(matches, children);
        }
    }

    /** The entries of a directory in walk order; the first error ends the walk. */
    method WalkEntries(matches: string -> bool, children: seq<Node>) returns (err: Option<Failure>)
      modifies this`output
      ensures output == old(output) + EntriesOutcome(opts, printPath, matches, children).records
      ensures err == EntriesOutcome(opts, printPath, matches, children).failure
      decreases children
    {
      err := None;
      var i := 0;
      while i < |children|
        invariant 0 <= i <= |children|
        invariant output == old(output) + EntriesOutcome(opts, printPath, matches, children[..i]).records
        invariant err == EntriesOutcome(opts, printPath, matches, children[..i]).failure
        invariant err.None?
      {
        ghost var done := EntriesOutcome(opts, printPath, matches, children[..i]).records;
        ghost var printed := output;
        EntriesStep(opts, printPath, matches, children, i);
        err := Walk(matches, children[i]);
        ghost var w := WalkOutcome(opts, printPath, matches, children[i]);
        assert output == old(output) + (done + w.records) by {
          assert output == printed + w.records;
          assert printed == old(output) + done;
          AppendAssoc(old(output), done, w.records);
        }
        i := i + 1;
        if err.Some? {
          EntriesStopAtFailure(opts, printPath, matches, children, i, |children|);
          assert children[..|children|] == children;
          return;
        }
      }
      assert children[..i] == children;
    }

    /** The body of main's loop over the names of one expansion. */
    method ProcessName(matches: string -> bool, name: Name)
      requires Valid()
      modifies this
      ensures Valid()
      ensures View() == Driver.ProcessName(opts, matches, old(View()), name)
    {
      match name {
        case Unstatable(n) =>
          ReportError(StatFailed(n));
        case Statted(node) =>
          if node.Dir? {
            printPath := true;
            var err := Walk(matches, node);
            if err.Some? {
              ReportError(err.value);
            }
          } else {
            var err := SearchFile(matches, node.path, node.source);
            if err.Some? {
              ReportError(err.value);
            }
          }
      }
    }

    /** main's loop over the names of one expansion. */
    method ProcessNames(matches: string -> bool, names: seq<Name>)
      requires Valid()
      modifies this
      ensures Valid()
      ensures View() == Driver.ProcessNames(opts, matches, old(View()), names)
    {
      var j := 0;
      while j < |names|
        invariant 0 <= j <= |names|
        invariant Valid()
        invariant View() == Driver.ProcessNames(opts, matches, old(View()), names[..j])
      {
        NamesStep(opts, matches, old(View()), names, j);
        ProcessName(matches, names[j]);
        j := j + 1;
      }
      assert names[..j] == names;
    }

    /** The body of main's loop over path arguments: expand, update printPath,
        and process every name. */
    method ProcessArg(matches: string -> bool, arg: Arg)
      requires Valid()
      modifies this
      ensures Valid()
      ensures View() == Driver.ProcessArg(opts, matches, old(View()), arg)
    {
      if arg.BadPattern? {
        ReportError(GlobFailed(arg.arg));
      }
      var names := NamesOf(arg);
      printPath := printPath || |names| > 1;
      ProcessNames(matches, names);
    }
  }

  /** `main`. `paths` are the positional arguments after the pattern, each
      already expanded by glob; returns the exit status and what was written
      to standard output and standard error. */
  method Gogrep(o: Options, pattern: PatternArg, paths: seq<Arg>, stdin: Input)
    returns (status: int, stdout: seq<string>, stderr: seq<Failure>)
    ensures Outcome(status, stdout, stderr) == RunOutcome(o, pattern, paths, stdin)
  {
    if o.help {
      return 0, [], [];
    }
    match pattern {
      case Missing =>
        return 2, [], [Usage];
      case Invalid =>
        return 2, [], [BadRegexp];
      case Compiled(matches) =>
        var run := new Run(o);
        if |paths| == 0 {
          var err := run.Search(matches, StdinLabel, stdin);
          if err.Some? {
            run.ReportError(err.value);
          }
          // main returns here without consulting exitCode
          return 0, run.output, run.messages;
        }
        run.printPath := |paths| + 1 > 2;
        var i := 0;
        while i < |paths|
          invariant 0 <= i <= |paths|
          invariant run.Valid() && run.opts == o
          invariant run.View() == ProcessArgs(o, matches, Start(|paths| + 1 > 2), paths[..i])
        {
          ArgsStep(o, matches, Start(|paths| + 1 > 2), paths, i);
          run.ProcessArg(matches, paths[i]);
          i := i + 1;
        }
        assert paths[..i] == paths;
        return run.exitCode, run.output, run.messages;
    }
  }
}
