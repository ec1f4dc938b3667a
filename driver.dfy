/** What one run of gogrep prints and reports, as functions of its flags,
    its matcher and the abstract file system: the specification the
    imperative driver in run.dfy is proved against. */
module Driver {
  import opened GrepTypes
  import opened Format
  import opened LineFilter

  /** The label `main` passes to `search` for standard input. */
  const StdinLabel: string := "(standard input):"

  /** The records `reportMatch` writes for a selection, in order. */
  function Records(o: Options, printPath: bool, path: string, sel: seq<Numbered>): (rs: seq<string>)
    ensures |rs| == |sel|
    ensures forall j | 0 <= j < |sel| :: rs[j] == Record(o, printPath, path, sel[j].num, sel[j].text)
  {
    if sel == [] then []
    else Records(o, printPath, path, sel[..|sel| - 1]) + [Record(o, printPath, path, sel[|sel| - 1].num, sel[|sel| - 1].text)]
  }

  /** Everything `search` prints for the lines of one stream. */
  function SearchRecords(o: Options, printPath: bool, matches: string -> bool, path: string, lines: seq<string>): seq<string> {
    Records(o, printPath, path, Selection(matches, o.invert, lines))
  }

  /** What one file, or one walk, prints, and the error it ends with, if any. */
  datatype Walked = Walked(records: seq<string>, failure: Option<Failure>)

  /** `searchFile`: nothing if the file cannot be opened, else its records and
      the scanner's trailing error. */
  function FileOutcome(o: Options, printPath: bool, matches: string -> bool, path: string, src: Source): Walked {
    match src
    case Unopenable => Walked([], Some(OpenFailed(path)))
    case Readable(input) =>
      Walked(SearchRecords(o, printPath, matches, path, input.lines),
             if input.scanError then Some(ScanFailed(path)) else None)
  }

  /** `filepath.Walk` on a tree with main's callback: a file is searched; a
      directory whose listing fails ends the walk with that error; otherwise a
      directory is skipped without -r and descended into with -r. Any error the
      callback returns ends the whole walk. */
  function WalkOutcome(o: Options, printPath: bool, matches: string -> bool, node: Node): Walked
    decreases node
  {
    match node
    case File(path, src) => FileOutcome(o, printPath, matches, path, src)
    case Dir(path, readable, children) =>
      if !readable then Walked([], Some(ReadDirFailed(path)))
      else if !o.recursive then Walked([], None)
      else EntriesOutcome(o, printPath, matches, children)
  }

  /** The entries of one directory in walk order, stopping at the first error. */
  function EntriesOutcome(o: Options, printPath: bool, matches: string -> bool, nodes: seq<Node>): Walked
    decreases nodes
  {
    if nodes == [] then Walked([], None)
    else
      var before := EntriesOutcome(o, printPath, matches, nodes[..|nodes| - 1]);
      if before.failure.Some? then before
      else
        var last := WalkOutcome(o, printPath, matches, nodes[|nodes| - 1]);
        Walked(before.records + last.records, last.failure)
  }

  /** The run-state of `main` as a value: standard output so far, every error
      passed to `reportError` so far, and the printPath switch. */
  datatype State = State(output: seq<string>, reported: seq<Failure>, printPath: bool)

  function Start(printPath: bool): State {
    State([], [], printPath)
  }

  /** `reportError`'s effect on the state. */
  function Report(st: State, e: Failure): State {
    st.(reported := st.reported + [e])
  }

  /** Appends what a file or walk printed, and reports its error if it has one. */
  function Absorb(st: State, w: Walked): State {
    st.(output := st.output + w.records, reported := st.reported + ToSeq(w.failure))
  }

  /** One name of a glob expansion: a stat failure is reported; a directory
      turns printPath on and is walked; anything else is searched. */
  function ProcessName(o: Options, matches: string -> bool, st: State, name: Name): State {
    match name
    case Unstatable(n) => Report(st, StatFailed(n))
    case Statted(node) =>
      if node.Dir? then
        var st1 := st.(printPath := true);
        Absorb(st1, WalkOutcome(o, st1.printPath, matches, node))
      else Absorb(st, FileOutcome(o, st.printPath, matches, node.path, node.source))
  }

  /** The names of one expansion, in order. */
  function ProcessNames(o: Options, matches: string -> bool, st: State, names: seq<Name>): State
    decreases |names|
  {
    if names == [] then st
    else ProcessName(o, matches, ProcessNames(o, matches, st, names[..|names| - 1]), names[|names| - 1])
  }

  /** The names a glob expansion yields: none when the pattern is malformed. */
  function NamesOf(arg: Arg): seq<Name> {
    if arg.Expanded? then arg.names else []
  }

  /** One path argument: a glob error is reported, more than one name turns
      printPath on, and the names are processed. */
  function ProcessArg(o: Options, matches: string -> bool, st: State, arg: Arg): State {
    var st1 := if arg.BadPattern? then Report(st, GlobFailed(arg.arg)) else st;
    var names := NamesOf(arg);
    ProcessNames(o, matches, st1.(printPath := st1.printPath || |names| > 1), names)
  }

  /** The path arguments, in command-line order. */
  function ProcessArgs(o: Options, matches: string -> bool, st: State, args: seq<Arg>): State
    decreases |args|
  {
    if args == [] then st
    else ProcessArg(o, matches, ProcessArgs(o, matches, st, args[..|args| - 1]), args[|args| - 1])
  }

  /** The messages that reach standard error: none under -s. */
  function Shown(o: Options, reported: seq<Failure>): seq<Failure> {
    if o.noMessages then [] else reported
  }

  /** How a run ends: its exit status, standard output and standard error. */
  datatype Outcome = Outcome(status: int, output: seq<string>, messages: seq<Failure>)

  /** `main`: help, a missing or invalid pattern, standard input when no path
      is given, else every path argument in order. `paths` are the positional
      arguments after the pattern, so NArg is `|paths| + 1`. */
  function RunOutcome(o: Options, pattern: PatternArg, paths: seq<Arg>, stdin: Input): Outcome {
    if o.help then Outcome(0, [], [])
    else match pattern
      case Missing => Outcome(2, [], [Usage])
      case Invalid => Outcome(2, [], [BadRegexp])
      case Compiled(matches) =>
        if paths == [] then
          var w := FileOutcome(o, false, matches, StdinLabel, Readable(stdin));
          Outcome(0, w.records, Shown(o, ToSeq(w.failure)))
        else
          var st := ProcessArgs(o, matches, Start(|paths| + 1 > 2), paths);
          Outcome(if st.reported == [] then 0 else 2, st.output, Shown(o, st.reported))
  }

  /** Scanning one more line extends what `search` prints by that line's
      record exactly when the line is selected. */
  lemma SearchRecordsStep(o: Options, printPath: bool, matches: string -> bool, path: string, lines: seq<string>, k: nat)
    requires k < |lines|
    ensures SearchRecords(o, printPath, matches, path, lines[..k + 1])
         == SearchRecords(o, printPath, matches, path, lines[..k])
            + (if Selected(matches, o.invert, lines[k]) then [Record(o, printPath, path, k + 1, lines[k])] else [])
  {
    assert lines[..k + 1][..k] == lines[..k];
    var pre := Selection(matches, o.invert, lines[..k]);
    if Selected(matches, o.invert, lines[k]) {
      var sel := pre + [Numbered(k + 1, lines[k])];
      assert sel[..|sel| - 1] == pre;
    } else {
      assert Selection(matches, o.invert, lines[..k + 1]) == pre;
    }
  }

  /** Once an entry of a directory has failed, the later entries add nothing. */
  lemma {:induction false} EntriesStopAtFailure(o: Options, printPath: bool, matches: string -> bool, nodes: seq<Node>, i: nat, j: nat)
    requires i <= j <= |nodes|
    requires EntriesOutcome(o, printPath, matches, nodes[..i]).failure.Some?
    ensures EntriesOutcome(o, printPath, matches, nodes[..j]) == EntriesOutcome(o, printPath, matches, nodes[..i])
    decreases j
  {
    if j > i {
      EntriesStopAtFailure(o, printPath, matches, nodes, i, j - 1);
      assert nodes[..j][..j - 1] == nodes[..j - 1];
    }
  }

  /** While no entry has failed, walking one more entry appends its records
      and ends with its error. */
  lemma EntriesStep(o: Options, printPath: bool, matches: string -> bool, nodes: seq<Node>, i: nat)
    requires i < |nodes|
    requires EntriesOutcome(o, printPath, matches, nodes[..i]).failure.None?
    ensures var before := EntriesOutcome(o, printPath, matches, nodes[..i]);
            var last := WalkOutcome(o, printPath, matches, nodes[i]);
            EntriesOutcome(o, printPath, matches, nodes[..i + 1]) == Walked(before.records + last.records, last.failure)
  {
    assert nodes[..i + 1][..i] == nodes[..i];
    assert nodes[..i + 1][i] == nodes[i];
  }

  lemma AppendAssoc(x: seq<string>, y: seq<string>, z: seq<string>)
    ensures (x + y) + z == x + (y + z)
  {
  }

  lemma NamesStep(o: Options, matches: string -> bool, st: State, names: seq<Name>, j: nat)
    requires j < |names|
    ensures ProcessNames(o, matches, st, names[..j + 1])
         == ProcessName(o, matches, ProcessNames(o, matches, st, names[..j]), names[j])
  {
    assert names[..j + 1][..j] == names[..j];
  }

  lemma ArgsStep(o: Options, matches: string -> bool, st: State, args: seq<Arg>, i: nat)
    requires i < |args|
    ensures ProcessArgs(o, matches, st, args[..i + 1])
         == ProcessArg(o, matches, ProcessArgs(o, matches, st, args[..i]), args[i])
  {
    assert args[..i + 1][..i] == args[..i];
  }
}
