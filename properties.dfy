/** Properties of a whole run: walk order, argument order, the printPath
    switch, error isolation and the exit status. */
module Properties {
  import opened GrepTypes
  import opened Format
  import opened LineFilter
  import opened Driver

  // ---------------------------------------------------------------------
  // Directory walks

  /** The files a walk hands to `searchFile` when nothing fails, in walk
      order: a directory contributes its entries, depth first, only with -r
      and only when it can be listed. */
  function Preorder(recursive: bool, node: Node): (files: seq<Node>)
    decreases node
  {
    match node
    case File(_, _) => [node]
    case Dir(_, readable, children) =>
      if readable && recursive then PreorderAll(recursive, children) else []
  }

  function PreorderAll(recursive: bool, nodes: seq<Node>): seq<Node>
    decreases nodes
  {
    if nodes == [] then []
    else PreorderAll(recursive, nodes[..|nodes| - 1]) + Preorder(recursive, nodes[|nodes| - 1])
  }

  /** What searching one file prints (nothing for a directory). */
  function FileRecords(o: Options, printPath: bool, matches: string -> bool, f: Node): seq<string> {
    if f.File? then FileOutcome(o, printPath, matches, f.path, f.source).records else []
  }

  predicate FileFails(o: Options, printPath: bool, matches: string -> bool, f: Node) {
    f.File? && FileOutcome(o, printPath, matches, f.path, f.source).failure.Some?
  }

  /** The pieces `f` gives for each element of `xs`, one after the other. */
  function Flatten<T>(f: T -> seq<string>, xs: seq<T>): seq<string>
    decreases |xs|
  {
    if xs == [] then [] else Flatten(f, xs[..|xs| - 1]) + f(xs[|xs| - 1])
  }

  lemma {:induction false} FlattenAppend<T>(f: T -> seq<string>, a: seq<T>, b: seq<T>)
    ensures Flatten(f, a + b) == Flatten(f, a) + Flatten(f, b)
    decreases |b|
  {
    if b == [] {
      assert a + b == a;
    } else {
      var k := |b| - 1;
      FlattenAppend(f, a, b[..k]);
      assert (a + b)[..|a + b| - 1] == a + b[..k];
      assert (a + b)[|a + b| - 1] == b[k];
    }
  }

  lemma FlattenSingle<T>(f: T -> seq<string>, x: T)
    ensures Flatten(f, [x]) == f(x)
  {
    assert [x][..0] == [];
  }

  /** The records of a list of files, one after the other. */
  function FilesRecords(o: Options, printPath: bool, matches: string -> bool, files: seq<Node>): seq<string> {
    Flatten(f => FileRecords(o, printPath, matches, f), files)
  }

  lemma PrefixConcat(a: seq<string>, x: seq<string>, b: seq<string>, y: seq<string>)
    requires a == x && b <= y
    ensures a + b <= x + y
  {
    assert (x + y)[..|a + b|] == a + b;
  }

  lemma PrefixExtend(a: seq<string>, x: seq<string>, y: seq<string>)
    requires a <= x
    ensures a <= x + y
  {
    assert (x + y)[..|a|] == x[..|a|];
  }

  /** What a walk `w` prints is a prefix of what searching `files` one
      after the other prints; when `w` ends without error it is all of it
      and none of the files failed. */
  predicate Follows(o: Options, printPath: bool, matches: string -> bool, w: Walked, files: seq<Node>) {
    && w.records <= FilesRecords(o, printPath, matches, files)
    && (w.failure.None? ==>
          && w.records == FilesRecords(o, printPath, matches, files)
          && forall i | 0 <= i < |files| :: !FileFails(o, printPath, matches, files[i]))
  }

  /** The walk searches the files under a node in pre-order, and an error
      stops it at the failing entry. */
  lemma {:induction false} WalkFollowsPreorder(o: Options, printPath: bool, matches: string -> bool, node: Node)
    ensures Follows(o, printPath, matches, WalkOutcome(o, printPath, matches, node), Preorder(o.recursive, node))
    decreases node
  {
    match node
    case File(_, _) =>
      FlattenSingle(f => FileRecords(o, printPath, matches, f), node);
    case Dir(_, readable, children) =>
      if readable && o.recursive {
        EntriesFollowPreorder(o, printPath, matches, children);
      }
  }

  lemma {:induction false} EntriesFollowPreorder(o: Options, printPath: bool, matches: string -> bool, nodes: seq<Node>)
    ensures Follows(o, printPath, matches, EntriesOutcome(o, printPath, matches, nodes), PreorderAll(o.recursive, nodes))
    decreases nodes
  {
    if nodes != [] {
      var init, last := nodes[..|nodes| - 1], nodes[|nodes| - 1];
      EntriesFollowPreorder(o, printPath, matches, init);
      WalkFollowsPreorder(o, printPath, matches, last);
      FollowsConcat(o, printPath, matches,
        EntriesOutcome(o, printPath, matches, init), WalkOutcome(o, printPath, matches, last),
        PreorderAll(o.recursive, init), Preorder(o.recursive, last));
    }
  }

  /** One more entry: a walk that already failed stays as it is, otherwise
      the entry's records are appended and its error ends the walk. */
  lemma FollowsConcat(o: Options, printPath: bool, matches: string -> bool, before: Walked, w: Walked, fa: seq<Node>, fb: seq<Node>)
    requires Follows(o, printPath, matches, before, fa)
    requires Follows(o, printPath, matches, w, fb)
    ensures Follows(o, printPath, matches,
                    if before.failure.Some? then before else Walked(before.records + w.records, w.failure),
                    fa + fb)
  {
    FlattenAppend(f => FileRecords(o, printPath, matches, f), fa, fb);
    var ra, rb := FilesRecords(o, printPath, matches, fa), FilesRecords(o, printPath, matches, fb);
    if before.failure.Some? {
      PrefixExtend(before.records, ra, rb);
    } else {
      PrefixConcat(before.records, ra, w.records, rb);
      if w.failure.None? {
        forall i | 0 <= i < |fa + fb| ensures !FileFails(o, printPath, matches, (fa + fb)[i]) {
          if i < |fa| {
            assert (fa + fb)[i] == fa[i];
          } else {
            assert (fa + fb)[i] == fb[i - |fa|];
          }
        }
      }
    }
  }

  /** The nodes the walk callback acts on, in walk order: every file, and
      every directory whose listing fails; a listable directory stands for
      its entries with -r and for nothing without it. */
  function Visits(recursive: bool, node: Node): seq<Node>
    decreases node
  {
    match node
    case File(_, _) => [node]
    case Dir(_, readable, children) =>
      if !readable then [node]
      else if recursive then VisitsAll(recursive, children)
      else []
  }

  function VisitsAll(recursive: bool, nodes: seq<Node>): seq<Node>
    decreases nodes
  {
    if nodes == [] then []
    else VisitsAll(recursive, nodes[..|nodes| - 1]) + Visits(recursive, nodes[|nodes| - 1])
  }

  /** What the callback does with one visited node: search a file, or return
      the listing error of a directory. */
  function Step(o: Options, printPath: bool, matches: string -> bool, n: Node): Walked {
    match n
    case File(path, src) => FileOutcome(o, printPath, matches, path, src)
    case Dir(path, _, _) => Walked([], Some(ReadDirFailed(path)))
  }

  /** `a` followed by `b`, unless `a` already failed. */
  function Then(a: Walked, b: Walked): Walked {
    if a.failure.Some? then a else Walked(a.records + b.records, b.failure)
  }

  /** Act on the visited nodes one at a time, keeping what each prints, and
      stop at the first one that fails. */
  function StopAtFirst(o: Options, printPath: bool, matches: string -> bool, vs: seq<Node>): Walked
    decreases |vs|
  {
    if vs == [] then Walked([], None)
    else Then(Step(o, printPath, matches, vs[0]), StopAtFirst(o, printPath, matches, vs[1..]))
  }

  lemma ThenAssoc(a: Walked, b: Walked, c: Walked)
    ensures Then(Then(a, b), c) == Then(a, Then(b, c))
  {
    if a.failure.None? && b.failure.None? {
      assert (a.records + b.records) + c.records == a.records + (b.records + c.records);
    }
  }

  lemma {:induction false} StopAtFirstAppend(o: Options, printPath: bool, matches: string -> bool, a: seq<Node>, b: seq<Node>)
    ensures StopAtFirst(o, printPath, matches, a + b)
         == Then(StopAtFirst(o, printPath, matches, a), StopAtFirst(o, printPath, matches, b))
    decreases |a|
  {
    if a == [] {
      assert a + b == b;
    } else {
      assert (a + b)[0] == a[0];
      assert (a + b)[1..] == a[1..] + b;
      StopAtFirstAppend(o, printPath, matches, a[1..], b);
      ThenAssoc(Step(o, printPath, matches, a[0]), StopAtFirst(o, printPath, matches, a[1..]),
                StopAtFirst(o, printPath, matches, b));
    }
  }

  lemma StopAtFirstSingle(o: Options, printPath: bool, matches: string -> bool, n: Node)
    ensures StopAtFirst(o, printPath, matches, [n]) == Step(o, printPath, matches, n)
  {
    assert [n][1..] == [];
  }

  /** The walk is exactly: act on the visited nodes in walk order, printing
      every file in full as it is searched, and stop at the first error. */
  lemma {:induction false} WalkIsStopAtFirst(o: Options, printPath: bool, matches: string -> bool, node: Node)
    ensures WalkOutcome(o, printPath, matches, node) == StopAtFirst(o, printPath, matches, Visits(o.recursive, node))
    decreases node
  {
    match node
    case File(_, _) =>
      StopAtFirstSingle(o, printPath, matches, node);
    case Dir(_, readable, children) =>
      if !readable {
        StopAtFirstSingle(o, printPath, matches, node);
      } else if o.recursive {
        EntriesIsStopAtFirst(o, printPath, matches, children);
      }
  }

  lemma {:induction false} EntriesIsStopAtFirst(o: Options, printPath: bool, matches: string -> bool, nodes: seq<Node>)
    ensures EntriesOutcome(o, printPath, matches, nodes) == StopAtFirst(o, printPath, matches, VisitsAll(o.recursive, nodes))
    decreases nodes
  {
    if nodes != [] {
      var init, last := nodes[..|nodes| - 1], nodes[|nodes| - 1];
      EntriesIsStopAtFirst(o, printPath, matches, init);
      WalkIsStopAtFirst(o, printPath, matches, last);
      StopAtFirstAppend(o, printPath, matches, VisitsAll(o.recursive, init), Visits(o.recursive, last));
    }
  }

  /** When the visited node at `k` is the first to fail, what is printed is
      the records of every node up to and including it, and its error. */
  lemma {:induction false} FirstFailureStops(o: Options, printPath: bool, matches: string -> bool, vs: seq<Node>, k: nat)
    requires k < |vs|
    requires forall i | 0 <= i < k :: Step(o, printPath, matches, vs[i]).failure.None?
    requires Step(o, printPath, matches, vs[k]).failure.Some?
    ensures StopAtFirst(o, printPath, matches, vs)
         == Walked(Flatten(n => Step(o, printPath, matches, n).records, vs[..k + 1]),
                   Step(o, printPath, matches, vs[k]).failure)
    decreases k
  {
    var f := n => Step(o, printPath, matches, n).records;
    if k == 0 {
      FlattenSingle(f, vs[0]);
      assert vs[..1] == [vs[0]];
    } else {
      var rest := vs[1..];
      forall i | 0 <= i < k - 1 ensures Step(o, printPath, matches, rest[i]).failure.None? {
        assert rest[i] == vs[i + 1];
      }
      assert rest[k - 1] == vs[k];
      FirstFailureStops(o, printPath, matches, rest, k - 1);
      assert vs[..k + 1] == [vs[0]] + rest[..k];
      FlattenAppend(f, [vs[0]], rest[..k]);
      FlattenSingle(f, vs[0]);
    }
  }

  /** When no visited node fails, every one of them is printed in full and
      the walk ends without error. */
  lemma {:induction false} NoFailurePrintsAll(o: Options, printPath: bool, matches: string -> bool, vs: seq<Node>)
    requires forall i | 0 <= i < |vs| :: Step(o, printPath, matches, vs[i]).failure.None?
    ensures StopAtFirst(o, printPath, matches, vs)
         == Walked(Flatten(n => Step(o, printPath, matches, n).records, vs), None)
    decreases |vs|
  {
    var f := n => Step(o, printPath, matches, n).records;
    if vs != [] {
      var rest := vs[1..];
      forall i | 0 <= i < |rest| ensures Step(o, printPath, matches, rest[i]).failure.None? {
        assert rest[i] == vs[i + 1];
      }
      NoFailurePrintsAll(o, printPath, matches, rest);
      assert vs == [vs[0]] + rest;
      FlattenAppend(f, [vs[0]], rest);
      FlattenSingle(f, vs[0]);
    }
  }

  /** Without -r nothing under a directory argument is searched: the callback
      skips the root itself. */
  lemma NonRecursiveSkipsDirectory(o: Options, printPath: bool, matches: string -> bool, node: Node)
    requires !o.recursive && node.Dir?
    ensures WalkOutcome(o, printPath, matches, node).records == []
    ensures WalkOutcome(o, printPath, matches, node).failure
         == (if node.readable then None else Some(ReadDirFailed(node.path)))
  {
  }

  /** A directory name turns printPath on and reports the walk's error, if
      it has one, exactly once: when some file under it fails, one error is
      added to those already reported. */
  lemma WalkReportsOnce(o: Options, matches: string -> bool, st: State, node: Node)
    requires node.Dir?
    ensures var after := ProcessName(o, matches, st, Statted(node));
            && after.printPath
            && after.reported == st.reported + ToSeq(WalkOutcome(o, true, matches, node).failure)
            && |after.reported| <= |st.reported| + 1
    ensures var files := Preorder(o.recursive, node);
            (exists i | 0 <= i < |files| :: FileFails(o, true, matches, files[i])) ==>
              |ProcessName(o, matches, st, Statted(node)).reported| == |st.reported| + 1
  {
    WalkFollowsPreorder(o, true, matches, node);
  }

  // ---------------------------------------------------------------------
  // Arguments and names, in order

  /** An argument that expands to no names, as a path that does not exist
      does, is skipped without a trace: no output, no error, no change to
      printPath. */
  lemma EmptyExpansionSkipped(o: Options, matches: string -> bool, st: State)
    ensures ProcessArg(o, matches, st, Expanded([])) == st
  {
  }

  /** Processing arguments `a` and then `b` is processing `a + b`: output
      follows the order of the command line. */
  lemma {:induction false} ProcessArgsAppend(o: Options, matches: string -> bool, st: State, a: seq<Arg>, b: seq<Arg>)
    ensures ProcessArgs(o, matches, st, a + b) == ProcessArgs(o, matches, ProcessArgs(o, matches, st, a), b)
    decreases |b|
  {
    if b == [] {
      assert a + b == a;
    } else {
      var k := |b| - 1;
      ProcessArgsAppend(o, matches, st, a, b[..k]);
      assert (a + b)[..|a + b| - 1] == a + b[..k];
      assert (a + b)[|a + b| - 1] == b[k];
    }
  }

  /** What a state already holds is kept: output and errors only grow, and
      printPath never goes back to false. */
  predicate Extends(st: State, after: State) {
    && st.output <= after.output
    && st.reported <= after.reported
    && (st.printPath ==> after.printPath)
  }

  lemma ExtendsTransitive(a: State, b: State, c: State)
    requires Extends(a, b) && Extends(b, c)
    ensures Extends(a, c)
  {
    assert c.output[..|a.output|] == b.output[..|a.output|];
    assert c.reported[..|a.reported|] == b.reported[..|a.reported|];
  }

  lemma NameExtends(o: Options, matches: string -> bool, st: State, name: Name)
    ensures Extends(st, ProcessName(o, matches, st, name))
  {
  }

  lemma {:induction false} NamesExtend(o: Options, matches: string -> bool, st: State, names: seq<Name>)
    ensures Extends(st, ProcessNames(o, matches, st, names))
    decreases |names|
  {
    if names != [] {
      var mid := ProcessNames(o, matches, st, names[..|names| - 1]);
      NamesExtend(o, matches, st, names[..|names| - 1]);
      NameExtends(o, matches, mid, names[|names| - 1]);
      ExtendsTransitive(st, mid, ProcessNames(o, matches, st, names));
    }
  }

  lemma ArgExtends(o: Options, matches: string -> bool, st: State, arg: Arg)
    ensures Extends(st, ProcessArg(o, matches, st, arg))
  {
    var st1 := if arg.BadPattern? then Report(st, GlobFailed(arg.arg)) else st;
    var names := NamesOf(arg);
    var st2 := st1.(printPath := st1.printPath || |names| > 1);
    assert Extends(st, st2);
    NamesExtend(o, matches, st2, names);
    ExtendsTransitive(st, st2, ProcessArg(o, matches, st, arg));
  }

  /** The run-state only grows across arguments: once reported, an error
      stays reported, so the exit code never returns to 0, and printPath
      is a one-way switch. */
  lemma {:induction false} ArgsExtend(o: Options, matches: string -> bool, st: State, args: seq<Arg>)
    ensures Extends(st, ProcessArgs(o, matches, st, args))
    decreases |args|
  {
    if args != [] {
      var mid := ProcessArgs(o, matches, st, args[..|args| - 1]);
      ArgsExtend(o, matches, st, args[..|args| - 1]);
      ArgExtends(o, matches, mid, args[|args| - 1]);
      ExtendsTransitive(st, mid, ProcessArgs(o, matches, st, args));
    }
  }

  /** A name that stat resolves to a directory. */
  predicate IsDirName(name: Name) {
    name.Statted? && name.node.Dir?
  }

  /** An argument that turns printPath on: it expands to more than one name,
      or one of its names is a directory. */
  predicate Widens(arg: Arg) {
    |NamesOf(arg)| > 1 || exists j | 0 <= j < |NamesOf(arg)| :: IsDirName(NamesOf(arg)[j])
  }

  lemma {:induction false} NamesPrintPath(o: Options, matches: string -> bool, st: State, names: seq<Name>)
    ensures ProcessNames(o, matches, st, names).printPath
        <==> st.printPath || exists j | 0 <= j < |names| :: IsDirName(names[j])
    decreases |names|
  {
    if names != [] {
      var k := |names| - 1;
      NamesPrintPath(o, matches, st, names[..k]);
      if exists j | 0 <= j < k :: IsDirName(names[..k][j]) {
        var j :| 0 <= j < k && IsDirName(names[..k][j]);
        assert names[j] == names[..k][j];
      }
      if exists j | 0 <= j < |names| :: IsDirName(names[j]) {
        var j :| 0 <= j < |names| && IsDirName(names[j]);
        if j < k {
          assert names[..k][j] == names[j];
        }
      }
    }
  }

  /** One argument turns printPath on exactly when it widens. */
  lemma ArgPrintPath(o: Options, matches: string -> bool, st: State, arg: Arg)
    ensures ProcessArg(o, matches, st, arg).printPath <==> st.printPath || Widens(arg)
  {
    var st1 := if arg.BadPattern? then Report(st, GlobFailed(arg.arg)) else st;
    var names := NamesOf(arg);
    NamesPrintPath(o, matches, st1.(printPath := st1.printPath || |names| > 1), names);
  }

  lemma WidensSplit(init: seq<Arg>, last: Arg)
    ensures var args := init + [last];
            (exists i | 0 <= i < |args| :: Widens(args[i]))
            <==> (exists i | 0 <= i < |init| :: Widens(init[i])) || Widens(last)
  {
    var args := init + [last];
    if exists i | 0 <= i < |init| :: Widens(init[i]) {
      var i :| 0 <= i < |init| && Widens(init[i]);
      assert args[i] == init[i];
    }
    assert args[|init|] == last;
  }

  /** printPath ends true exactly when it started true or some argument
      expanded to several names or named a directory. */
  lemma {:induction false} ArgsPrintPath(o: Options, matches: string -> bool, st: State, args: seq<Arg>)
    ensures ProcessArgs(o, matches, st, args).printPath
        <==> st.printPath || exists i | 0 <= i < |args| :: Widens(args[i])
    decreases |args|
  {
    if args != [] {
      var k := |args| - 1;
      ArgsPrintPath(o, matches, st, args[..k]);
      ArgPrintPath(o, matches, ProcessArgs(o, matches, st, args[..k]), args[k]);
      WidensSplit(args[..k], args[k]);
      assert args[..k] + [args[k]] == args;
    }
  }

  // ---------------------------------------------------------------------
  // Errors are isolated

  /** Two states that agree on everything but the reported errors. */
  predicate SameButErrors(a: State, b: State) {
    a.output == b.output && a.printPath == b.printPath
  }

  /** The errors reported so far never change what later names print. */
  lemma {:induction false} NamesIgnoreErrors(o: Options, matches: string -> bool, a: State, b: State, names: seq<Name>)
    requires SameButErrors(a, b)
    ensures SameButErrors(ProcessNames(o, matches, a, names), ProcessNames(o, matches, b, names))
    decreases |names|
  {
    if names != [] {
      NamesIgnoreErrors(o, matches, a, b, names[..|names| - 1]);
    }
  }

  /** Errors on earlier arguments never change what later arguments print or
      whether the file name is shown: the run goes on after every error. */
  lemma {:induction false} ArgsIgnoreErrors(o: Options, matches: string -> bool, a: State, b: State, args: seq<Arg>)
    requires SameButErrors(a, b)
    ensures SameButErrors(ProcessArgs(o, matches, a, args), ProcessArgs(o, matches, b, args))
    decreases |args|
  {
    if args != [] {
      var k := |args| - 1;
      ArgsIgnoreErrors(o, matches, a, b, args[..k]);
      var ma, mb := ProcessArgs(o, matches, a, args[..k]), ProcessArgs(o, matches, b, args[..k]);
      var arg := args[k];
      var a1 := if arg.BadPattern? then Report(ma, GlobFailed(arg.arg)) else ma;
      var b1 := if arg.BadPattern? then Report(mb, GlobFailed(arg.arg)) else mb;
      var names := NamesOf(arg);
      NamesIgnoreErrors(o, matches, a1.(printPath := a1.printPath || |names| > 1),
                                    b1.(printPath := b1.printPath || |names| > 1), names);
    }
  }

  /** Once an argument has reported an error, the run exits with status 2
      whatever the later arguments do. */
  lemma ErrorStatusSticks(o: Options, matches: string -> bool, a: seq<Arg>, b: seq<Arg>)
    requires !o.help
    requires ProcessArgs(o, matches, Start(|a + b| + 1 > 2), a).reported != []
    ensures RunOutcome(o, Compiled(matches), a + b, Input([], false)).status == 2
  {
    var st0 := Start(|a + b| + 1 > 2);
    ProcessArgsAppend(o, matches, st0, a, b);
    ArgsExtend(o, matches, ProcessArgs(o, matches, st0, a), b);
  }

  /** The exit status is 0 or 2; with path arguments it is 2 exactly when
      some error was reported, and with standard input alone it is 0 even
      if the scanner failed. */
  lemma ExitStatus(o: Options, pattern: PatternArg, paths: seq<Arg>, stdin: Input)
    ensures var r := RunOutcome(o, pattern, paths, stdin);
            && (r.status == 0 || r.status == 2)
            && (!o.help && pattern.Compiled? && paths != [] ==>
                  (r.status == 2 <==> ProcessArgs(o, pattern.matches, Start(|paths| + 1 > 2), paths).reported != []))
            && (!o.help && pattern.Compiled? && paths == [] ==> r.status == 0)
            && (!o.help && !pattern.Compiled? ==> r.status == 2)
  {
  }

  /** Reading standard input, a scan error is reported (unless -s) but the
      status stays 0, because main returns before consulting exitCode. */
  lemma StdinScanErrorExitsZero(o: Options, matches: string -> bool, stdin: Input)
    requires !o.help && stdin.scanError
    ensures RunOutcome(o, Compiled(matches), [], stdin).status == 0
    ensures RunOutcome(o, Compiled(matches), [], stdin).messages
         == (if o.noMessages then [] else [ScanFailed(StdinLabel)])
  {
  }

  /** The label of standard input already ends in ':', so with -H its records
      start with "(standard input)::". */
  lemma StdinLabelWithH(o: Options, matches: string -> bool, stdin: Input)
    requires !o.help && o.withFilename && !o.noFilename
    ensures var out := RunOutcome(o, Compiled(matches), [], stdin).output;
            forall j | 0 <= j < |out| :: "(standard input)::" <= out[j]
  {
    var sel := Selection(matches, o.invert, stdin.lines);
    assert RunOutcome(o, Compiled(matches), [], stdin).output == Records(o, false, StdinLabel, sel);
    LabelledRecords(o, sel);
  }

  lemma LabelledRecords(o: Options, sel: seq<Numbered>)
    requires o.withFilename && !o.noFilename
    ensures var out := Records(o, false, StdinLabel, sel);
            forall j | 0 <= j < |out| :: "(standard input)::" <= out[j]
  {
    var out := Records(o, false, StdinLabel, sel);
    forall j | 0 <= j < |out| ensures "(standard input)::" <= out[j] {
      LabelledRecord(o, sel[j].num, sel[j].text);
    }
  }

  lemma LabelledRecord(o: Options, num: nat, line: string)
    requires o.withFilename && !o.noFilename
    ensures "(standard input)::" <= Record(o, false, StdinLabel, num, line)
  {
    var r := Record(o, false, StdinLabel, num, line);
    assert r == StdinLabel + ":" + (NumberField(o, num) + line + "\n");
    assert r[..18] == "(standard input)::";
  }

  // ---------------------------------------------------------------------
  // -s hides messages and nothing else

  /** Two flag sets that differ at most in -s. */
  predicate SameSearchFlags(o1: Options, o2: Options) {
    && o1.withFilename == o2.withFilename && o1.noFilename == o2.noFilename
    && o1.help == o2.help && o1.lineNumber == o2.lineNumber
    && o1.recursive == o2.recursive && o1.invert == o2.invert
  }

  lemma {:induction false} RecordsIgnoreS(o1: Options, o2: Options, printPath: bool, path: string, sel: seq<Numbered>)
    requires SameSearchFlags(o1, o2)
    ensures Records(o1, printPath, path, sel) == Records(o2, printPath, path, sel)
    decreases |sel|
  {
    if sel != [] {
      RecordsIgnoreS(o1, o2, printPath, path, sel[..|sel| - 1]);
    }
  }

  lemma FileIgnoresS(o1: Options, o2: Options, printPath: bool, matches: string -> bool, path: string, src: Source)
    requires SameSearchFlags(o1, o2)
    ensures FileOutcome(o1, printPath, matches, path, src) == FileOutcome(o2, printPath, matches, path, src)
  {
    if src.Readable? {
      RecordsIgnoreS(o1, o2, printPath, path, Selection(matches, o1.invert, src.input.lines));
    }
  }

  lemma {:induction false} WalkIgnoresS(o1: Options, o2: Options, printPath: bool, matches: string -> bool, node: Node)
    requires SameSearchFlags(o1, o2)
    ensures WalkOutcome(o1, printPath, matches, node) == WalkOutcome(o2, printPath, matches, node)
    decreases node
  {
    match node
    case File(path, src) => FileIgnoresS(o1, o2, printPath, matches, path, src);
    case Dir(_, _, children) => EntriesIgnoreS(o1, o2, printPath, matches, children);
  }

  lemma {:induction false} EntriesIgnoreS(o1: Options, o2: Options, printPath: bool, matches: string -> bool, nodes: seq<Node>)
    requires SameSearchFlags(o1, o2)
    ensures EntriesOutcome(o1, printPath, matches, nodes) == EntriesOutcome(o2, printPath, matches, nodes)
    decreases nodes
  {
    if nodes != [] {
      EntriesIgnoreS(o1, o2, printPath, matches, nodes[..|nodes| - 1]);
      WalkIgnoresS(o1, o2, printPath, matches, nodes[|nodes| - 1]);
    }
  }

  lemma NameIgnoresS(o1: Options, o2: Options, matches: string -> bool, st: State, name: Name)
    requires SameSearchFlags(o1, o2)
    ensures ProcessName(o1, matches, st, name) == ProcessName(o2, matches, st, name)
  {
    if name.Statted? {
      if name.node.Dir? {
        WalkIgnoresS(o1, o2, true, matches, name.node);
      } else {
        FileIgnoresS(o1, o2, st.printPath, matches, name.node.path, name.node.source);
      }
    }
  }

  lemma {:induction false} NamesIgnoreS(o1: Options, o2: Options, matches: string -> bool, st: State, names: seq<Name>)
    requires SameSearchFlags(o1, o2)
    ensures ProcessNames(o1, matches, st, names) == ProcessNames(o2, matches, st, names)
    decreases |names|
  {
    if names != [] {
      var k := |names| - 1;
      NamesIgnoreS(o1, o2, matches, st, names[..k]);
      NameIgnoresS(o1, o2, matches, ProcessNames(o1, matches, st, names[..k]), names[k]);
    }
  }

  lemma {:induction false} ArgsIgnoreS(o1: Options, o2: Options, matches: string -> bool, st: State, args: seq<Arg>)
    requires SameSearchFlags(o1, o2)
    ensures ProcessArgs(o1, matches, st, args) == ProcessArgs(o2, matches, st, args)
    decreases |args|
  {
    if args != [] {
      var k := |args| - 1;
      ArgsIgnoreS(o1, o2, matches, st, args[..k]);
      var mid := ProcessArgs(o1, matches, st, args[..k]);
      var arg := args[k];
      var st1 := if arg.BadPattern? then Report(mid, GlobFailed(arg.arg)) else mid;
      var names := NamesOf(arg);
      NamesIgnoreS(o1, o2, matches, st1.(printPath := st1.printPath || |names| > 1), names);
    }
  }

  /** -s changes neither the exit status nor standard output; it only empties
      what reportError would have written to standard error. */
  lemma SuppressionKeepsStatus(o: Options, pattern: PatternArg, paths: seq<Arg>, stdin: Input)
    ensures var loud := RunOutcome(o.(noMessages := false), pattern, paths, stdin);
            var quiet := RunOutcome(o.(noMessages := true), pattern, paths, stdin);
            && quiet.status == loud.status
            && quiet.output == loud.output
            && forall j | 0 <= j < |quiet.messages| :: quiet.messages[j] == Usage || quiet.messages[j] == BadRegexp
  {
    var o1, o2 := o.(noMessages := false), o.(noMessages := true);
    if !o.help && pattern.Compiled? {
      assert RunOutcome(o2, pattern, paths, stdin).messages == [];
      if paths == [] {
        FileIgnoresS(o1, o2, false, pattern.matches, StdinLabel, Readable(stdin));
      } else {
        ArgsIgnoreS(o1, o2, pattern.matches, Start(|paths| + 1 > 2), paths);
      }
    }
  }
}
