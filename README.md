# gogrep, modelled in Dafny

gogrep is a small line-search tool: `gogrep [OPTION]... PATTERN [FILE]...`
prints every line of each input that matches (or, with `-v`, does not match)
a regular expression. `-H`/`-h` force the file name on or off, `-n` adds line
numbers, `-r` descends into directories, and `-s` hides error messages.
The model covers what `main.go` does with these, in four parts.

- **Record formatter** (`reportMatch`), module `Format`, file `record.dfy`.
  A record is an optional `path:` field, an optional `num:` field, the line,
  and a newline. The path field appears when `!h && (H || printPath)`; the
  number field appears with `-n`. Line numbers are written in decimal by
  `Numerals.Decimal` (`decimal.dfy`). There is also a parser for records.
  For a path without ':' it shows that the layout can be read back
  unambiguously; a path that contains ':' makes a record ambiguous, and for
  any path the layout is stated by `Format.PathShown`. The path field under
  the whole condition `!h && (H || printPath)`, and the number field under
  `-n`, are each proved to add their own field and nothing else.
- **Line filter** (`search`), modules `LineFilter` (`selection.dfy`) and
  `Run` (`run.dfy`). `Selection` is the pure specification: the selected
  lines with their 1-based numbers. `Run.Run.Search` is the scanning loop.
  It appends one record per selected line to the run's output, and then
  returns the scanner's error.
- **Run state** (`reportError`, `exitCode`, `options.printPath`), class
  `Run.Run`. Its fields are the output, the messages, the exit code and the
  printPath switch. A ghost list of every reported error ties the fields
  together.
  - The exit code is 2 exactly when some error was reported.
  - The messages are those errors, or nothing with `-s`.
- **Traversal driver** (`main`), module `Driver` (`driver.dfy`), plus the
  methods of `Run.Run` and `Run.Gogrep`. `Driver` holds the value-level
  specification: `FileOutcome`, `WalkOutcome`/`EntriesOutcome`,
  `ProcessName`, `ProcessArg`, `ProcessArgs` and `RunOutcome`. The methods
  mutate the run object and are proved to follow `Driver` step for step.
  `Gogrep` returns the exit status, the output records and the failures
  written to standard error, and its result is `RunOutcome`.
- **Properties** of whole runs are in `Properties` (`properties.dfy`):
  - walk order;
  - the behaviour without `-r`;
  - argument order;
  - the one-way printPath switch;
  - error isolation;
  - the exit status;
  - the effect of `-s`.

The environment is given as values (`types.dfy`):
- The regular expression is a predicate `string -> bool`. A pattern is
  missing, invalid, or compiled.
- Each file is unopenable, or readable with its lines and a flag for a
  scanner error after them.
- Each path argument is a failed glob, or its list of names. A name is
  either unstatable or resolves to a file or a directory tree.
- A directory tree lists its entries in walk order and says whether it can
  be listed.

Standard output is the sequence of records (stdout is their concatenation).
Standard error is the sequence of failures written to it; with `-s` it
holds only a usage or pattern error.

Without `-r` a directory argument yields no matches, not even from the
files directly inside it: the walk callback returns `SkipDir` for the root
itself (main.go:131-134); see `Properties.NonRecursiveSkipsDirectory`.

## Model

| member | source | states |
|---|---|---|
| Numerals.Decimal | main.go:54 | the decimal form of a line number is a non-empty string of digits with no leading zero |
| Numerals.ValueOfDecimal | main.go:54 | reading the decimal form back gives the number, so the number field names the line exactly |
| Numerals.DecimalInjective | main.go:54 | different line numbers print differently |
| Format.Record | main.go:49-57 | with neither a path nor a number field the record is the line followed by a newline |
| Format.ParseRecordRoundTrip | main.go:49-57 | for a path without ':' a record parses back into exactly the fields the flags ask for: the path iff `!h && (H \|\| printPath)`, the number iff `-n`, then the line |
| Format.NumberToggle | main.go:53-55 | `-n` inserts `num:` right before the line and changes nothing else in the record |
| Format.PathShown | main.go:50-52 | when `!h && (H \|\| printPath)` the record is `path:` in front of the record that shows no path, whatever the path contains; otherwise it is that record |
| Format.PathToggle | main.go:50-52 | without `-h` and `-H` the printPath switch alone adds `path:` in front of the same record |
| Format.HideWins | main.go:50-52 | with `-h` the record depends on neither `-H`, nor printPath, nor the path: it is the optional number field and the line |
| LineFilter.SelectedIsXor | main.go:74 | a line is selected iff its match result differs from `-v`: matching lines without `-v`, non-matching ones with it |
| LineFilter.Selection | main.go:70-76 | the selected lines with their 1-based numbers; its properties are `SelectedIsXor`, `SelectionSound`, `SelectionIncreasing`, `SelectionComplete`, `SelectionIsFilter` and `InvertPartitions` |
| LineFilter.SelectionSound | main.go:70-76 | every selected entry is selected by the predicate, and its number `k` lies in 1..number of lines with text equal to line `k` |
| LineFilter.SelectionIncreasing | main.go:70-76 | selected line numbers are strictly increasing, so input order is kept |
| LineFilter.SelectionComplete | main.go:71-76 | every selected input line appears in the selection with its 1-based number |
| LineFilter.SelectionIsFilter | main.go:71-77 | the selected texts are exactly the subsequence of input lines the predicate keeps (an independent front-recursive filter) |
| LineFilter.InvertPartitions | main.go:74 | the lines selected with and without `-v` together are exactly as many as the input lines |
| Driver.FileOutcome | main.go:59-66 | what `searchFile` prints and returns; `Run.Run.SearchFile` is proved to do it, and `Properties.WalkFollowsPreorder` builds on it |
| Driver.WalkOutcome | main.go:127-141 | what `filepath.Walk` with gogrep's callback prints and returns; `Run.Run.Walk` does it, and `Properties.WalkIsStopAtFirst`, `Properties.WalkFollowsPreorder` and `Properties.NonRecursiveSkipsDirectory` state its meaning |
| Driver.EntriesOutcome | main.go:127-141 | a directory's entries in order, stopping at the first error; `Run.Run.WalkEntries` does it, and `Driver.EntriesStopAtFailure`, `Properties.EntriesIsStopAtFirst` and `Properties.EntriesFollowPreorder` state its meaning |
| Driver.ProcessName | main.go:119-146 | one name of an expansion; `Run.Run.ProcessName` does it, and `Properties.NameExtends` and `Properties.WalkReportsOnce` state its meaning |
| Driver.ProcessNames | main.go:119-147 | the names of one expansion in order; properties in `Properties.NamesExtend`, `Properties.NamesPrintPath` and `Properties.NamesIgnoreErrors` |
| Driver.ProcessArg | main.go:114-147 | one path argument; `Run.Run.ProcessArg` does it, and `Properties.EmptyExpansionSkipped` and `Properties.ArgsPrintPath` state its meaning |
| Driver.ProcessArgs | main.go:112-148 | the path arguments in command-line order; properties in `Properties.ProcessArgsAppend`, `Properties.ArgsExtend`, `Properties.ArgsPrintPath`, `Properties.ArgsIgnoreErrors` and `Properties.ArgsIgnoreS` |
| Driver.RunOutcome | main.go:84-149 | the outcome of a whole run; `Run.Gogrep` is proved to produce it, and `Properties.ExitStatus`, `Properties.ErrorStatusSticks`, `Properties.StdinScanErrorExitsZero`, `Properties.StdinLabelWithH` and `Properties.SuppressionKeepsStatus` state its meaning |
| Driver.Records | main.go:74-75 | one record per selected line, in order, each formatted from that line's number and text |
| Driver.SearchRecordsStep | main.go:71-76 | scanning one more line appends that line's record exactly when the line is selected |
| Driver.EntriesStopAtFailure | main.go:127-130 | once an entry of a walk has failed, later entries change neither the output nor the error |
| Run.Run.constructor | main.go:33-35 | a run starts with no output, no messages, exit code 0 and printPath false |
| Run.Run.ReportError | main.go:37-47 | every reported error sets the exit code to 2 whatever `-s` says; the message is added unless `-s` |
| Run.Run.ReportMatch | main.go:49-57 | appends exactly the formatted record, using the current printPath |
| Run.Run.Search | main.go:68-79 | appends the records of the selected lines, numbered from 1, and returns the scan error if there is one |
| Run.Run.SearchFile | main.go:59-66 | a file that cannot be opened adds nothing and returns the open error; otherwise it is searched |
| Run.Run.Walk | main.go:127-141 | walking a node appends exactly `WalkOutcome`'s records and returns its error |
| Run.Run.WalkEntries | main.go:127-141 | the entries of a directory are walked in order and the walk stops at the first error (`EntriesOutcome`) |
| Run.Run.ProcessName | main.go:119-146 | a stat error is reported and the name skipped; a directory turns printPath on and is walked, with a walk error reported once; a file is searched and its error reported |
| Run.Run.ProcessNames | main.go:119-147 | the names of one argument are processed in order, each as `ProcessName` |
| Run.Run.ProcessArg | main.go:114-147 | a glob error is reported and yields no names; printPath is turned on when the glob gives more than one name |
| Run.Gogrep | main.go:84-149 | status, output and messages of a whole run are `RunOutcome`: help, missing or invalid pattern, standard input alone, or every path argument in order |
| Properties.WalkIsStopAtFirst | main.go:127-141 | a walk is exactly: act on the visited nodes in walk order (every file, every unlistable directory, the entries of a directory only with `-r`), printing each file in full as it is searched, and stop at the first error |
| Properties.EntriesIsStopAtFirst | main.go:127-141 | the same for the entries of a directory, one after the other |
| Properties.StopAtFirstAppend | main.go:127-138 | acting on `a + b` is acting on `a` and then, unless `a` failed, on `b` |
| Properties.FirstFailureStops | main.go:127-138 | when the visited node at `k` is the first to fail, the walk prints the records of every node up to and including it, in full, ends with its error, and searches nothing after it |
| Properties.NoFailurePrintsAll | main.go:127-138 | when no visited node fails, every one of them is printed in full and the walk ends without error |
| Properties.WalkFollowsPreorder | main.go:127-141 | a walk prints a prefix of what searching its files in pre-order prints; without an error it is all of it and no file failed |
| Properties.EntriesFollowPreorder | main.go:127-141 | the same for the entries of a directory, one after the other |
| Properties.NonRecursiveSkipsDirectory | main.go:131-135 | without `-r` a directory argument prints nothing, and reports only the error of listing it |
| Properties.WalkReportsOnce | main.go:125-142 | a directory name turns printPath on and appends exactly the walk's error, if any, to the earlier ones; when some file under it fails, exactly one error is added |
| Properties.EmptyExpansionSkipped | main.go:114-119 | an argument whose glob gives no names and no error changes nothing |
| Properties.ProcessArgsAppend | main.go:113-148 | processing arguments `a` then `b` is processing `a + b`, so output follows command-line order |
| Properties.NamesExtend | main.go:119-147 | processing names only appends output and errors and never turns printPath off |
| Properties.ArgsExtend | main.go:112-148 | across arguments output and errors only grow and printPath is a one-way switch |
| Properties.NamesPrintPath | main.go:125-126 | after a list of names printPath is on iff it was on before or one name is a directory |
| Properties.ArgPrintPath | main.go:114-126 | one argument turns printPath on iff it was on or the argument expands to several names or to a directory |
| Properties.ArgsPrintPath | main.go:112-126 | printPath ends on iff it started on or some argument expanded to several names or to a directory |
| Properties.NamesIgnoreErrors | main.go:119-147 | earlier errors do not change what later names print or the printPath switch |
| Properties.ArgsIgnoreErrors | main.go:113-148 | errors on earlier arguments do not change what later arguments print or the printPath switch |
| Properties.ErrorStatusSticks | main.go:113-149 | once some argument reported an error the run exits with 2, whatever later arguments do |
| Properties.ExitStatus | main.go:84-149 | the status is 0 or 2; with paths it is 2 iff an error was reported; with standard input alone it is 0; a missing or invalid pattern gives 2 |
| Properties.StdinScanErrorExitsZero | main.go:105-110 | a scan error on standard input is reported (unless `-s`) and the status is still 0 |
| Properties.StdinLabelWithH | main.go:106 | with `-H` every standard-input record starts with `(standard input)::`, since the label already ends in ':' |
| Properties.ArgsIgnoreS | main.go:37-47 | `-s` does not change what the path arguments print, which errors are reported, or printPath |
| Properties.SuppressionKeepsStatus | main.go:37-47 | `-s` changes neither the exit status nor the output; it leaves only the pattern errors on standard error |

## Left out

- Regular expression compilation and matching: the pattern is a given predicate, and a failed compile is the input `Invalid`.
- Line splitting by `bufio.Scanner`, its token-size limit and read errors: a stream is given as its lines plus a flag for an error after them.
- The internals of `filepath.Glob`, `os.Stat`, `os.OpenFile` and `filepath.Walk`: their results are given as the `Arg`, `Name`, `Source` and `Node` values.
- `filepath.Glob` gives no names and no error for a plain path that does not exist, so a missing file argument is skipped silently and leaves the status at 0 (`Properties.EmptyExpansionSkipped`). `Unstatable` stands only for names the glob returns that `os.Stat` cannot resolve, such as a dangling symbolic link; which names the glob returns is an input.
- Walk semantics: the model follows `filepath.Walk` as it is now. A directory's entries are listed before the callback sees it, so an unlistable directory reports an error even without `-r`.
- An entry that cannot be lstat'ed inside a walk is given as an unopenable file, since the callback returns that error in both cases.
- Symbolic links: the difference between `Stat` on a named path and `Lstat` inside a walk is not modelled.
- Flag parsing, the help and usage text and `flag.PrintDefaults`: the flags are given as `Options`, and help and usage become their exit status and message kind.
- The text of error messages and the `*os.PathError` type switch in `reportError`: a message is represented by the kind of failure and its path.
- `os.Exit` and `defer f.Close()`: the exit status is a result of `Gogrep`, and files have no handles in the model.
- Byte-level output: a record is a string, and the `int` line counter is unbounded, with no overflow.
- Format.Record: its own contract states only the bare-line case. The full layout is stated by `ParseRecordRoundTrip`, `NumberToggle`, `PathShown`, `PathToggle` and `HideWins`.
