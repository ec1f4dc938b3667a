/** The values gogrep works with: its flags, and abstract stand-ins for what the
    regular expression library, the line scanner and the file system deliver. */
module GrepTypes {

  datatype Option<T> = None | Some(value: T)

  /** The list holding the value of `o`, if any. */
  function ToSeq<T>(o: Option<T>): (s: seq<T>)
    ensures o.None? <==> s == []
    ensures o.Some? ==> s == [o.value]
  {
    match o
    case None => []
    case Some(v) => [v]
  }

  /** The command-line flags, fixed once they are parsed. */
  datatype Options = Options(
    withFilename: bool,  // -H: print the file name for each match
    noFilename: bool,    // -h: suppress the file name prefix
    help: bool,          // --help
    lineNumber: bool,    // -n: print the line number
    recursive: bool,     // -r: descend into directories
    noMessages: bool,    // -s: suppress error messages
    invert: bool)        // -v: select non-matching lines

  /** What a line scanner yields for one stream: the lines it read, and whether
      it stopped on a read error after them. */
  datatype Input = Input(lines: seq<string>, scanError: bool)

  /** A regular file: opening it either fails or gives a stream of lines. */
  datatype Source = Unopenable | Readable(input: Input)

  /** An entry as a directory walk meets it. A directory lists its children in
      walk order; `readable` is false when its listing cannot be read. */
  datatype Node =
    | File(path: string, source: Source)
    | Dir(path: string, readable: bool, children: seq<Node>)

  /** One name produced by glob expansion: stat fails on it, or it resolves. */
  datatype Name = Unstatable(name: string) | Statted(node: Node)

  /** One path argument after glob expansion. */
  datatype Arg = BadPattern(arg: string) | Expanded(names: seq<Name>)

  /** The first positional argument: absent, not a valid regular expression,
      or compiled into a matcher. */
  datatype PatternArg = Missing | Invalid | Compiled(matches: string -> bool)

  /** What goes to standard error (the message text itself is not modelled). */
  datatype Failure =
    | Usage                    // no PATTERN given
    | BadRegexp                // PATTERN does not compile
    | GlobFailed(arg: string)  // malformed glob pattern
    | StatFailed(name: string)
    | OpenFailed(path: string)
    | ScanFailed(path: string)
    | ReadDirFailed(path: string)
}
