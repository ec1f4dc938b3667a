/** The output record that reportMatch writes for one selected line, and a
    parser that recovers its fields. */
module Format {
  import opened GrepTypes
  import opened Numerals

  /** Whether the record starts with the file name: -h wins over -H, and -H or
      the run's printPath switch turns it on. */
  predicate ShowsPath(o: Options, printPath: bool) {
    !o.noFilename && (o.withFilename || printPath)
  }

  function PathField(o: Options, printPath: bool, path: string): string {
    if ShowsPath(o, printPath) then path + ":" else ""
  }

  function NumberField(o: Options, num: nat): string {
    if o.lineNumber then Decimal(num) + ":" else ""
  }

  /** `[path ":"] [num ":"] line "\n"`. */
  function Record(o: Options, printPath: bool, path: string, num: nat, line: string): (r: string)
    ensures !ShowsPath(o, printPath) && !o.lineNumber ==> r == line + "\n"
  {
    PathField(o, printPath, path) + NumberField(o, num) + line + "\n"
  }

  /** What a record holds: the fields present, and the line. */
  datatype Fields = Fields(path: Option<string>, num: Option<nat>, line: string)

  /** The position of the first `c` in `s`, if any. */
  function IndexOf(s: string, c: char): (k: Option<nat>)
    ensures k.Some? ==> k.value < |s| && s[k.value] == c && c !in s[..k.value]
    ensures k.None? ==> c !in s
  {
    if s == [] then None
    else if s[0] == c then Some(0)
    else match IndexOf(s[1..], c)
      case None => None
      case Some(j) => Some(j + 1)
  }

  /** Splits the text before the first ':' from the text after it. */
  function SplitField(s: string): Option<(string, string)> {
    match IndexOf(s, ':')
    case None => None
    case Some(k) => Some((s[..k], s[k + 1..]))
  }

  /** Reads a record back, given which prefixes it carries. */
  function ParseRecord(r: string, withPath: bool, withNumber: bool): Option<Fields> {
    if r == [] || r[|r| - 1] != '\n' then None
    else
      var body := r[..|r| - 1];
      if !withPath then ParseNumbered(body, withNumber, None)
      else match SplitField(body)
        case None => None
        case Some((p, rest)) => ParseNumbered(rest, withNumber, Some(p))
  }

  function ParseNumbered(s: string, withNumber: bool, path: Option<string>): Option<Fields> {
    if !withNumber then Some(Fields(path, None, s))
    else match SplitField(s)
      case None => None
      case Some((digits, line)) =>
        if digits != [] && AllDigits(digits) then Some(Fields(path, Some(Value(digits)), line))
        else None
  }

  lemma {:induction false} IndexOfFirst(s: string, c: char, i: nat)
    requires i < |s| && s[i] == c
    requires forall j | 0 <= j < i :: s[j] != c
    ensures IndexOf(s, c) == Some(i)
  {
    if i > 0 {
      assert s[0] != c;
      IndexOfFirst(s[1..], c, i - 1);
    }
  }

  lemma SplitFieldAt(a: string, b: string)
    requires ':' !in a
    ensures SplitField(a + ":" + b) == Some((a, b))
  {
    var s := a + ":" + b;
    assert s[..|a|] == a && s[|a| + 1..] == b;
    IndexOfFirst(s, ':', |a|);
  }

  lemma ParseNumberedRoundTrip(o: Options, num: nat, line: string, path: Option<string>)
    ensures ParseNumbered(NumberField(o, num) + line, o.lineNumber, path)
         == Some(Fields(path, if o.lineNumber then Some(num) else None, line))
  {
    if !o.lineNumber {
      assert NumberField(o, num) + line == line;
    } else {
      var d := Decimal(num);
      assert ':' !in d by {
        forall i | 0 <= i < |d| ensures d[i] != ':' { assert IsDigit(d[i]); }
      }
      assert NumberField(o, num) + line == d + ":" + line;
      SplitFieldAt(d, line);
      ValueOfDecimal(num);
    }
  }

  /** A record written for a path without ':' parses back into exactly the
      fields the flags asked for. */
  lemma {:induction false} ParseRecordRoundTrip(o: Options, printPath: bool, path: string, num: nat, line: string)
    requires ':' !in path
    ensures ParseRecord(Record(o, printPath, path, num, line), ShowsPath(o, printPath), o.lineNumber)
         == Some(Fields(if ShowsPath(o, printPath) then Some(path) else None,
                        if o.lineNumber then Some(num) else None,
                        line))
  {
    var r := Record(o, printPath, path, num, line);
    var body := NumberField(o, num) + line;
    assert r != [] && r[|r| - 1] == '\n' && r[..|r| - 1] == PathField(o, printPath, path) + body by {
      assert r == (PathField(o, printPath, path) + body) + "\n";
    }
    if ShowsPath(o, printPath) {
      assert SplitField(r[..|r| - 1]) == Some((path, body)) by {
        assert PathField(o, printPath, path) + body == path + ":" + body;
        SplitFieldAt(path, body);
      }
      ParseNumberedRoundTrip(o, num, line, Some(path));
    } else {
      assert r[..|r| - 1] == body;
      ParseNumberedRoundTrip(o, num, line, None);
    }
  }

  /** Inserting `d` just before the last `|line| + 1` characters. */
  lemma InsertBeforeLine(p: string, d: string, line: string)
    ensures var off := p + line + "\n";
            p + d + line + "\n" == off[..|off| - |line| - 1] + d + off[|off| - |line| - 1..]
  {
    var off := p + line + "\n";
    assert off[..|p|] == p && off[|p|..] == line + "\n";
  }

  /** Adding -n inserts the number field between the path field and the line,
      and changes nothing else. */
  lemma NumberToggle(o: Options, printPath: bool, path: string, num: nat, line: string)
    ensures var off := Record(o.(lineNumber := false), printPath, path, num, line);
            var on := Record(o.(lineNumber := true), printPath, path, num, line);
            on == off[..|off| - |line| - 1] + (Decimal(num) + ":") + off[|off| - |line| - 1..]
  {
    var p := PathField(o, printPath, path);
    assert Record(o.(lineNumber := false), printPath, path, num, line) == p + line + "\n" by {
      assert PathField(o.(lineNumber := false), printPath, path) == p;
    }
    assert Record(o.(lineNumber := true), printPath, path, num, line) == p + (Decimal(num) + ":") + line + "\n" by {
      assert PathField(o.(lineNumber := true), printPath, path) == p;
    }
    InsertBeforeLine(p, Decimal(num) + ":", line);
  }

  /** Without -h and -H the printPath switch alone adds or removes the path
      field in front of the record. */
  lemma PathToggle(o: Options, path: string, num: nat, line: string)
    requires !o.noFilename && !o.withFilename
    ensures Record(o, true, path, num, line) == path + ":" + Record(o, false, path, num, line)
  {
  }

  /** The path field is there exactly when -h is off and -H or printPath is
      on; it is `path:` in front of the record that shows no path. */
  lemma PathShown(o: Options, printPath: bool, path: string, num: nat, line: string)
    ensures !o.noFilename && (o.withFilename || printPath) ==>
              Record(o, printPath, path, num, line) == path + ":" + Record(o.(withFilename := false), false, path, num, line)
    ensures !(!o.noFilename && (o.withFilename || printPath)) ==>
              Record(o, printPath, path, num, line) == Record(o.(withFilename := false), false, path, num, line)
  {
  }

  /** With -h the record depends neither on -H, nor on printPath, nor on the path. */
  lemma HideWins(o: Options, printPath: bool, path: string, num: nat, line: string)
    requires o.noFilename
    ensures Record(o, printPath, path, num, line) == Record(o.(withFilename := false), false, "", num, line)
    ensures Record(o, printPath, path, num, line) == NumberField(o, num) + line + "\n"
  {
  }
}
