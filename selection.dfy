/** The line filter of `search`: which scanned lines are reported, and under
    which 1-based line numbers. */
module LineFilter {

  /** A scanned line together with its 1-based position in the stream. */
  datatype Numbered = Numbered(num: nat, text: string)

  /** The test `!v == matches(line)` that decides whether a line is reported. */
  predicate Selected(matches: string -> bool, invert: bool, line: string) {
    !invert == matches(line)
  }

  /** Selection is the exclusive-or of the match result and -v, in all four cases. */
  lemma SelectedIsXor(matches: string -> bool, invert: bool, line: string)
    ensures Selected(matches, invert, line) <==> (matches(line) != invert)
    ensures !invert ==> (Selected(matches, invert, line) <==> matches(line))
    ensures invert ==> (Selected(matches, invert, line) <==> !matches(line))
  {
  }

  /** The lines `search` reports, in scan order, each with the value its line
      counter has when it is reported. */
  function Selection(matches: string -> bool, invert: bool, lines: seq<string>): seq<Numbered>
    decreases |lines|
  {
    if lines == [] then []
    else
      var k := |lines| - 1;
      Selection(matches, invert, lines[..k])
        + (if Selected(matches, invert, lines[k]) then [Numbered(k + 1, lines[k])] else [])
  }

  /** Every reported line carries the number of its position in the input, its
      own text, and passes the test. */
  lemma {:induction false} SelectionSound(matches: string -> bool, invert: bool, lines: seq<string>)
    ensures var sel := Selection(matches, invert, lines);
            |sel| <= |lines| &&
            forall j | 0 <= j < |sel| ::
              1 <= sel[j].num <= |lines| && lines[sel[j].num - 1] == sel[j].text
              && Selected(matches, invert, sel[j].text)
  {
    if lines != [] {
      var k := |lines| - 1;
      SelectionSound(matches, invert, lines[..k]);
    }
  }

  /** Reported line numbers are strictly increasing. */
  lemma {:induction false} SelectionIncreasing(matches: string -> bool, invert: bool, lines: seq<string>)
    ensures var sel := Selection(matches, invert, lines);
            forall i, j | 0 <= i < j < |sel| :: sel[i].num < sel[j].num
  {
    if lines != [] {
      var k := |lines| - 1;
      SelectionIncreasing(matches, invert, lines[..k]);
      SelectionSound(matches, invert, lines[..k]);
    }
  }

  /** Every line that passes the test is reported, under its own number. */
  lemma {:induction false} SelectionComplete(matches: string -> bool, invert: bool, lines: seq<string>, i: nat)
    requires i < |lines| && Selected(matches, invert, lines[i])
    ensures exists j :: 0 <= j < |Selection(matches, invert, lines)|
                        && Selection(matches, invert, lines)[j] == Numbered(i + 1, lines[i])
  {
    var k := |lines| - 1;
    var sel := Selection(matches, invert, lines);
    if i == k {
      assert sel[|sel| - 1] == Numbered(i + 1, lines[i]);
    } else {
      assert lines[..k][i] == lines[i];
      SelectionComplete(matches, invert, lines[..k], i);
      var pre := Selection(matches, invert, lines[..k]);
      var j :| 0 <= j < |pre| && pre[j] == Numbered(i + 1, lines[i]);
      var last := if Selected(matches, invert, lines[k]) then [Numbered(k + 1, lines[k])] else [];
      assert sel == pre + last;
      assert 0 <= j < |sel| && sel[j] == Numbered(i + 1, lines[i]);
    }
  }

  /** The texts of a selection, in order. */
  function Texts(sel: seq<Numbered>): (ts: seq<string>)
    ensures |ts| == |sel|
    ensures forall j | 0 <= j < |sel| :: ts[j] == sel[j].text
  {
    seq(|sel|, j requires 0 <= j < |sel| => sel[j].text)
  }

  /** The lines that pass the test, in input order: a reference definition
      written front to back, independently of the line counter. */
  function Filter(matches: string -> bool, invert: bool, lines: seq<string>): seq<string> {
    if lines == [] then []
    else (if Selected(matches, invert, lines[0]) then [lines[0]] else [])
         + Filter(matches, invert, lines[1..])
  }

  lemma {:induction false} FilterAppend(matches: string -> bool, invert: bool, a: seq<string>, b: seq<string>)
    ensures Filter(matches, invert, a + b) == Filter(matches, invert, a) + Filter(matches, invert, b)
  {
    if a != [] {
      assert (a + b)[1..] == a[1..] + b;
      FilterAppend(matches, invert, a[1..], b);
    } else {
      assert a + b == b;
    }
  }

  /** What `search` prints is exactly the filtered subsequence of its input. */
  lemma {:induction false} SelectionIsFilter(matches: string -> bool, invert: bool, lines: seq<string>)
    ensures Texts(Selection(matches, invert, lines)) == Filter(matches, invert, lines)
  {
    if lines != [] {
      var k := |lines| - 1;
      SelectionIsFilter(matches, invert, lines[..k]);
      FilterAppend(matches, invert, lines[..k], [lines[k]]);
      assert lines[..k] + [lines[k]] == lines;
      var pre := Selection(matches, invert, lines[..k]);
      var last := if Selected(matches, invert, lines[k]) then [Numbered(k + 1, lines[k])] else [];
      assert Texts(pre + last) == Texts(pre) + Texts(last);
    }
  }

  /** -v reports exactly the lines that plain matching leaves out: the two
      selections together account for every line once. */
  lemma {:induction false} InvertPartitions(matches: string -> bool, lines: seq<string>)
    ensures |Selection(matches, false, lines)| + |Selection(matches, true, lines)| == |lines|
  {
    if lines != [] {
      InvertPartitions(matches, lines[..|lines| - 1]);
    }
  }
}
