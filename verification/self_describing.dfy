/** TAB files that describe themselves: a first line holding the record count,
    then that many lines of two or three numbers. `isRelabTabFile` recognises
    them and the TAB branch of the ingestion reads them when no label has been
    loaded for the file. */
module SelfDescribingTab {
  import opened Wrappers
  import opened Text
  import opened Numbers
  import opened Series

  /** The line pattern
        [-+]?\d+(?:\.\d+)?\s+[-+]?\d+(?:\.\d+)?(?:\s+[-+]?\d+(?:\.\d+)?)?
      on a trimmed line: two or three plain decimals separated by white space. */
  predicate IsDataLine(t: String) {
    var ts := Tokens(t, IsSpace);
    && (|ts| == 2 || |ts| == 3)
    && forall j :: 0 <= j < |ts| ==> IsPlainDecimal(ts[j])
  }

  /** The number of data lines at the front of `ls`. */
  function DataRun(ls: seq<String>): (n: nat)
    ensures n <= |ls|
    ensures forall i :: 0 <= i < n ==> IsDataLine(ls[i])
    ensures n < |ls| ==> !IsDataLine(ls[n])
  {
    if |ls| > 0 && IsDataLine(ls[0]) then 1 + DataRun(ls[1..]) else 0
  }

  /** The recognition rule: after trimming and dropping blank lines there are at
      least three lines, the first is a digit string, and the data lines that
      follow it directly are exactly as many as it says. */
  predicate SelfDescribing(text: String) {
    Recognised(NonBlank(MapTrim(SplitLines(text))))
  }

  lemma {:induction false} DataRunExact(ls: seq<String>, k: nat)
    requires k <= |ls|
    requires forall j :: 0 <= j < k ==> IsDataLine(ls[j])
    requires k == |ls| || !IsDataLine(ls[k])
    ensures DataRun(ls) == k
    decreases k
  {
    if k > 0 {
      DataRunExact(ls[1..], k - 1);
    }
  }

  /** `isRelabTabFile(text)` */
  method IsRelabTabFile(text: String) returns (r: bool)
    ensures r == SelfDescribing(text)
  {
    var ls := NonBlank(MapTrim(SplitLines(text)));
    if |ls| < 3 || !AllDigits(ls[0]) {
      return false;
    }
    var count := 0;
    var i := 1;
    while i < |ls|
      invariant 1 <= i <= |ls| && count == i - 1
      invariant forall j :: 1 <= j < i ==> IsDataLine(ls[j])
    {
      if IsDataLine(ls[i]) {
        count := count + 1;
      } else {
        break;
      }
      i := i + 1;
    }
    assert i == |ls| || !IsDataLine(ls[i]);
    DataRunExact(ls[1..], count);
    r := ParseInt(ls[0]) == Some(count);
  }

  /** One line of the inline reader: the first two numbers of a data line, read
      with `parseFloat`. Every data line yields a point. */
  function CountedLine(t: String): (r: Option<Point>)
    ensures r.Some? <==> IsDataLine(t)
  {
    if !IsDataLine(t) then None
    else
      var ts := Tokens(t, IsSpace);
      PlainDecimalParses(ts[0]);
      PlainDecimalParses(ts[1]);
      FloatPair(ts[0], ts[1])
  }

  function Min(a: int, b: int): int {
    if a <= b then a else b
  }

  /** The lines `lines[1..n]` visited by `for (i = 1; i <= n && i < lines.length; ++i)`
      with `n = parseInt(lines[0], 10)`; a NaN count visits none. */
  function CountedWindow(lines: seq<String>): (w: seq<String>)
    requires |lines| >= 1
    ensures |w| < |lines|
  {
    match ParseInt(lines[0])
    case None => []
    case Some(n) => if n < 1 then [] else lines[1..Min(n + 1, |lines|)]
  }

  /** The inline reader of the TAB branch as written: the count comes from the
      first line before blank lines are dropped, and blank lines inside the
      window use up the count. It reads at most `n` points, none when the first
      line is not a number. */
  function ReadCounted(text: String): (pts: seq<Point>)
    ensures var lines := MapTrim(SplitLines(text));
            match ParseInt(lines[0])
            case None => pts == []
            case Some(n) => |pts| <= (if n < 1 then 0 else n)
  {
    Collect(CountedWindow(MapTrim(SplitLines(text))), CountedLine)
  }

  /** The reader's loop over the trimmed lines, with the per-line reading
      `read` (`CountedLine` in the TAB branch). */
  method ReadCountedLines(lines: seq<String>, read: String -> Option<Point>) returns (pts: seq<Point>)
    requires |lines| >= 1
    ensures pts == Collect(CountedWindow(lines), read)
  {
    pts := [];
    var n := ParseInt(lines[0]);
    if n.None? {
      assert CountedWindow(lines) == [];
      return;
    }
    var i := 1;
    while i <= n.value && i < |lines|
      invariant 1 <= i <= |lines|
      invariant n.value >= 1 ==> i <= Min(n.value + 1, |lines|)
      invariant n.value < 1 ==> i == 1
      invariant pts == Collect(lines[1..i], read)
    {
      CollectOneMore(lines, i, read);
      var q := read(lines[i]);
      if q.Some? {
        pts := pts + [q.value];
      }
      i := i + 1;
    }
    if n.value >= 1 {
      WindowOf(lines, n.value);
      assert i == Min(n.value + 1, |lines|);
    } else {
      assert CountedWindow(lines) == [] && lines[1..i] == [];
    }
  }

  lemma CollectOneMore(lines: seq<String>, i: nat, read: String -> Option<Point>)
    requires 1 <= i < |lines|
    ensures Collect(lines[1..i + 1], read)
            == Collect(lines[1..i], read) + (if read(lines[i]).Some? then [read(lines[i]).value] else [])
  {
    CollectAppend(lines[1..i], [lines[i]], read);
    assert lines[1..i + 1] == lines[1..i] + [lines[i]];
    assert [lines[i]][1..] == [];
  }

  /** The reader with the evident intent: it reads the data lines the
      recogniser counted, taken from the lines left after blank ones are
      dropped. */
  function ReadCountedIntended(text: String): seq<Point> {
    var ls := NonBlank(MapTrim(SplitLines(text)));
    if |ls| == 0 then [] else Collect(CountedWindow(ls), CountedLine)
  }

  /** A recognised file yields exactly the declared number of points with the
      intended reader. */
  lemma IntendedReadsDeclaredCount(text: String)
    requires SelfDescribing(text)
    ensures var ls := NonBlank(MapTrim(SplitLines(text)));
            ParseInt(ls[0]) == Some(|ReadCountedIntended(text)| as int)
  {
    var ls := NonBlank(MapTrim(SplitLines(text)));
    RecognisedWindowCount(ls);
  }

  lemma RecognisedWindowCount(ls: seq<String>)
    requires Recognised(ls)
    ensures |Collect(CountedWindow(ls), CountedLine)| == DataRun(ls[1..])
  {
    var n := DataRun(ls[1..]);
    var w := CountedWindow(ls);
    if n < 1 {
      assert w == [];
    } else {
      assert w == ls[1..n + 1];
      forall j | 0 <= j < |w| ensures CountedLine(w[j]).Some? {
        assert w[j] == ls[1..][j];
      }
      CollectEvery(w, CountedLine);
    }
  }

  /** A well-formed data row of a self-describing file. */
  predicate IsDataRow(t: String) {
    TrimmedLine(t) && IsDataLine(t)
  }

  /** A line with no line break and no white space at its ends. */
  predicate Bare(t: String) {
    '\n' !in t && (|t| == 0 || (!IsSpace(t[0]) && !IsSpace(t[|t| - 1])))
  }

  predicate TrimmedLine(t: String) {
    t != [] && Bare(t)
  }

  lemma CountLine(c: nat)
    ensures ParseInt(FormatNat(c)) == Some(c as int)
  {
    FormatIntParses(c);
  }

  /** The trimmed lines of text written line by line from trimmed lines. */
  lemma TrimmedLinesOfJoin(lines: seq<String>)
    requires |lines| >= 1
    requires forall i :: 0 <= i < |lines| ==> Bare(lines[i])
    ensures MapTrim(SplitLines(Join(lines, '\n'))) == lines
  {
    BareLinesUnbroken(lines);
    SplitLinesJoin(lines);
    BareLinesTrimmed(lines);
  }

  lemma BareLinesUnbroken(lines: seq<String>)
    requires forall i :: 0 <= i < |lines| ==> Bare(lines[i])
    ensures forall i :: 0 <= i < |lines| ==> '\n' !in lines[i]
    ensures forall i :: 0 <= i < |lines| ==> |lines[i]| == 0 || lines[i][|lines[i]| - 1] != '\r'
  {
    forall i | 0 <= i < |lines|
      ensures '\n' !in lines[i] && (|lines[i]| == 0 || lines[i][|lines[i]| - 1] != '\r')
    {
      assert Bare(lines[i]);
      assert |lines[i]| == 0 || IsSpace(lines[i][|lines[i]| - 1]) == false;
    }
  }

  lemma BareLinesTrimmed(lines: seq<String>)
    requires forall i :: 0 <= i < |lines| ==> Bare(lines[i])
    ensures MapTrim(lines) == lines
  {
    forall i | 0 <= i < |lines| ensures Trim(lines[i]) == lines[i] {
      TrimOfTrimmed(lines[i]);
    }
  }

  lemma DataRowsRun(rows: seq<String>)
    requires forall i :: 0 <= i < |rows| ==> IsDataRow(rows[i])
    ensures DataRun(rows) == |rows|
  {
    DataRunExact(rows, |rows|);
  }

  /** The recognition rule applied to the lines left after trimming and
      dropping blank lines. */
  predicate Recognised(ls: seq<String>) {
    |ls| >= 3 && AllDigits(ls[0]) && ParseInt(ls[0]) == Some(DataRun(ls[1..]) as int)
  }

  lemma CountLineTrimmed(c: nat)
    ensures TrimmedLine(FormatNat(c))
  {
    var s := FormatNat(c);
    assert forall j :: 0 <= j < |s| ==> s[j] != '\n';
  }

  lemma {:induction false} TrimmedLinesKept(lines: seq<String>)
    requires |lines| >= 1
    requires forall i :: 0 <= i < |lines| ==> TrimmedLine(lines[i])
    ensures NonBlank(MapTrim(SplitLines(Join(lines, '\n')))) == lines
  {
    TrimmedLinesOfJoin(lines);
    NonBlankKeepsAll(lines);
  }

  lemma ConsTrimmed(head: String, rows: seq<String>)
    requires TrimmedLine(head)
    requires forall i :: 0 <= i < |rows| ==> TrimmedLine(rows[i])
    ensures forall i :: 0 <= i < |[head] + rows| ==> TrimmedLine(([head] + rows)[i])
  {
    var lines := [head] + rows;
    assert forall i :: 1 <= i < |lines| ==> lines[i] == rows[i - 1];
  }

  lemma HeadedLinesKept(head: String, rows: seq<String>)
    requires TrimmedLine(head)
    requires forall i :: 0 <= i < |rows| ==> TrimmedLine(rows[i])
    ensures NonBlank(MapTrim(SplitLines(Join([head] + rows, '\n')))) == [head] + rows
  {
    ConsTrimmed(head, rows);
    TrimmedLinesKept([head] + rows);
  }

  lemma CountedBodyLines(c: nat, rows: seq<String>)
    requires forall i :: 0 <= i < |rows| ==> TrimmedLine(rows[i])
    ensures NonBlank(MapTrim(SplitLines(Join([FormatNat(c)] + rows, '\n')))) == [FormatNat(c)] + rows
  {
    CountLineTrimmed(c);
    HeadedLinesKept(FormatNat(c), rows);
  }

  lemma RecognisedCount(c: nat, rows: seq<String>)
    requires |rows| >= 2
    requires forall i :: 0 <= i < |rows| ==> IsDataRow(rows[i])
    ensures Recognised([FormatNat(c)] + rows) <==> c == |rows|
  {
    var lines := [FormatNat(c)] + rows;
    CountLine(c);
    assert lines[1..] == rows;
    DataRowsRun(rows);
  }

  /** Recognition of a file written as its count line followed by its data rows:
      it is recognised exactly when the count is right. */
  lemma DetectsCountedBody(c: nat, rows: seq<String>)
    requires |rows| >= 2
    requires forall i :: 0 <= i < |rows| ==> IsDataRow(rows[i])
    ensures SelfDescribing(Join([FormatNat(c)] + rows, '\n')) <==> c == |rows|
  {
    CountedBodyLines(c, rows);
    RecognisedCount(c, rows);
  }

  lemma {:induction false} TrimmedLinesTrim(lines: seq<String>)
    requires |lines| >= 1
    requires forall i :: 0 <= i < |lines| ==> TrimmedLine(lines[i])
    ensures MapTrim(SplitLines(Join(lines, '\n'))) == lines
  {
    TrimmedLinesOfJoin(lines);
  }

  lemma HeadedLinesTrimmed(head: String, rows: seq<String>)
    requires TrimmedLine(head)
    requires forall i :: 0 <= i < |rows| ==> TrimmedLine(rows[i])
    ensures MapTrim(SplitLines(Join([head] + rows, '\n'))) == [head] + rows
  {
    ConsTrimmed(head, rows);
    TrimmedLinesTrim([head] + rows);
  }

  lemma WindowOfCounted(rows: seq<String>)
    requires |rows| >= 1
    ensures CountedWindow([FormatNat(|rows|)] + rows) == rows
  {
    CountLine(|rows|);
    WindowOf([FormatNat(|rows|)] + rows, |rows|);
    HeadShape(FormatNat(|rows|), rows);
  }

  lemma HeadShape(head: String, rows: seq<String>)
    ensures |[head] + rows| == |rows| + 1 && ([head] + rows)[1..|rows| + 1] == rows
  {
  }

  /** With no blank line in the file, the reader as written visits exactly the
      declared rows and reads them in order. */
  lemma CountedRowsRead(rows: seq<String>)
    requires |rows| >= 1
    requires forall i :: 0 <= i < |rows| ==> IsDataRow(rows[i])
    ensures ReadCounted(Join([FormatNat(|rows|)] + rows, '\n')) == Collect(rows, CountedLine)
  {
    CountLineTrimmed(|rows|);
    HeadedLinesTrimmed(FormatNat(|rows|), rows);
    WindowOfCounted(rows);
  }

  lemma GapBare(head: String, rows: seq<String>)
    requires TrimmedLine(head)
    requires forall i :: 0 <= i < |rows| ==> TrimmedLine(rows[i])
    ensures forall i :: 0 <= i < |[head, []] + rows| ==> Bare(([head, []] + rows)[i])
  {
    var lines := [head, []] + rows;
    assert forall i :: 2 <= i < |lines| ==> lines[i] == rows[i - 2];
  }

  lemma GapLines(head: String, rows: seq<String>)
    requires TrimmedLine(head)
    requires forall i :: 0 <= i < |rows| ==> TrimmedLine(rows[i])
    ensures MapTrim(SplitLines(Join([head, []] + rows, '\n'))) == [head, []] + rows
    ensures NonBlank([head, []] + rows) == [head] + rows
  {
    GapBare(head, rows);
    TrimmedLinesOfJoin([head, []] + rows);
    NonBlankDropsBlank(head, rows);
    NonBlankKeepsAll(rows);
  }

  lemma BlankAfterCountLines(rows: seq<String>)
    requires forall i :: 0 <= i < |rows| ==> TrimmedLine(rows[i])
    ensures var lines := [FormatNat(|rows|), []] + rows;
            && MapTrim(SplitLines(Join(lines, '\n'))) == lines
            && NonBlank(lines) == [FormatNat(|rows|)] + rows
  {
    CountLineTrimmed(|rows|);
    GapLines(FormatNat(|rows|), rows);
  }

  lemma WindowOf(lines: seq<String>, n: int)
    requires |lines| >= 1 && n >= 1 && ParseInt(lines[0]) == Some(n)
    ensures CountedWindow(lines) == lines[1..Min(n + 1, |lines|)]
  {
  }

  lemma GapShape(head: String, rows: seq<String>)
    requires |rows| >= 1
    ensures ([head, []] + rows)[1..|rows| + 1] == [[]] + rows[..|rows| - 1]
  {
  }

  lemma GapWindow(rows: seq<String>)
    requires |rows| >= 2
    ensures CountedWindow([FormatNat(|rows|), []] + rows) == [[]] + rows[..|rows| - 1]
  {
    CountLine(|rows|);
    WindowOf([FormatNat(|rows|), []] + rows, |rows|);
    GapShape(FormatNat(|rows|), rows);
  }

  lemma BlankThenRows(rows: seq<String>)
    requires forall i :: 0 <= i < |rows| ==> IsDataRow(rows[i])
    ensures |Collect([[]] + rows, CountedLine)| == |rows|
  {
    CollectAppend([[]], rows, CountedLine);
    assert !IsDataLine([]);
    CollectNothing([[]], CountedLine);
    CollectEvery(rows, CountedLine);
  }

  lemma ReadsAllButLast(rows: seq<String>)
    requires |rows| >= 2
    requires forall i :: 0 <= i < |rows| ==> IsDataRow(rows[i])
    ensures |Collect(CountedWindow([FormatNat(|rows|), []] + rows), CountedLine)| == |rows| - 1
  {
    GapWindow(rows);
    var pre := rows[..|rows| - 1];
    assert forall j :: 0 <= j < |pre| ==> pre[j] == rows[j];
    BlankThenRows(pre);
  }

  /** A blank line between the count and the data is skipped by the recogniser
      but uses up one unit of the count in the reader as written: the last
      declared row is lost, where the intended reader reads every row. */
  lemma BlankAfterCountLosesRow(rows: seq<String>)
    requires |rows| >= 2
    requires forall i :: 0 <= i < |rows| ==> IsDataRow(rows[i])
    ensures var text := Join([FormatNat(|rows|), []] + rows, '\n');
            && SelfDescribing(text)
            && |ReadCounted(text)| == |rows| - 1
            && |ReadCountedIntended(text)| == |rows|
  {
    var text := Join([FormatNat(|rows|), []] + rows, '\n');
    BlankAfterCountLines(rows);
    RecognisedCount(|rows|, rows);
    ReadsAllButLast(rows);
    IntendedReadsDeclaredCount(text);
    CountLine(|rows|);
  }
}
