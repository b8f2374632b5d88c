/** The per-file step of the ingestion: how one file that has been read becomes
    a trace, a RELAB label, or nothing. The branches are tried in the order of
    `parseAndAddFiles`: the instrument time/temperature log (recognised by its
    second line whatever the extension), then `.csv`, `.xml`, `.tab`, `.dpt`,
    `.asc`, and whitespace-separated text for every other extension. */
module Formats {
  import opened Wrappers
  import opened Text
  import opened Numbers
  import opened Series
  import opened RelabLabel
  import opened RelabTab
  import opened SelfDescribingTab
  import opened PropertyOrder

  /** An axis-label pair a branch proposes (an entry of `detectedHeaders`). */
  datatype Labels = Labels(xLabel: String, yLabel: String)

  const WavelengthLabels: Labels := Labels("Wavelength (\U{03BC}m)", "Reflectance")
  const TimeLabels: Labels := Labels("Time (s)", "Temperature (\U{00B0}C)")
  const DiffractionLabels: Labels := Labels("2\U{03B8} (\U{00B0})", "Intensity")

  /** A file once its text has been read. The CSV branch hands the text to
      Papa Parse, which this model does not describe: `firstCsvRow` is what it
      returns for the first non-empty line alone (absent when it returns no
      row) and `csvRows` the rows it returns for the whole text, empty lines
      skipped, each row a sequence of cell texts. In header mode the first row
      holds the header names, and the object Papa Parse builds from a later
      row is read through the column each name stands for (`HeaderColumns`). */
  datatype SourceFile = SourceFile(name: String, text: String,
                                   firstCsvRow: Option<seq<String>>, csvRows: seq<seq<String>>)

  /** What the branches read besides the file: whether the wavelength-reflectance
      preset is selected, whether the user declared the file's x unit to be nm,
      and the RELAB labels loaded before the batch started, keyed by lower-cased
      TAB file name. */
  datatype Settings = Settings(reflectancePreset: bool, unitNm: bool, labelStore: map<String, RelabMeta>)

  /** The result of one file. `Loaded` pushes a trace with `hint` as its entry of
      `detectedHeaders` (`None` for `null`); `setsLabels` is true for the
      branches that also set the axis labels at once when they are not locked. */
  datatype Outcome =
    | Ignored
    | Label(key: String, meta: RelabMeta)
    | Loaded(data: Series, hint: Option<Labels>, setsLabels: bool)

  /** `name.toLowerCase().split('.').pop()`: the text after the last dot, or the
      whole lower-cased name when there is none. */
  function Extension(name: String): (ext: String)
    ensures '.' !in ext
  {
    LastPiece(Lower(name), '.')
  }

  /** A name `stem.ext` whose `ext` holds no dot has the extension `ext`,
      lower-cased, whatever dots the stem holds. */
  lemma ExtensionOf(stem: String, ext: String)
    requires '.' !in ext
    ensures Extension(stem + "." + ext) == Lower(ext)
  {
    LowerAround(stem, ext);
    ExtensionAfterDot(stem + "." + ext, Lower(stem), Lower(ext));
  }

  lemma ExtensionAfterDot(name: String, front: String, back: String)
    requires Lower(name) == front + ['.'] + back && '.' !in back
    ensures Extension(name) == back
  {
    SplitLast(front, '.', back);
  }

  /** The index of the first element satisfying `p` (`findIndex`). */
  function FindFirst(xs: seq<String>, p: String -> bool): (r: Option<nat>)
    ensures r.Some? ==> r.value < |xs| && p(xs[r.value])
    ensures forall j :: 0 <= j < |xs| && (r.None? || j < r.value) ==> !p(xs[j])
  {
    if |xs| == 0 then None
    else if p(xs[0]) then Some(0)
    else match FindFirst(xs[1..], p)
      case None => None
      case Some(k) => Some(k + 1)
  }

  /** The time log's data filter: the lines that are not all white space, in
      their original order. */
  function Filled(lines: seq<String>): (r: seq<String>)
    ensures |r| <= |lines|
    ensures forall l :: l in r <==> l in lines && Trim(l) != []
  {
    if |lines| == 0 then []
    else
      assert forall l :: l in lines <==> l == lines[0] || l in lines[1..] by {
        assert lines == [lines[0]] + lines[1..];
      }
      (if Trim(lines[0]) == [] then [] else [lines[0]]) + Filled(lines[1..])
  }

  /** Filtering distributes over concatenation. With `FilledCons`, which keeps
      a line exactly when it is not blank, this fixes the result as the
      non-blank lines in their original order. */
  lemma {:induction false} FilledAppend(a: seq<String>, b: seq<String>)
    ensures Filled(a + b) == Filled(a) + Filled(b)
  {
    if |a| == 0 {
      assert a + b == b;
    } else {
      var t := a[1..];
      assert a + b == [a[0]] + (t + b);
      assert a == [a[0]] + t;
      FilledCons(a[0], t + b);
      FilledCons(a[0], t);
      FilledAppend(t, b);
      AppendAssoc(if Trim(a[0]) == [] then [] else [a[0]], Filled(t), Filled(b));
    }
  }

  lemma AppendAssoc<T>(x: seq<T>, y: seq<T>, z: seq<T>)
    ensures x + (y + z) == (x + y) + z
  {
  }

  lemma FilledCons(l: String, rest: seq<String>)
    ensures Filled([l] + rest) == (if Trim(l) == [] then [] else [l]) + Filled(rest)
  {
    assert ([l] + rest)[1..] == rest;
  }

  /** Lines none of which is blank are all kept. */
  lemma {:induction false} FilledKeepsAll(lines: seq<String>)
    requires forall i :: 0 <= i < |lines| ==> Trim(lines[i]) != []
    ensures Filled(lines) == lines
  {
    if |lines| > 0 {
      FilledKeepsAll(lines[1..]);
      assert lines == [lines[0]] + lines[1..];
    }
  }

  /** `x.map(v => v / 1000)` when the preset is wavelength-reflectance and the
      user declared nanometres. */
  function UnitScaled(s: Series, st: Settings): (r: Series)
    ensures r.y == s.y && |r.x| == |s.x|
    ensures st.reflectancePreset && st.unitNm ==> forall i :: 0 <= i < |s.x| ==> r.x[i] * 1000.0 == s.x[i]
    ensures !(st.reflectancePreset && st.unitNm) ==> r == s
  {
    if st.reflectancePreset && st.unitNm then DivideX(s, 1000.0) else s
  }

  // ---------------------------------------------------------------- time log

  const TimeLogMarker: String := "This document contains measurement data of the following devices:"

  /** The second line, trimmed, mentions the instrument's export banner. */
  predicate IsTimeLog(lines: seq<String>) {
    |lines| > 1 && Includes(Trim(lines[1]), TimeLogMarker)
  }

  predicate IsTimeHeader(l: String) {
    Includes(l, "No.") && Includes(l, "Date") && Includes(l, "Temperature")
  }

  predicate IsElapsedColumn(h: String) {
    Includes(h, "Sec.") && Includes(h, "00:00")
  }

  predicate IsTemperatureColumn(h: String) {
    h == "Temperature"
  }

  /** One data line of the log: tab-separated cells, trimmed, the two chosen
      columns converted with `Number`; a missing cell is `undefined`, which is
      not finite. */
  function TimeRow(xi: nat, yi: nat): String -> Option<Point> {
    (l: String) =>
      var cols := MapTrim(Split(l, '\t'));
      if xi < |cols| && yi < |cols| then NumberPair(cols[xi], cols[yi]) else None
  }

  /** The time/temperature branch: the header is the first line naming `No.`,
      `Date` and `Temperature`; data starts two lines below it; x is the elapsed
      seconds rebased to start at zero. `None` when the header line or one of
      the two columns is missing. */
  function TimeLog(lines: seq<String>): (r: Option<Series>)
    ensures r.Some? ==> Paired(r.value)
    ensures r.Some? && |r.value.x| > 0 ==> r.value.x[0] == 0.0
    ensures FindFirst(lines, IsTimeHeader).None? ==> r.None?
  {
    match FindFirst(lines, IsTimeHeader)
    case None => None
    case Some(h) =>
      var headers := MapTrim(Split(lines[h], '\t'));
      match (FindFirst(headers, IsElapsedColumn), FindFirst(headers, IsTemperatureColumn))
      case (Some(xi), Some(yi)) => Some(TimeSeries(lines, h, xi, yi))
      case _ => None
  }

  /** The samples of a log whose header is line `h`: the non-blank lines from
      two below the header on, the two columns read from each, and the elapsed
      times rebased to start at zero. */
  function TimeSeries(lines: seq<String>, h: nat, xi: nat, yi: nat): (s: Series)
    ensures Paired(s) && (|s.x| > 0 ==> s.x[0] == 0.0)
  {
    var data := Filled(if h + 2 <= |lines| then lines[h + 2..] else []);
    var raw := FromPoints(Collect(data, TimeRow(xi, yi)));
    Series(Rebase(raw.x), raw.y)
  }

  /** Data lines given as their tab-separated cells. */
  function TabJoined(cells: seq<seq<String>>): (rows: seq<String>)
    ensures |rows| == |cells|
  {
    seq(|cells|, k requires 0 <= k < |cells| => if |cells[k]| == 0 then [] else Join(cells[k], '\t'))
  }

  /** The cells of a log data line that holds the sample `p` as whole numbers
      in the elapsed-time column `xi` and the temperature column `yi`. */
  predicate SampleCells(cells: seq<String>, xi: nat, yi: nat, p: (nat, nat)) {
    && xi < |cells| && yi < |cells|
    && cells[xi] == FormatNat(p.0) && cells[yi] == FormatNat(p.1)
    && forall i :: 0 <= i < |cells| ==> '\t' !in cells[i]
  }

  lemma {:induction false} JoinHolds(parts: seq<String>, sep: char, i: nat, j: nat)
    requires i < |parts| && j < |parts[i]|
    ensures parts[i][j] in Join(parts, sep)
  {
    if i > 0 {
      JoinHolds(parts[1..], sep, i - 1, j);
    }
  }

  /** A data line holding a sample is not blank, and reads as that sample. */
  lemma TimeCellsRead(cells: seq<String>, xi: nat, yi: nat, p: (nat, nat))
    requires SampleCells(cells, xi, yi, p)
    ensures Trim(Join(cells, '\t')) != []
    ensures TimeRow(xi, yi)(Join(cells, '\t')) == Some((p.0 as real, p.1 as real))
  {
    JoinNotBlank(cells, xi);
    TimeLineColumns(cells, xi, yi, p);
    FormatNatParses(p.0);
    FormatNatParses(p.1);
  }

  lemma JoinNotBlank(cells: seq<String>, i: nat)
    requires i < |cells| && |cells[i]| > 0 && !IsSpace(cells[i][0])
    ensures Trim(Join(cells, '\t')) != []
  {
    var row := Join(cells, '\t');
    JoinHolds(cells, '\t', i, 0);
    var j :| 0 <= j < |row| && row[j] == cells[i][0];
    assert !AllSpace(row);
    TrimEmpty(row);
  }

  lemma TimeLineColumns(cells: seq<String>, xi: nat, yi: nat, p: (nat, nat))
    requires SampleCells(cells, xi, yi, p)
    ensures var cols := MapTrim(Split(Join(cells, '\t'), '\t'));
            xi < |cols| && yi < |cols| && cols[xi] == FormatNat(p.0) && cols[yi] == FormatNat(p.1)
  {
    SplitJoin(cells, '\t');
    DigitsTrimmed(cells[xi]);
    DigitsTrimmed(cells[yi]);
  }

  lemma TimeRowsRead(cells: seq<seq<String>>, xi: nat, yi: nat, samples: seq<(nat, nat)>)
    requires |cells| == |samples|
    requires forall k :: 0 <= k < |cells| ==> SampleCells(cells[k], xi, yi, samples[k])
    ensures var rows := TabJoined(cells);
            forall k :: 0 <= k < |rows| ==>
              Trim(rows[k]) != [] && TimeRow(xi, yi)(rows[k]) == Some(AsReals(samples)[k])
  {
    var rows := TabJoined(cells);
    forall k | 0 <= k < |rows|
      ensures Trim(rows[k]) != [] && TimeRow(xi, yi)(rows[k]) == Some(AsReals(samples)[k])
    {
      TimeCellsRead(cells[k], xi, yi, samples[k]);
    }
  }

  lemma {:induction false} FindFirstAfter(pre: seq<String>, x: String, rest: seq<String>, p: String -> bool)
    requires forall i :: 0 <= i < |pre| ==> !p(pre[i])
    requires p(x)
    ensures FindFirst(pre + [x] + rest, p) == Some(|pre|)
  {
    var xs := pre + [x] + rest;
    if |pre| == 0 {
      assert xs[0] == x;
    } else {
      assert xs[0] == pre[0];
      assert xs[1..] == pre[1..] + [x] + rest;
      FindFirstAfter(pre[1..], x, rest, p);
    }
  }

  /** Round trip: a log whose header line puts elapsed seconds in column `xi`
      and temperature in column `yi`, followed by one skipped line and then one
      data line per sample, yields the samples in order, the elapsed times
      rebased so that the first one is 0. Lines before the header are free as
      long as none of them looks like a header. */
  lemma TimeLogRoundTrip(pre: seq<String>, header: String, skipped: String,
                         xi: nat, yi: nat, cells: seq<seq<String>>, samples: seq<(nat, nat)>)
    requires forall i :: 0 <= i < |pre| ==> !IsTimeHeader(pre[i])
    requires IsTimeHeader(header)
    requires FindFirst(MapTrim(Split(header, '\t')), IsElapsedColumn) == Some(xi)
    requires FindFirst(MapTrim(Split(header, '\t')), IsTemperatureColumn) == Some(yi)
    requires |cells| == |samples|
    requires forall k :: 0 <= k < |cells| ==> SampleCells(cells[k], xi, yi, samples[k])
    ensures var raw := FromPoints(AsReals(samples));
            TimeLog(pre + [header, skipped] + TabJoined(cells)) == Some(Series(Rebase(raw.x), raw.y))
  {
    var rows := TabJoined(cells);
    var lines := pre + [header, skipped] + rows;
    LogShape(pre, header, skipped, rows);
    FindFirstAfter(pre, header, [skipped] + rows, IsTimeHeader);
    TimeRowsRead(cells, xi, yi, samples);
    FilledKeepsAll(rows);
    CollectExact(rows, TimeRow(xi, yi), AsReals(samples));
    TimeLogAt(lines, |pre|, xi, yi);
  }

  lemma LogShape(pre: seq<String>, header: String, skipped: String, rows: seq<String>)
    ensures var lines := pre + [header, skipped] + rows;
            && lines == pre + [header] + ([skipped] + rows)
            && lines[|pre|] == header && |pre| + 2 <= |lines| && lines[|pre| + 2..] == rows
  {
  }

  /** The log read from its header line `h`, once both columns are found. */
  lemma TimeLogAt(lines: seq<String>, h: nat, xi: nat, yi: nat)
    requires FindFirst(lines, IsTimeHeader) == Some(h)
    requires FindFirst(MapTrim(Split(lines[h], '\t')), IsElapsedColumn) == Some(xi)
    requires FindFirst(MapTrim(Split(lines[h], '\t')), IsTemperatureColumn) == Some(yi)
    ensures TimeLog(lines) == Some(TimeSeries(lines, h, xi, yi))
  {
    var headers := MapTrim(Split(lines[h], '\t'));
    assert (FindFirst(headers, IsElapsedColumn), FindFirst(headers, IsTemperatureColumn)) == (Some(xi), Some(yi));
  }

  // ---------------------------------------------------------------- CSV

  /** The header sniff: the first row has at least two cells and one of the
      first two is not a finite number. */
  predicate CsvHasHeader(first: Option<seq<String>>) {
    && first.Some? && |first.value| >= 2
    && (ParseNumber(first.value[0]).None? || ParseNumber(first.value[1]).None?)
  }

  /** The columns header mode reads. Papa Parse stores each cell of the first
      data row under the header name of its column (the names past the row's
      last cell are not assigned), and `Object.keys` lists those names in
      property order: x is read under the first key, y under the second, or
      under the first when the second is the empty name. */
  function HeaderColumns(header: seq<String>, first: seq<String>): (r: Option<(nat, nat)>)
    ensures r.Some? <==> |header| > 0 && |first| > 0
    ensures r.Some? ==> r.value.0 < Min(|header|, |first|) && r.value.1 < Min(|header|, |first|)
    ensures r.Some? ==> var names := header[..Min(|header|, |first|)];
              forall q :: 0 <= q < |names| && q != r.value.0 ==> ListedBefore(names, r.value.0, q)
    ensures r.Some? && r.value.1 != r.value.0 ==> var names := header[..Min(|header|, |first|)];
              && names[r.value.1] != []
              && forall q :: 0 <= q < |names| && q != r.value.0 && q != r.value.1 ==> ListedBefore(names, r.value.1, q)
    ensures r.Some? && r.value.1 == r.value.0 ==> var names := header[..Min(|header|, |first|)];
              |names| == 1 || exists p: nat :: SecondListed(names, r.value.0, p) && names[p] == []
  {
    var names := header[..Min(|header|, |first|)];
    var keys := KeyColumns(names);
    if |keys| == 0 then None
    else
      KeysAfterFirst(names, keys);
      Some((keys[0], if |keys| >= 2 && names[keys[1]] != [] then keys[1] else keys[0]))
  }

  /** Position `p` is the one `Object.keys` lists right after position `x`,
      which it lists first. */
  predicate SecondListed(names: seq<String>, x: nat, p: nat) {
    && x < |names| && p < |names| && p != x
    && forall q :: 0 <= q < |names| && q != x && q != p ==> ListedBefore(names, p, q)
  }

  /** The first listed position precedes every other, and the second every
      other but the first. */
  lemma KeysAfterFirst(names: seq<String>, keys: seq<nat>)
    requires keys == KeyColumns(names) && |keys| > 0
    ensures forall q :: 0 <= q < |names| && q != keys[0] ==> ListedBefore(names, keys[0], q)
    ensures |keys| >= 2 ==> keys[1] != keys[0] && SecondListed(names, keys[0], keys[1])
  {
    forall q | 0 <= q < |names| && q != keys[0] ensures ListedBefore(names, keys[0], q) {
      assert q in keys;
      var j :| 0 <= j < |keys| && keys[j] == q;
    }
    if |keys| >= 2 {
      assert keys[1] != keys[0] by { assert ListedBefore(names, keys[0], keys[1]); }
      forall q | 0 <= q < |names| && q != keys[0] && q != keys[1] ensures ListedBefore(names, keys[1], q) {
        assert q in keys;
        var j :| 0 <= j < |keys| && keys[j] == q;
      }
    }
  }

  /** A row in header mode: the values in columns `xc` and `yc`; a missing cell
      is `undefined`, which is not finite. */
  function HeaderRow(xc: nat, yc: nat): seq<String> -> Option<Point> {
    (row: seq<String>) => if xc < |row| && yc < |row| then NumberPair(row[xc], row[yc]) else None
  }

  /** A cell that begins with a letter is not a finite number for `Number`. */
  lemma LetterCellIsNotNumber(c: String)
    requires |c| > 0 && IsAsciiLetter(c[0])
    ensures ParseNumber(c).None?
  {
    var t := Trim(c);
    assert LeadingSpaces(c) == 0;
    assert |t| > 0 && t[0] == c[0];
    assert SignLength(t) == 0;
    assert t[0..] == t;
    assert RunLength(t, IsDigit) == 0;
  }

  /** The sniff, one direction: a first row whose leading cell is a word is a
      header. */
  lemma WordRowIsHeader(name: String, rest: seq<String>)
    requires |name| > 0 && IsAsciiLetter(name[0]) && |rest| >= 1
    ensures CsvHasHeader(Some([name] + rest))
  {
    assert ([name] + rest)[0] == name;
    LetterCellIsNotNumber(name);
  }

  /** The other direction: a first row of two whole numbers is data. */
  lemma NumberRowIsData(a: nat, b: nat, more: seq<String>)
    ensures !CsvHasHeader(Some([FormatNat(a), FormatNat(b)] + more))
  {
    var row := [FormatNat(a), FormatNat(b)] + more;
    assert row[0] == FormatNat(a) && row[1] == FormatNat(b);
    FormatNatParses(a);
    FormatNatParses(b);
  }

  /** A row without a header: rows with fewer than two cells are skipped. */
  function PlainRow(row: seq<String>): Option<Point> {
    if |row| < 2 then None else NumberPair(row[0], row[1])
  }

  /** The CSV branch. */
  function Csv(f: SourceFile, lines: seq<String>, st: Settings): (r: Outcome)
    ensures NonBlank(lines) == [] <==> r.Ignored?
    ensures r.Ignored? || (r.Loaded? && !r.setsLabels)
    ensures r.Loaded? && r.hint.Some? ==> CsvHasHeader(f.firstCsvRow) && |f.csvRows| > 1
  {
    if NonBlank(lines) == [] then Ignored
    else if CsvHasHeader(f.firstCsvRow) && |f.csvRows| > 1 then
      var pts := match HeaderColumns(f.csvRows[0], f.csvRows[1])
                 case Some((xc, yc)) => Collect(f.csvRows[1..], HeaderRow(xc, yc))
                 case None => [];
      var first := f.firstCsvRow.value;
      Loaded(UnitScaled(FromPoints(pts), st), Some(Labels(Trim(first[0]), Trim(first[1]))), false)
    else if CsvHasHeader(f.firstCsvRow) then
      Loaded(UnitScaled(Series([], []), st), None, false)
    else
      Loaded(UnitScaled(FromPoints(Collect(f.csvRows, PlainRow)), st), None, false)
  }

  /** Rows of two whole-number cells, one per point. */
  function NumberRows(pts: seq<(nat, nat)>): (rows: seq<seq<String>>)
    ensures |rows| == |pts|
  {
    seq(|pts|, k requires 0 <= k < |pts| => [FormatNat(pts[k].0), FormatNat(pts[k].1)])
  }

  lemma NumberRowsRead(pts: seq<(nat, nat)>)
    ensures var rows := NumberRows(pts);
            forall k :: 0 <= k < |rows| ==> PlainRow(rows[k]) == Some(AsReals(pts)[k])
  {
    var rows := NumberRows(pts);
    forall k | 0 <= k < |rows|
      ensures PlainRow(rows[k]) == Some(AsReals(pts)[k])
    {
      FormatNatParses(pts[k].0);
      FormatNatParses(pts[k].1);
    }
  }

  /** The point a two-cell row gives when x is read from column `xc` and y
      from column `yc`. */
  function Pick(p: Point, xc: nat, yc: nat): (q: Point)
    requires xc < 2 && yc < 2
    ensures q.0 == (if xc == 0 then p.0 else p.1) && q.1 == (if yc == 0 then p.0 else p.1)
  {
    (if xc == 0 then p.0 else p.1, if yc == 0 then p.0 else p.1)
  }

  function PickAll(pts: seq<Point>, xc: nat, yc: nat): (r: seq<Point>)
    requires xc < 2 && yc < 2
    ensures |r| == |pts| && forall k :: 0 <= k < |pts| ==> r[k] == Pick(pts[k], xc, yc)
  {
    seq(|pts|, k requires 0 <= k < |pts| => Pick(pts[k], xc, yc))
  }

  lemma NumberRowsReadColumns(pts: seq<(nat, nat)>, xc: nat, yc: nat)
    requires xc < 2 && yc < 2
    ensures var rows := NumberRows(pts);
            forall k :: 0 <= k < |rows| ==> HeaderRow(xc, yc)(rows[k]) == Some(PickAll(AsReals(pts), xc, yc)[k])
  {
    var rows := NumberRows(pts);
    forall k | 0 <= k < |rows|
      ensures HeaderRow(xc, yc)(rows[k]) == Some(PickAll(AsReals(pts), xc, yc)[k])
    {
      assert rows[k] == [FormatNat(pts[k].0), FormatNat(pts[k].1)];
      NumberRowReadColumns(pts[k].0, pts[k].1, xc, yc);
    }
  }

  lemma NumberRowReadColumns(a: nat, b: nat, xc: nat, yc: nat)
    requires xc < 2 && yc < 2
    ensures HeaderRow(xc, yc)([FormatNat(a), FormatNat(b)]) == Some(Pick((a as real, b as real), xc, yc))
  {
    var row := [FormatNat(a), FormatNat(b)];
    FormatNatParses(a);
    FormatNatParses(b);
    assert NumberPair(row[xc], row[yc]) == Some(Pick((a as real, b as real), xc, yc));
  }

  /** Round trip without a header: rows of two whole numbers are read back as
      exactly those points, in order. */
  lemma CsvPlainRoundTrip(f: SourceFile, lines: seq<String>, st: Settings, pts: seq<(nat, nat)>)
    requires f.csvRows == NumberRows(pts) && !CsvHasHeader(f.firstCsvRow) && NonBlank(lines) != []
    ensures Csv(f, lines, st) == Loaded(UnitScaled(FromPoints(AsReals(pts)), st), None, false)
  {
    NumberRowsRead(pts);
    CollectExact(f.csvRows, PlainRow, AsReals(pts));
  }

  /** Whether `Object.keys` lists the second of two header names first: it
      is an array index and the first is not, or both are and the second is
      the smaller number. */
  predicate KeysSwap(hx: String, hy: String) {
    IsArrayIndex(hy) && (!IsArrayIndex(hx) || DigitsValue(hy) < DigitsValue(hx))
  }

  /** The columns a two-name header makes header mode read, given a data row
      of two cells. */
  lemma TwoNameColumns(hx: String, hy: String, first: seq<String>)
    requires hy != [] && |first| == 2
    ensures HeaderColumns([hx, hy], first) ==
              Some(if KeysSwap(hx, hy) then (1, if hx != [] then 0 else 1) else (0, 1))
  {
    assert [hx, hy][..Min(2, |first|)] == [hx, hy];
    KeyColumnsOfTwo(hx, hy);
  }

  /** Round trip with a header: below a header row of two names, rows of two
      whole numbers are read back, and the two names of the first row are
      proposed as the axis labels. The columns are those `Object.keys` lists:
      x and y as written, unless the second name is an array index the first
      name does not precede, in which case x comes from the second column and y
      from the first (or from the second as well when the first name is empty). */
  lemma CsvHeaderRoundTrip(f: SourceFile, lines: seq<String>, st: Settings,
                           hx: String, hy: String, pts: seq<(nat, nat)>)
    requires |pts| >= 1 && hy != []
    requires f.csvRows == [[hx, hy]] + NumberRows(pts) && CsvHasHeader(f.firstCsvRow) && NonBlank(lines) != []
    ensures var first := f.firstCsvRow.value;
            var cols := if KeysSwap(hx, hy) then (1, if hx != [] then 0 else 1) else (0, 1);
            Csv(f, lines, st) == Loaded(UnitScaled(FromPoints(PickAll(AsReals(pts), cols.0, cols.1)), st),
                                        Some(Labels(Trim(first[0]), Trim(first[1]))), false)
  {
    var cols := if KeysSwap(hx, hy) then (1, if hx != [] then 0 else 1) else (0, 1);
    assert f.csvRows[1..] == NumberRows(pts);
    assert f.csvRows[1] == NumberRows(pts)[0];
    TwoNameColumns(hx, hy, f.csvRows[1]);
    CsvHeaderMode(f, lines, st, cols.0, cols.1);
    NumberRowsCollect(pts, cols.0, cols.1);
  }

  /** Header mode once its two columns are known. */
  lemma CsvHeaderMode(f: SourceFile, lines: seq<String>, st: Settings, xc: nat, yc: nat)
    requires CsvHasHeader(f.firstCsvRow) && |f.csvRows| > 1 && NonBlank(lines) != []
    requires HeaderColumns(f.csvRows[0], f.csvRows[1]) == Some((xc, yc))
    ensures var first := f.firstCsvRow.value;
            Csv(f, lines, st) == Loaded(UnitScaled(FromPoints(Collect(f.csvRows[1..], HeaderRow(xc, yc))), st),
                                        Some(Labels(Trim(first[0]), Trim(first[1]))), false)
  {
  }

  lemma NumberRowsCollect(pts: seq<(nat, nat)>, xc: nat, yc: nat)
    requires xc < 2 && yc < 2
    ensures Collect(NumberRows(pts), HeaderRow(xc, yc)) == PickAll(AsReals(pts), xc, yc)
  {
    NumberRowsReadColumns(pts, xc, yc);
    CollectExact(NumberRows(pts), HeaderRow(xc, yc), PickAll(AsReals(pts), xc, yc));
  }

  /** Header names that are not array indices: the columns are read as
      written. */
  lemma CsvNamedHeaderRoundTrip(f: SourceFile, lines: seq<String>, st: Settings,
                                hx: String, hy: String, pts: seq<(nat, nat)>)
    requires |pts| >= 1 && hy != [] && !IsArrayIndex(hy)
    requires f.csvRows == [[hx, hy]] + NumberRows(pts) && CsvHasHeader(f.firstCsvRow) && NonBlank(lines) != []
    ensures var first := f.firstCsvRow.value;
            Csv(f, lines, st) == Loaded(UnitScaled(FromPoints(AsReals(pts)), st),
                                        Some(Labels(Trim(first[0]), Trim(first[1]))), false)
  {
    CsvHeaderRoundTrip(f, lines, st, hx, hy, pts);
    assert PickAll(AsReals(pts), 0, 1) == AsReals(pts);
  }

  /** A header such as `name,1`: the second name is an array index, so
      `Object.keys` lists it first and every point comes out with its two
      values exchanged, while the labels stay in header order. */
  lemma CsvIndexHeaderSwaps(f: SourceFile, lines: seq<String>, st: Settings,
                            hx: String, hy: String, pts: seq<(nat, nat)>)
    requires |pts| >= 1 && hx != [] && !IsArrayIndex(hx) && IsArrayIndex(hy)
    requires f.csvRows == [[hx, hy]] + NumberRows(pts) && CsvHasHeader(f.firstCsvRow) && NonBlank(lines) != []
    ensures var first := f.firstCsvRow.value;
            Csv(f, lines, st) == Loaded(UnitScaled(FromPoints(Exchanged(pts)), st),
                                        Some(Labels(Trim(first[0]), Trim(first[1]))), false)
  {
    assert KeysSwap(hx, hy);
    ExchangedIsPick(pts);
    CsvHeaderRoundTrip(f, lines, st, hx, hy, pts);
  }

  lemma ExchangedIsPick(pts: seq<(nat, nat)>)
    ensures PickAll(AsReals(pts), 1, 0) == Exchanged(pts)
  {
    var e := PickAll(AsReals(pts), 1, 0);
    assert forall k :: 0 <= k < |pts| ==> e[k] == Exchanged(pts)[k];
  }

  /** The whole numbers as the parsers hold them, each pair exchanged. */
  function Exchanged(pts: seq<(nat, nat)>): (r: seq<Point>)
    ensures |r| == |pts| && forall k :: 0 <= k < |pts| ==> r[k] == (pts[k].1 as real, pts[k].0 as real)
  {
    seq(|pts|, k requires 0 <= k < |pts| => (pts[k].1 as real, pts[k].0 as real))
  }

  /** The header `wavelength,1,2`: `Object.keys` lists `1`, `2`, then
      `wavelength`, so x is read from the second column and y from the third. */
  lemma IndexNamesReadFirst(first: seq<String>)
    requires |first| >= 3
    ensures HeaderColumns(["wavelength", "1", "2"], first) == Some((1, 2))
  {
    var names := ["wavelength", "1", "2"];
    assert names[..Min(3, |first|)] == names;
    SmallIndexNames(names);
    var ranks := Ranks(names);
    assert ListFirst(ranks, 1) == [0];
    assert ListFirst(ranks, 2) == Insert(ranks, 1, [0]) == [1, 0];
    assert Insert(ranks, 2, [0]) == [2, 0];
    assert ListFirst(ranks, 3) == Insert(ranks, 2, [1, 0]) == [1, 2, 0];
  }

  lemma SmallIndexNames(names: seq<String>)
    requires names == ["wavelength", "1", "2"]
    ensures !IsArrayIndex(names[0])
    ensures Rank(names, 1) == (0, 1, 1) && Rank(names, 2) == (0, 2, 2)
  {
    assert !IsDigit(names[0][0]);
    assert names[1][..0] == [] && names[2][..0] == [];
  }

  // ---------------------------------------------------------------- XML

  /** The XML branch: a label whose file name is not empty is stored under that
      name lower-cased; a label that cannot be read is ignored. */
  function Xml(text: String): (r: Outcome)
    ensures r.Ignored? || r.Label?
    ensures r.Label? ==> ExtractRelabMeta(text) == Success(r.meta) && r.key == Lower(r.meta.tabFileName)
                         && r.key != []
    ensures ExtractRelabMeta(text).Success? && ExtractRelabMeta(text).value.tabFileName != [] ==> r.Label?
  {
    match ExtractRelabMeta(text)
    case Success(m) => if m.tabFileName != [] then Label(Lower(m.tabFileName), m) else Ignored
    case Failure(_) => Ignored
  }

  // ---------------------------------------------------------------- DPT

  /** One line of `parseDPT`: trimmed; blank, `#` and comma-free lines are
      skipped; the comma-separated pieces, trimmed and non-empty, give x and y
      through `parseFloat`. */
  function DptRow(line: String): (r: Option<Point>)
    ensures var t := Trim(line); t == [] || StartsWith(t, "#") || ',' !in t ==> r.None?
  {
    var t := Trim(line);
    if t == [] || StartsWith(t, "#") || ',' !in t then None else CommaPair(t)
  }

  /** The comma-separated pieces of a line, trimmed and non-empty: the first two
      give x and y through `parseFloat`. */
  function CommaPair(t: String): Option<Point> {
    var parts := NonBlank(MapTrim(Split(t, ',')));
    if |parts| < 2 then None else FloatPair(parts[0], parts[1])
  }

  /** The DPT reader: every line of the text read with `DptRow`, keeping the
      lines that yield a point, in order. */
  function ParseDpt(text: String): (s: Series)
    ensures Paired(s) && |s.x| <= |SplitLines(text)|
  {
    FromPoints(Collect(SplitLines(text), DptRow))
  }

  /** The points of `parseDPT` are the readings of its readable lines, in line
      order, and every other line contributes nothing. */
  lemma ParseDptReadsLines(text: String)
    ensures var lines := SplitLines(text);
            var idx := Picked(lines, DptRow, 0);
            var s := ParseDpt(text);
            && |idx| == |s.x|
            && (forall k :: 0 <= k < |idx| ==> DptRow(lines[idx[k]]) == Some((s.x[k], s.y[k])))
            && (forall j :: 0 <= j < |lines| && j !in idx ==> DptRow(lines[j]).None?)
  {
    CollectIsSelection(SplitLines(text), DptRow);
  }

  /** The pieces of a line of two whole numbers joined by a comma. */
  lemma CommaSplit(a: nat, b: nat)
    ensures Split(FormatNat(a) + "," + FormatNat(b), ',') == [FormatNat(a), FormatNat(b)]
  {
    var words := [FormatNat(a), FormatNat(b)];
    assert Join(words[1..], ',') == words[1];
    assert Join(words, ',') == FormatNat(a) + "," + FormatNat(b);
    SplitJoin(words, ',');
  }

  lemma DigitsTrimmed(ds: String)
    requires |ds| > 0 && AllDigits(ds)
    ensures Trim(ds) == ds
  {
    TrimOfTrimmedEnds(ds);
  }

  lemma CommaPairOfNumbers(a: nat, b: nat)
    ensures CommaPair(FormatNat(a) + "," + FormatNat(b)) == Some((a as real, b as real))
  {
    CommaPieces(a, b);
    FormatNatParses(a);
    FormatNatParses(b);
  }

  lemma CommaPieces(a: nat, b: nat)
    ensures NonBlank(MapTrim(Split(FormatNat(a) + "," + FormatNat(b), ','))) == [FormatNat(a), FormatNat(b)]
  {
    var words := [FormatNat(a), FormatNat(b)];
    CommaSplit(a, b);
    DigitsTrimmed(words[0]);
    DigitsTrimmed(words[1]);
    assert MapTrim(words) == words;
    NonBlankKeepsAll(words);
  }

  lemma DigitEndsRow(line: String)
    requires |line| > 0 && IsDigit(line[0]) && IsDigit(line[|line| - 1]) && ',' in line
    ensures DptRow(line) == CommaPair(line)
  {
    assert !IsSpace(line[0]) && line[0] != '#' && !IsSpace(line[|line| - 1]);
    RowOfBare(line);
  }

  /** A line without surrounding white space that is not a comment and holds a
      comma is read from its comma-separated pieces. */
  lemma RowOfBare(t: String)
    requires |t| > 0 && !IsSpace(t[0]) && !IsSpace(t[|t| - 1]) && t[0] != '#' && ',' in t
    ensures DptRow(t) == CommaPair(t)
  {
    TrimOfTrimmedEnds(t);
    assert Trim(t) == t;
    assert !StartsWith(t, "#") by { assert t[..1] != "#" by { assert t[..1][0] == t[0]; } }
  }

  /** Two whole numbers written `x,y` read back as the point they denote. */
  lemma CommaPairRead(a: nat, b: nat)
    ensures DptRow(FormatNat(a) + "," + FormatNat(b)) == Some((a as real, b as real))
  {
    var line := FormatNat(a) + "," + FormatNat(b);
    NumberEnds(a, b, ",");
    assert line[|FormatNat(a)|] == ',';
    DigitEndsRow(line);
    CommaPairOfNumbers(a, b);
  }

  /** The lines of a `.dpt` export: one `x,y` line per point. */
  function DptLines(pts: seq<(nat, nat)>): (lines: seq<String>)
    ensures |lines| == |pts|
  {
    seq(|pts|, k requires 0 <= k < |pts| => FormatNat(pts[k].0) + "," + FormatNat(pts[k].1))
  }

  /** The whole numbers as the parsers hold them. */
  function AsReals(pts: seq<(nat, nat)>): (r: seq<Point>)
    ensures |r| == |pts|
  {
    seq(|pts|, k requires 0 <= k < |pts| => (pts[k].0 as real, pts[k].1 as real))
  }

  /** A `.dpt` export, its lines joined with newlines. */
  function DptText(pts: seq<(nat, nat)>): String {
    if |pts| == 0 then "" else Join(DptLines(pts), '\n')
  }

  /** Round trip: `parseDPT` reads back every point of a `.dpt` export, in order. */
  lemma ParseDptRoundTrip(pts: seq<(nat, nat)>)
    ensures ParseDpt(DptText(pts)) == FromPoints(AsReals(pts))
  {
    if |pts| == 0 {
      EmptyDpt();
    } else {
      var lines := DptLines(pts);
      forall k | 0 <= k < |lines|
        ensures '\n' !in lines[k] && lines[k][|lines[k]| - 1] != '\r'
        ensures DptRow(lines[k]) == Some(AsReals(pts)[k])
      {
        assert lines[k] == FormatNat(pts[k].0) + "," + FormatNat(pts[k].1);
        DptLineRead(pts[k].0, pts[k].1);
      }
      SplitLinesJoin(lines);
      CollectExact(lines, DptRow, AsReals(pts));
    }
  }

  lemma EmptyDpt()
    ensures ParseDpt("") == FromPoints([])
  {
    assert Split("", '\n') == [""];
    assert SplitLines("") == [""];
    assert DptRow("").None?;
    assert Collect(SplitLines(""), DptRow) == [];
  }

  /** One line of an export has no line break and reads back as its point. */
  lemma DptLineRead(a: nat, b: nat)
    ensures var line := FormatNat(a) + "," + FormatNat(b);
            '\n' !in line && line[|line| - 1] != '\r' && DptRow(line) == Some((a as real, b as real))
  {
    DptLineBare(a, b);
    CommaPairRead(a, b);
  }

  lemma DptLineBare(a: nat, b: nat)
    ensures var line := FormatNat(a) + "," + FormatNat(b);
            '\n' !in line && line[|line| - 1] != '\r'
  {
    assert "," == [','];
    NumberEnds(a, b, [',']);
    PairChars(a, b, ',');
  }

  /** Lines of two whole numbers separated by one space, one per point: the
      body of a self-describing TAB file and of an `.asc` export. */
  function SpaceLines(pts: seq<(nat, nat)>): (lines: seq<String>)
    ensures |lines| == |pts|
  {
    seq(|pts|, k requires 0 <= k < |pts| => FormatNat(pts[k].0) + " " + FormatNat(pts[k].1))
  }

  lemma DigitsPlainDecimal(ds: String)
    requires |ds| >= 1 && AllDigits(ds)
    ensures IsPlainDecimal(ds) && NoneIn(ds, IsSpace)
  {
    assert SignLength(ds) == 0;
    assert ds[0..] == ds;
    RunLengthAll(ds);
  }

  lemma SpaceTokens(a: nat, b: nat)
    ensures Tokens(FormatNat(a) + " " + FormatNat(b), IsSpace) == [FormatNat(a), FormatNat(b)]
  {
    var words := [FormatNat(a), FormatNat(b)];
    DigitsPlainDecimal(words[0]);
    DigitsPlainDecimal(words[1]);
    assert Join(words[1..], ' ') == words[1];
    assert Join(words, ' ') == FormatNat(a) + " " + FormatNat(b);
    TokensJoin(words, ' ', IsSpace);
  }

  /** A line `a b` of two whole numbers is a well-formed data row, and the
      inline TAB reader and the white-space reader both read it as (a, b). */
  lemma SpaceLineRead(a: nat, b: nat)
    ensures var line := FormatNat(a) + " " + FormatNat(b);
            && IsDataRow(line) && '\n' !in line && line[|line| - 1] != '\r'
            && CountedLine(line) == Some((a as real, b as real))
            && WhitespaceRow(line) == Some((a as real, b as real))
  {
    SpaceLineShape(a, b);
    SpaceLineCounted(a, b);
    SpaceLineWhitespace(a, b);
  }

  lemma SpaceLineShape(a: nat, b: nat)
    ensures var line := FormatNat(a) + " " + FormatNat(b);
            && IsDataRow(line) && '\n' !in line && line[|line| - 1] != '\r'
            && Tokens(line, IsSpace) == [FormatNat(a), FormatNat(b)]
  {
    SpaceTokens(a, b);
    DigitsPlainDecimal(FormatNat(a));
    DigitsPlainDecimal(FormatNat(b));
    SpaceLineBare(a, b);
  }

  lemma SpaceLineBare(a: nat, b: nat)
    ensures var line := FormatNat(a) + " " + FormatNat(b);
            TrimmedLine(line) && '\n' !in line && line[|line| - 1] != '\r'
  {
    assert " " == [' '];
    NumberEnds(a, b, [' ']);
    PairChars(a, b, ' ');
  }

  lemma SpaceLineCounted(a: nat, b: nat)
    ensures CountedLine(FormatNat(a) + " " + FormatNat(b)) == Some((a as real, b as real))
  {
    SpaceLineShape(a, b);
    FormatNatParses(a);
    FormatNatParses(b);
  }

  lemma SpaceLineWhitespace(a: nat, b: nat)
    ensures WhitespaceRow(FormatNat(a) + " " + FormatNat(b)) == Some((a as real, b as real))
  {
    var line := FormatNat(a) + " " + FormatNat(b);
    NumberEnds(a, b, " ");
    BareWhitespaceRow(line);
    SpaceTokens(a, b);
    FormatNatParses(a);
    FormatNatParses(b);
  }

  lemma BareWhitespaceRow(t: String)
    requires |t| > 0 && IsDigit(t[0]) && IsDigit(t[|t| - 1])
    ensures WhitespaceRow(t) == (var cols := Tokens(t, IsSpace);
                                 if |cols| < 2 then None else FloatPair(cols[0], cols[1]))
  {
    assert !IsSpace(t[0]) && !IsSpace(t[|t| - 1]);
    TrimOfTrimmedEnds(t);
    assert !StartsWith(t, "#") by { assert t[..1][0] == t[0]; }
  }

  lemma SpaceLinesRead(pts: seq<(nat, nat)>)
    ensures var rows := SpaceLines(pts);
            forall k :: 0 <= k < |rows| ==>
              && IsDataRow(rows[k]) && '\n' !in rows[k] && rows[k][|rows[k]| - 1] != '\r'
              && CountedLine(rows[k]) == Some(AsReals(pts)[k])
              && WhitespaceRow(rows[k]) == Some(AsReals(pts)[k])
  {
    var rows := SpaceLines(pts);
    forall k | 0 <= k < |rows|
      ensures && IsDataRow(rows[k]) && '\n' !in rows[k] && rows[k][|rows[k]| - 1] != '\r'
              && CountedLine(rows[k]) == Some(AsReals(pts)[k])
              && WhitespaceRow(rows[k]) == Some(AsReals(pts)[k])
    {
      assert rows[k] == FormatNat(pts[k].0) + " " + FormatNat(pts[k].1);
      assert AsReals(pts)[k] == (pts[k].0 as real, pts[k].1 as real);
      SpaceLineRead(pts[k].0, pts[k].1);
    }
  }

  // ---------------------------------------------------------------- TAB

  /** The TAB branch before its unit conversion: a loaded label selects the
      fixed-width reader, with `parseDPT` as the fallback when it finds no data;
      without a label a self-describing file is read by the inline reader as it
      is written, and anything else by `parseDPT`. */
  function TabRaw(text: String, meta: Option<RelabMeta>): (s: Series)
    ensures Paired(s)
    ensures meta.Some? && ParseRelabTab(text, meta.value).Success? ==> s == ParseRelabTab(text, meta.value).value
    ensures meta.Some? && ParseRelabTab(text, meta.value).Failure? ==> s == ParseDpt(text)
    ensures meta.None? && !SelfDescribing(text) ==> s == ParseDpt(text)
    ensures meta.None? && SelfDescribing(text) ==> s == FromPoints(ReadCounted(text))
  {
    match meta
    case Some(m) =>
      (match ParseRelabTab(text, m)
       case Success(s) => s
       case Failure(_) => ParseDpt(text))
    case None =>
      if SelfDescribing(text) then FromPoints(ReadCounted(text)) else ParseDpt(text)
  }

  /** Without a label, a self-describing file never yields more points than its
      count line declares, and none at all when its first line is blank: the
      inline reader then takes its count from that blank line. */
  lemma TabCountBound(text: String)
    requires SelfDescribing(text)
    ensures var ls := NonBlank(MapTrim(SplitLines(text)));
            ParseInt(ls[0]).Some? && |TabRaw(text, None).x| <= ParseInt(ls[0]).value
    ensures Trim(SplitLines(text)[0]) == [] ==> |TabRaw(text, None).x| == 0
  {
    var lines := MapTrim(SplitLines(text));
    if lines[0] == [] {
      assert ParseInt(lines[0]).None? by {
        assert TrimStart(lines[0]) == [];
      }
    } else {
      NonBlankHead(lines);
    }
  }

  /** Round trip: without a label, a count line followed by one `x y` line per
      point reads back as exactly those points, in order. */
  lemma SelfDescribingRoundTrip(pts: seq<(nat, nat)>)
    requires |pts| >= 2
    ensures var text := Join([FormatNat(|pts|)] + SpaceLines(pts), '\n');
            SelfDescribing(text) && TabRaw(text, None) == FromPoints(AsReals(pts))
  {
    var rows := SpaceLines(pts);
    SpaceLinesRead(pts);
    DetectsCountedBody(|pts|, rows);
    CountedRowsRead(rows);
    CollectExact(rows, CountedLine, AsReals(pts));
  }

  /** With its label, a fixed-width TAB file reads back as exactly the written
      pairs, in order, whatever the text would look like to the self-describing
      check. */
  lemma TabLabelRoundTrip(pairs: seq<(nat, nat)>, wl: nat, rf: nat, name: String)
    requires |pairs| > 0 && Fits(pairs, wl, rf)
    ensures TabRaw(Join(FixedBody(pairs, wl, rf), '\n'), Some(FixedLayout(name, wl, rf, |pairs|)))
         == FromPoints(AsPoints(pairs))
  {
    RelabTabRoundTrip(pairs, wl, rf, name);
  }

  /** The reader as written inside the TAB branch: a blank line after the count
      costs a recognised file its last row. */
  lemma TabLosesRowAfterBlank(rows: seq<String>)
    requires |rows| >= 2
    requires forall i :: 0 <= i < |rows| ==> IsDataRow(rows[i])
    ensures |TabRaw(Join([FormatNat(|rows|), []] + rows, '\n'), None).x| == |rows| - 1
  {
    BlankAfterCountLosesRow(rows);
  }

  /** The TAB branch: RELAB files store nanometres, so every x is divided by
      1000 on all three paths, and the trace is pushed even when it is empty. */
  function Tab(f: SourceFile, st: Settings): (r: Outcome)
    ensures r.Loaded? && r.hint == Some(WavelengthLabels) && r.setsLabels
    ensures var key := Lower(f.name);
            var raw := TabRaw(f.text, if key in st.labelStore then Some(st.labelStore[key]) else None);
            && Paired(r.data) && |r.data.x| == |raw.x| && r.data.y == raw.y
            && forall i :: 0 <= i < |raw.x| ==> r.data.x[i] * 1000.0 == raw.x[i]
  {
    var key := Lower(f.name);
    var meta := if key in st.labelStore then Some(st.labelStore[key]) else None;
    Loaded(DivideX(TabRaw(f.text, meta), 1000.0), Some(WavelengthLabels), true)
  }

  // ---------------------------------------------------------------- ASC and other text

  /** One line of the `.asc` and generic readers: trimmed; blank and `#` lines
      are skipped; the first two white-space separated tokens give x and y
      through `parseFloat`. */
  function WhitespaceRow(line: String): (r: Option<Point>)
    ensures var t := Trim(line); t == [] || StartsWith(t, "#") ==> r.None?
    ensures r.Some? ==> |Tokens(Trim(line), IsSpace)| >= 2
  {
    var t := Trim(line);
    if t == [] || StartsWith(t, "#") then None
    else
      var cols := Tokens(t, IsSpace);
      if |cols| < 2 then None else FloatPair(cols[0], cols[1])
  }

  /** The loop the `.asc` and generic readers share, over the split lines. */
  function WhitespaceSeries(lines: seq<String>): (s: Series)
    ensures Paired(s) && |s.x| <= |lines|
  {
    FromPoints(Collect(lines, WhitespaceRow))
  }

  /** The points of the white-space reader are the readings of its readable
      lines, in line order, and every other line contributes nothing. */
  lemma WhitespaceSeriesReadsLines(lines: seq<String>)
    ensures var idx := Picked(lines, WhitespaceRow, 0);
            var s := WhitespaceSeries(lines);
            && |idx| == |s.x|
            && (forall k :: 0 <= k < |idx| ==> WhitespaceRow(lines[idx[k]]) == Some((s.x[k], s.y[k])))
            && (forall j :: 0 <= j < |lines| && j !in idx ==> WhitespaceRow(lines[j]).None?)
  {
    CollectIsSelection(lines, WhitespaceRow);
  }

  /** Round trip: `x y` lines joined with newlines read back as exactly those
      points, in order. */
  lemma WhitespaceRoundTrip(pts: seq<(nat, nat)>)
    requires |pts| >= 1
    ensures WhitespaceSeries(SplitLines(Join(SpaceLines(pts), '\n'))) == FromPoints(AsReals(pts))
  {
    var rows := SpaceLines(pts);
    SpaceLinesRead(pts);
    SplitLinesJoin(rows);
    CollectExact(rows, WhitespaceRow, AsReals(pts));
  }

  /** The `.asc` branch: an empty result is discarded. */
  function Asc(lines: seq<String>): (r: Outcome)
    ensures r.Ignored? <==> |WhitespaceSeries(lines).x| == 0
    ensures r.Loaded? ==> r.data == WhitespaceSeries(lines) && r.hint == Some(DiffractionLabels) && r.setsLabels
  {
    var s := WhitespaceSeries(lines);
    if |s.x| == 0 then Ignored else Loaded(s, Some(DiffractionLabels), true)
  }

  /** The `.dpt` branch: an empty result is discarded. */
  function Dpt(text: String): (r: Outcome)
    ensures r.Ignored? <==> |ParseDpt(text).x| == 0
    ensures r.Loaded? ==> r.data == ParseDpt(text) && r.hint == Some(WavelengthLabels) && r.setsLabels
  {
    var s := ParseDpt(text);
    if |s.x| == 0 then Ignored else Loaded(s, Some(WavelengthLabels), true)
  }

  /** Any other extension: whitespace-separated text, pushed even when empty. */
  function Generic(lines: seq<String>, st: Settings): (r: Outcome)
    ensures r.Loaded? && r.hint.None? && !r.setsLabels
    ensures r.data == UnitScaled(WhitespaceSeries(lines), st)
  {
    Loaded(UnitScaled(WhitespaceSeries(lines), st), None, false)
  }

  // ---------------------------------------------------------------- dispatch

  /** The whole per-file step (`reader.onload`). The log banner wins over the
      extension; only an XML file yields a label; only the `.dpt` and `.asc`
      branches discard an empty series, while the TAB and generic branches push
      a trace whatever they read, and so does the CSV branch once the file has
      a non-empty line. */
  function Ingest(f: SourceFile, st: Settings): (r: Outcome)
    ensures r.Loaded? ==> Paired(r.data)
    ensures r.Label? ==> Extension(f.name) == "xml" && !IsTimeLog(SplitLines(f.text))
    ensures IsTimeLog(SplitLines(f.text)) ==>
              && (r.Ignored? <==> TimeLog(SplitLines(f.text)).None?)
              && (r.Loaded? ==> r.hint == Some(TimeLabels) && r.data == TimeLog(SplitLines(f.text)).value)
    ensures !IsTimeLog(SplitLines(f.text)) ==>
              var ext := Extension(f.name);
              && (ext == "dpt" || ext == "asc" ==> r.Ignored? || |r.data.x| > 0)
              && (ext == "tab" ==> r.Loaded?)
              && (ext !in {"csv", "xml", "tab", "dpt", "asc"} ==> r.Loaded?)
              && (ext == "csv" ==> (r.Loaded? <==> NonBlank(SplitLines(f.text)) != []))
  {
    var lines := SplitLines(f.text);
    var ext := Extension(f.name);
    if IsTimeLog(lines) then
      match TimeLog(lines)
      case None => Ignored
      case Some(s) => Loaded(s, Some(TimeLabels), true)
    else if ext == "csv" then Csv(f, lines, st)
    else if ext == "xml" then Xml(f.text)
    else if ext == "tab" then Tab(f, st)
    else if ext == "dpt" then Dpt(f.text)
    else if ext == "asc" then Asc(lines)
    else Generic(lines, st)
  }

  /** A CSV file whose whole text is a carriage return has one line, `"\r"`,
      which `filter(Boolean)` keeps, so a trace is pushed. */
  lemma LoneCRCsvPushed(f: SourceFile, st: Settings)
    requires Extension(f.name) == "csv" && f.text == "\r"
    ensures Ingest(f, st).Loaded?
  {
    SplitLinesOneLine(f.text);
    assert NonBlank(["\r"]) == ["\r"];
  }
}
