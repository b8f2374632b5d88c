/** The older build of the viewer (`Release/src/App.jsx`). It shares the RELAB
    label and fixed-width readers with the current build, but differs in four
    places: its `parseDPT` splits on any run of white space, commas and
    semicolons; its TAB branch guesses the unit from the mean wavelength instead
    of always dividing by 1000, and has no self-describing reader; the CSV
    branch never looks for a header; and a batch is appended in completion
    order, with no groups, labels or sort. */
module Release {
  import opened Wrappers
  import opened Text
  import opened Numbers
  import opened Series
  import opened RelabLabel
  import opened RelabTab
  import Formats
  import Viewer

  // ---------------------------------------------------------------- parseDPT

  /** The separator class `[\s,;\t]` of the older `parseDPT`. */
  predicate IsDelimiter(c: char) {
    IsSpace(c) || c == ',' || c == ';' || c == '\t'
  }

  /** One line of the older `parseDPT`: trimmed; blank and `#` lines are
      skipped; the first two tokens between delimiter runs give x and y through
      `parseFloat`. */
  function DptRow(line: String): (r: Option<Point>)
    ensures var t := Trim(line); t == [] || StartsWith(t, "#") ==> r.None?
    ensures r.Some? ==> var ts := Tokens(Trim(line), IsDelimiter);
                        |ts| >= 2 && r == FloatPair(ts[0], ts[1])
  {
    var t := Trim(line);
    if t == [] || StartsWith(t, "#") then None else FirstTwoTokens(t)
  }

  function FirstTwoTokens(t: String): Option<Point> {
    var parts := Tokens(t, IsDelimiter);
    if |parts| < 2 then None else FloatPair(parts[0], parts[1])
  }

  /** A line already without surrounding white space and not a comment is
      read from its tokens. */
  lemma RowOfBare(t: String)
    requires |t| > 0 && !IsSpace(t[0]) && !IsSpace(t[|t| - 1]) && t[0] != '#'
    ensures DptRow(t) == FirstTwoTokens(t)
  {
    TrimOfTrimmedEnds(t);
    assert Trim(t) == t;
    assert !StartsWith(t, "#") by { assert t[..1] != "#" by { assert t[..1][0] == t[0]; } }
  }

  /** The older DPT reader: every line of the text read with the older line
      reader, keeping the lines that yield a point, in order. */
  function ParseDpt(text: String): (s: Series)
    ensures Paired(s) && |s.x| <= |SplitLines(text)|
  {
    FromPoints(Collect(SplitLines(text), DptRow))
  }

  /** The points are the readings of the readable lines, in line order; every
      other line contributes nothing. */
  lemma ParseDptReadsLines(text: String)
    ensures var lines := SplitLines(text);
            var idx := Picked(lines, DptRow, 0);
            var s := ParseDpt(text);
            && |idx| == |s.x|
            && (forall k :: 0 <= k < |idx| ==> DptRow(lines[idx[k]]) == Some((s.x[k], s.y[k])))
            && (forall j :: 0 <= j < |lines| && j !in idx ==> DptRow(lines[j]).None?)
  {
    CollectIsSelection(SplitLines(text), DptRow);
  }

  lemma DigitsHaveNoDelimiter(ds: String)
    requires AllDigits(ds)
    ensures NoneIn(ds, IsDelimiter)
  {
    forall i | 0 <= i < |ds| ensures !IsDelimiter(ds[i]) {
      assert IsDigit(ds[i]);
    }
  }

  lemma DelimitedTokens(a: nat, b: nat, d: char)
    requires IsDelimiter(d)
    ensures Tokens(FormatNat(a) + [d] + FormatNat(b), IsDelimiter) == [FormatNat(a), FormatNat(b)]
  {
    var words := [FormatNat(a), FormatNat(b)];
    DigitsHaveNoDelimiter(words[0]);
    DigitsHaveNoDelimiter(words[1]);
    assert Join(words[1..], d) == words[1];
    assert Join(words, d) == FormatNat(a) + [d] + FormatNat(b);
    TokensJoin(words, d, IsDelimiter);
  }

  /** Two whole numbers separated by any one delimiter read back as the point
      they denote. */
  lemma DelimitedPairRead(a: nat, b: nat, d: char)
    requires IsDelimiter(d)
    ensures DptRow(FormatNat(a) + [d] + FormatNat(b)) == Some((a as real, b as real))
  {
    var line := FormatNat(a) + [d] + FormatNat(b);
    NumberEnds(a, b, [d]);
    DigitEndsRow(line);
    TwoNumbersRead(a, b, d);
  }

  lemma DigitEndsRow(line: String)
    requires |line| > 0 && IsDigit(line[0]) && IsDigit(line[|line| - 1])
    ensures DptRow(line) == FirstTwoTokens(line)
  {
    assert !IsSpace(line[0]) && line[0] != '#' && !IsSpace(line[|line| - 1]);
    RowOfBare(line);
  }

  lemma TwoNumbersRead(a: nat, b: nat, d: char)
    requires IsDelimiter(d)
    ensures FirstTwoTokens(FormatNat(a) + [d] + FormatNat(b)) == Some((a as real, b as real))
  {
    DelimitedTokens(a, b, d);
    FormatNatParses(a);
    FormatNatParses(b);
  }

  /** Where the two readers part: a semicolon-separated line is a point for the
      older `parseDPT` and is skipped by the current, comma-only one. */
  lemma SemicolonLine(a: nat, b: nat)
    ensures DptRow(FormatNat(a) + ";" + FormatNat(b)) == Some((a as real, b as real))
    ensures Formats.DptRow(FormatNat(a) + ";" + FormatNat(b)).None?
  {
    DelimitedPairRead(a, b, ';');
    SemicolonSkipped(a, b);
  }

  lemma SemicolonSkipped(a: nat, b: nat)
    ensures Formats.DptRow(FormatNat(a) + ";" + FormatNat(b)).None?
  {
    var line := FormatNat(a) + ";" + FormatNat(b);
    NumberEnds(a, b, ";");
    PairChars(a, b, ';');
    CommaFreeSkipped(line);
  }

  lemma CommaFreeSkipped(t: String)
    requires |t| > 0 && !IsSpace(t[0]) && !IsSpace(t[|t| - 1]) && ',' !in t
    ensures Formats.DptRow(t).None?
  {
    TrimOfTrimmedEnds(t);
  }

  /** Lines of two whole numbers, each pair split by the same delimiter. */
  function DelimitedLines(pts: seq<(nat, nat)>, d: char): (lines: seq<String>)
    ensures |lines| == |pts|
  {
    seq(|pts|, k requires 0 <= k < |pts| => FormatNat(pts[k].0) + [d] + FormatNat(pts[k].1))
  }

  lemma DelimitedLinesRead(pts: seq<(nat, nat)>, d: char)
    requires IsDelimiter(d) && d != '\n'
    ensures var rows := DelimitedLines(pts, d);
            forall k :: 0 <= k < |rows| ==>
              && '\n' !in rows[k] && rows[k][|rows[k]| - 1] != '\r'
              && DptRow(rows[k]) == Some(Formats.AsReals(pts)[k])
  {
    var rows := DelimitedLines(pts, d);
    forall k | 0 <= k < |rows|
      ensures && '\n' !in rows[k] && rows[k][|rows[k]| - 1] != '\r'
              && DptRow(rows[k]) == Some(Formats.AsReals(pts)[k])
    {
      NumberEnds(pts[k].0, pts[k].1, [d]);
      PairChars(pts[k].0, pts[k].1, d);
      DelimitedPairRead(pts[k].0, pts[k].1, d);
    }
  }

  /** Round trip: whole-number pairs written one per line, split by any one
      delimiter other than a newline, are read back as exactly those points. */
  lemma ParseDptRoundTrip(pts: seq<(nat, nat)>, d: char)
    requires |pts| >= 1 && IsDelimiter(d) && d != '\n'
    ensures ParseDpt(Join(DelimitedLines(pts, d), '\n')) == FromPoints(Formats.AsReals(pts))
  {
    var rows := DelimitedLines(pts, d);
    DelimitedLinesRead(pts, d);
    SplitLinesJoin(rows);
    CollectExact(rows, DptRow, Formats.AsReals(pts));
  }

  // ---------------------------------------------------------------- TAB

  /** Whether the unit guess takes x to be in nanometres. */
  predicate LooksNanometres(xs: seq<real>) {
    |xs| > 0 && Mean(xs) > 100.0
  }

  /** The unit guess of the TAB branch: a non-empty series whose mean x exceeds
      100 is divided by 1000; any other series is kept as it is. */
  function ToMicrons(s: Series): (r: Series)
    ensures r.y == s.y && |r.x| == |s.x|
    ensures LooksNanometres(s.x) ==> forall i :: 0 <= i < |s.x| ==> r.x[i] * 1000.0 == s.x[i]
    ensures !LooksNanometres(s.x) ==> r == s
  {
    if LooksNanometres(s.x) then DivideX(s, 1000.0) else s
  }

  lemma {:induction false} SumScaled(xs: seq<real>, ys: seq<real>, d: real)
    requires |xs| == |ys| && d != 0.0
    requires forall i :: 0 <= i < |xs| ==> ys[i] * d == xs[i]
    ensures Sum(ys) * d == Sum(xs)
  {
    if |xs| > 0 {
      var n := |xs| - 1;
      SumScaled(xs[..n], ys[..n], d);
      assert (Sum(ys[..n]) + ys[n]) * d == Sum(ys[..n]) * d + ys[n] * d;
    }
  }

  /** The guess settles: a series whose mean is at most 100000 is converted at
      most once, so applying it again changes nothing. */
  lemma ToMicronsSettles(s: Series)
    requires |s.x| > 0 ==> Mean(s.x) <= 100000.0
    ensures ToMicrons(ToMicrons(s)) == ToMicrons(s)
  {
    var r := ToMicrons(s);
    if LooksNanometres(s.x) {
      SumScaled(s.x, r.x, 1000.0);
      var n := |s.x| as real;
      assert Mean(r.x) * 1000.0 == Mean(s.x) by {
        assert Mean(r.x) == Sum(r.x) / n && Mean(s.x) == Sum(s.x) / n;
        assert Sum(r.x) * 1000.0 / n == Sum(s.x) / n;
      }
      assert !LooksNanometres(r.x);
    }
  }

  /** The TAB branch before its unit guess: a loaded label selects the
      fixed-width reader, with `parseDPT` as the fallback when it finds no data;
      without a label the file goes straight to `parseDPT`. */
  function TabRaw(text: String, meta: Option<RelabMeta>): (s: Series)
    ensures Paired(s)
    ensures meta.Some? && ParseRelabTab(text, meta.value).Success? ==> s == ParseRelabTab(text, meta.value).value
    ensures meta.Some? && ParseRelabTab(text, meta.value).Failure? ==> s == ParseDpt(text)
    ensures meta.None? ==> s == ParseDpt(text)
  {
    match meta
    case Some(m) =>
      (match ParseRelabTab(text, m)
       case Success(s) => s
       case Failure(_) => ParseDpt(text))
    case None => ParseDpt(text)
  }

  /** With its label, a fixed-width TAB file reads back as exactly the written
      pairs, in order. */
  lemma TabLabelRoundTrip(pairs: seq<(nat, nat)>, wl: nat, rf: nat, name: String)
    requires |pairs| > 0 && Fits(pairs, wl, rf)
    ensures TabRaw(Join(FixedBody(pairs, wl, rf), '\n'), Some(FixedLayout(name, wl, rf, |pairs|)))
         == FromPoints(AsPoints(pairs))
  {
    RelabTabRoundTrip(pairs, wl, rf, name);
  }

  /** Without its label, a TAB file holding delimited whole-number pairs reads
      back as those pairs, since it goes straight to `parseDPT`. */
  lemma TabNoLabelRoundTrip(pts: seq<(nat, nat)>, d: char)
    requires |pts| >= 1 && IsDelimiter(d) && d != '\n'
    ensures TabRaw(Join(DelimitedLines(pts, d), '\n'), None) == FromPoints(Formats.AsReals(pts))
  {
    ParseDptRoundTrip(pts, d);
  }

  /** The TAB branch: the label is looked up under the lower-cased file name;
      a file with no label, or whose label finds no data, goes to `parseDPT`;
      the unit guess is applied to whichever series results. */
  function Tab(f: Formats.SourceFile, store: map<String, RelabMeta>): (s: Series)
    ensures Paired(s)
    ensures Lower(f.name) !in store ==> s == ToMicrons(ParseDpt(f.text))
    ensures var key := Lower(f.name);
            key in store && ParseRelabTab(f.text, store[key]).Success? ==>
              s == ToMicrons(ParseRelabTab(f.text, store[key]).value)
    ensures var key := Lower(f.name);
            key in store && ParseRelabTab(f.text, store[key]).Failure? ==> s == ToMicrons(ParseDpt(f.text))
  {
    var key := Lower(f.name);
    ToMicrons(TabRaw(f.text, if key in store then Some(store[key]) else None))
  }

  // ---------------------------------------------------------------- per file

  /** The per-file step of the older `handleFiles`: CSV rows without a header
      test, XML labels, TAB files and, for every other extension, the older
      `parseDPT`. Every file except an XML label pushes a trace, even an empty
      one, and no branch proposes labels. */
  function Ingest(f: Formats.SourceFile, store: map<String, RelabMeta>): (r: Formats.Outcome)
    ensures Formats.Extension(f.name) == "xml" <==> !r.Loaded?
    ensures r.Loaded? ==> Paired(r.data) && r.hint.None? && !r.setsLabels
    ensures Formats.Extension(f.name) == "tab" ==> r.data == Tab(f, store)
    ensures Formats.Extension(f.name) !in {"csv", "xml", "tab"} ==> r.data == ParseDpt(f.text)
  {
    var ext := Formats.Extension(f.name);
    if ext == "csv" then Formats.Loaded(FromPoints(Collect(f.csvRows, Formats.PlainRow)), None, false)
    else if ext == "xml" then Formats.Xml(f.text)
    else if ext == "tab" then Formats.Loaded(Tab(f, store), None, false)
    else Formats.Loaded(ParseDpt(f.text), None, false)
  }

  // ---------------------------------------------------------------- state

  /** The older state: the three per-trace lists, the ranges and the labels.
      `handlerStore` is the label store as the file handler last captured it:
      the handler is rebuilt only when the number of traces changes, so it keeps
      reading the labels of the render that last changed that number. */
  datatype State = State(
    traces: seq<Viewer.Trace>,
    filesInfo: seq<String>,
    visibility: seq<bool>,
    xRange: Option<Viewer.Range>,
    yRange: Option<Viewer.Range>,
    labelStore: map<String, RelabMeta>,
    handlerStore: map<String, RelabMeta>)

  predicate Lockstep(s: State) {
    |s.filesInfo| == |s.traces| && |s.visibility| == |s.traces|
  }

  lemma ModTenShift(a: nat, k: nat)
    ensures (a % 10 + k) % 10 == (a + k) % 10
  {
    var q := a / 10;
    assert a + k == 10 * q + (a % 10 + k);
  }

  /** The block of traces a batch appends when `n` traces are already plotted:
      the k-th loaded file in completion order, coloured `n + k` modulo ten. */
  predicate ColoursFrom(block: seq<Viewer.Trace>, arr: seq<Viewer.Arrival>, n: nat) {
    var ls := Viewer.Loads(arr);
    && |block| == |ls|
    && forall k :: 0 <= k < |block| ==>
         block[k] == Viewer.Trace(ls[k].outcome.data, Viewer.Palette[(n + k) % 10], ls[k].name)
  }

  lemma NewTracesColors(arr: seq<Viewer.Arrival>, n: nat)
    ensures ColoursFrom(Viewer.NewTraces(arr, n % 10), arr, n)
  {
    var ts := Viewer.NewTraces(arr, n % 10);
    forall k | 0 <= k < |ts| ensures ts[k].color == Viewer.Palette[(n + k) % 10] {
      ModTenShift(n, k);
    }
  }

  lemma AppendParts<T>(a: seq<T>, b: seq<T>)
    ensures (a + b)[..|a|] == a && (a + b)[|a|..] == b
  {
  }

  /** What happens once every reader of a non-empty batch has finished: the new
      traces are appended in completion order, the colours continuing from the
      number of traces already plotted, each visible; the ranges are reset. */
  function Merge(s: State, arr: seq<Viewer.Arrival>): (r: State)
    ensures var n := |Viewer.Loads(arr)|;
      && |r.traces| == |s.traces| + n && |r.filesInfo| == |s.filesInfo| + n
      && |r.visibility| == |s.visibility| + n
    ensures && r.traces[..|s.traces|] == s.traces && r.filesInfo[..|s.filesInfo|] == s.filesInfo
            && r.visibility[..|s.visibility|] == s.visibility
    ensures ColoursFrom(r.traces[|s.traces|..], arr, |s.traces|)
    ensures r.filesInfo[|s.filesInfo|..] == Viewer.Names(r.traces[|s.traces|..])
    ensures forall i :: |s.visibility| <= i < |r.visibility| ==> r.visibility[i]
    ensures r.xRange.None? && r.yRange.None?
    ensures r.labelStore == Viewer.Store(arr, s.labelStore)
    ensures r.handlerStore == (if |r.traces| != |s.traces| then r.labelStore else s.handlerStore)
    ensures Lockstep(s) ==> Lockstep(r)
  {
    var ts := Viewer.NewTraces(arr, |s.traces| % 10);
    var store := Viewer.Store(arr, s.labelStore);
    var r := s.(traces := s.traces + ts, filesInfo := s.filesInfo + Viewer.Names(ts),
                visibility := s.visibility + Viewer.Repeat(true, |ts|),
                xRange := None, yRange := None, labelStore := store,
                handlerStore := if |ts| > 0 then store else s.handlerStore);
    AppendParts(s.traces, ts);
    AppendParts(s.filesInfo, Viewer.Names(ts));
    AppendParts(s.visibility, Viewer.Repeat(true, |ts|));
    NewTracesColors(arr, |s.traces|);
    r
  }

  /** Each file of a batch read against one label store, in completion order. */
  function Arrivals(files: seq<Formats.SourceFile>, store: map<String, RelabMeta>): (arr: seq<Viewer.Arrival>)
    ensures |arr| == |files|
    ensures forall i :: 0 <= i < |files| ==> arr[i] == Viewer.Arrival(files[i].name, Ingest(files[i], store))
  {
    seq(|files|, i requires 0 <= i < |files| => Viewer.Arrival(files[i].name, Ingest(files[i], store)))
  }

  /** The older `handleFiles` with `files` listed in the order their readers
      complete, as written: every TAB file is looked up in the label store the
      handler captured, not the one loaded since. An empty selection changes
      nothing. */
  function Batch(s: State, files: seq<Formats.SourceFile>): (r: State)
    ensures |files| == 0 ==> r == s
    ensures |files| > 0 ==> r == Merge(s, Arrivals(files, s.handlerStore))
    ensures Lockstep(s) ==> Lockstep(r)
  {
    if |files| == 0 then s else Merge(s, Arrivals(files, s.handlerStore))
  }

  /** The batch as evidently intended: every TAB file is looked up in the labels
      loaded so far. */
  function BatchIntended(s: State, files: seq<Formats.SourceFile>): (r: State)
    ensures |files| == 0 ==> r == s
    ensures |files| > 0 ==> r == Merge(s, Arrivals(files, s.labelStore))
    ensures Lockstep(s) ==> Lockstep(r)
  {
    if |files| == 0 then s else Merge(s, Arrivals(files, s.labelStore))
  }

  /** A batch of label files only adds no trace, so the handler is not rebuilt
      and keeps the store it had, while the labels do land in the store. */
  lemma LabelOnlyBatch(s: State, files: seq<Formats.SourceFile>)
    requires |files| > 0 && forall i :: 0 <= i < |files| ==> Formats.Extension(files[i].name) == "xml"
    ensures var r := Batch(s, files);
            && |r.traces| == |s.traces| && r.handlerStore == s.handlerStore
            && r.labelStore == Viewer.Store(Arrivals(files, s.handlerStore), s.labelStore)
  {
    NoLoads(Arrivals(files, s.handlerStore));
  }

  lemma {:induction false} NoLoads(arr: seq<Viewer.Arrival>)
    requires forall i :: 0 <= i < |arr| ==> !arr[i].outcome.Loaded?
    ensures Viewer.Loads(arr) == []
  {
    if |arr| > 0 {
      NoLoads(arr[1..]);
    }
  }

  /** The trace a one-file batch of a loaded file appends. */
  lemma OneFileTrace(s: State, f: Formats.SourceFile, store: map<String, RelabMeta>)
    requires Ingest(f, store).Loaded?
    ensures var r := Merge(s, Arrivals([f], store));
            |r.traces| == |s.traces| + 1 && r.traces[|s.traces|].data == Ingest(f, store).data
  {
    var arr := Arrivals([f], store);
    assert Viewer.Loads(arr) == [arr[0]];
    var r := Merge(s, arr);
    assert r.traces[|s.traces|..][0] == r.traces[|s.traces|];
  }

  /** The TAB file of a one-file batch as written is read without the label
      loaded since the handler was last rebuilt. */
  lemma StaleLabelIgnored(s: State, f: Formats.SourceFile)
    requires Formats.Extension(f.name) == "tab" && Lower(f.name) !in s.handlerStore
    ensures var r := Batch(s, [f]);
            |r.traces| == |s.traces| + 1 && r.traces[|s.traces|].data == ToMicrons(ParseDpt(f.text))
  {
    OneFileTrace(s, f, s.handlerStore);
  }

  /** The intended batch reads a TAB file with the label loaded for it. */
  lemma IntendedUsesLabel(s: State, f: Formats.SourceFile)
    requires Formats.Extension(f.name) == "tab" && Lower(f.name) in s.labelStore
    ensures var r := BatchIntended(s, [f]);
            && |r.traces| == |s.traces| + 1
            && r.traces[|s.traces|].data == ToMicrons(TabRaw(f.text, Some(s.labelStore[Lower(f.name)])))
  {
    OneFileTrace(s, f, s.labelStore);
  }

  /** The label file dropped on its own and its TAB file dropped next: as
      written the TAB file falls back to `parseDPT`; as intended it is read with
      the label. */
  lemma LabelThenTab(s: State, x: Formats.SourceFile, t: Formats.SourceFile)
    requires Formats.Extension(x.name) == "xml" && Formats.Xml(x.text).Label?
    requires Formats.Extension(t.name) == "tab" && Formats.Xml(x.text).key == Lower(t.name)
    requires Lower(t.name) !in s.handlerStore
    ensures var s1 := Batch(s, [x]);
            && Batch(s1, [t]).traces[|s1.traces|].data == ToMicrons(ParseDpt(t.text))
            && BatchIntended(s1, [t]).traces[|s1.traces|].data
                 == ToMicrons(TabRaw(t.text, Some(Formats.Xml(x.text).meta)))
  {
    var s1 := Batch(s, [x]);
    LabelOnlyBatch(s, [x]);
    var arr := Arrivals([x], s.handlerStore);
    assert arr[|arr| - 1].outcome == Formats.Xml(x.text);
    StaleLabelIgnored(s1, t);
    IntendedUsesLabel(s1, t);
  }

  /** Rows of two whole numbers in a CSV file come back as exactly those
      points: the older build reads every row the same way. */
  lemma CsvRoundTrip(f: Formats.SourceFile, store: map<String, RelabMeta>, pts: seq<(nat, nat)>)
    requires Formats.Extension(f.name) == "csv" && f.csvRows == Formats.NumberRows(pts)
    ensures Ingest(f, store) == Formats.Loaded(FromPoints(Formats.AsReals(pts)), None, false)
  {
    Formats.NumberRowsRead(pts);
    CollectExact(f.csvRows, Formats.PlainRow, Formats.AsReals(pts));
  }

  /** The legend checkbox of the older build: trace `idx` is shown or hidden. */
  function ToggleVisibility(s: State, idx: nat): (r: State)
    requires idx < |s.visibility|
    ensures |r.visibility| == |s.visibility| && r.visibility[idx] == !s.visibility[idx]
    ensures forall i :: 0 <= i < |s.visibility| && i != idx ==> r.visibility[i] == s.visibility[i]
    ensures r.(visibility := s.visibility) == s
  {
    s.(visibility := s.visibility[idx := !s.visibility[idx]])
  }

  /** `clearAll`: with no group list to forget, the lists stay in step; the
      labels stay, and the handler is rebuilt when there were traces to clear. */
  function ClearAll(s: State): (r: State)
    ensures Lockstep(r) && |r.traces| == 0
    ensures r.xRange.None? && r.yRange.None? && r.labelStore == s.labelStore
    ensures r.handlerStore == (if |s.traces| > 0 then s.labelStore else s.handlerStore)
  {
    s.(traces := [], filesInfo := [], visibility := [], xRange := None, yRange := None,
       handlerStore := if |s.traces| > 0 then s.labelStore else s.handlerStore)
  }

  /** After `clearAll` the colours start again from the first one: the older
      build derives them from the number of traces plotted. */
  lemma ColorsRestartAfterClear(s: State, arr: seq<Viewer.Arrival>)
    requires |Viewer.Loads(arr)| > 0
    ensures Merge(ClearAll(s), arr).traces[0].color == Viewer.Palette[0]
  {
    var c := ClearAll(s);
    assert Merge(c, arr).traces[|c.traces|..][0] == Merge(c, arr).traces[0];
  }
}
