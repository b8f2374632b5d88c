/** Reading RELAB TAB files: the fixed-width parser driven by a label's field
    layout (`parseRelabTab`), and the recogniser and reader for TAB files that
    describe themselves with a leading record count (`isRelabTabFile` and the
    inline reader of the TAB branch). */
module RelabTab {
  import opened Wrappers
  import opened Text
  import opened Numbers
  import opened Series
  import opened RelabLabel

  /** The lines of a TAB file, with CR LF and lone CR both taken as line breaks. */
  function TabLines(text: String): seq<String> {
    Split(NormalizeNewlines(text), '\n')
  }

  /** The truthiness test `recordCount && …`: a count of 0 is treated as absent. */
  predicate HasLimit(m: RelabMeta) {
    m.recordCount.Some? && m.recordCount.value > 0
  }

  /** `Math.max(wlLoc + wlLen, rfLoc + rfLen)`: the shortest line that holds both fields. */
  function RowWidth(m: RelabMeta): int {
    if m.wlLoc + m.wlLen >= m.rfLoc + m.rfLen then m.wlLoc + m.wlLen else m.rfLoc + m.rfLen
  }

  /** The two fixed-width fields of a line, trimmed and converted with `Number`. */
  function FieldPoint(ln: String, m: RelabMeta): Option<Point> {
    var wl := Trim(Slice(ln, m.wlLoc, m.wlLoc + m.wlLen));
    var rf := Trim(Slice(ln, m.rfLoc, m.rfLoc + m.rfLen));
    if wl == [] || rf == [] then None else NumberPair(wl, rf)
  }

  /** What one iteration of the `parseRelabTab` loop does with a line. */
  datatype RowKind =
    | Blank           // skipped: nothing but white space
    | CountHeader     // skipped: the record-count line
    | MetaStart       // loop ends: a line starting with a letter
    | Short           // skipped: shorter than the field layout
    | Unreadable      // skipped: a field is blank or not a finite number
    | Row(p: Point)   // a data point

  function Classify(ln: String, m: RelabMeta, skipped: bool): RowKind {
    var stripped := Trim(ln);
    if stripped == [] then Blank
    else if !skipped && HasLimit(m) && AllDigits(stripped)
            && DigitsValue(stripped) == m.recordCount.value then CountHeader
    else if IsAsciiLetter(stripped[0]) then MetaStart
    else if |ln| < RowWidth(m) then Short
    else match FieldPoint(ln, m)
      case Some(p) => Row(p)
      case None => Unreadable
  }

  function Rows(w: seq<RowKind>): (pts: seq<Point>)
    ensures |pts| <= |w|
  {
    if |w| == 0 then [] else (if w[0].Row? then [w[0].p] else []) + Rows(w[1..])
  }

  function Headers(w: seq<RowKind>): nat {
    if |w| == 0 then 0 else (if w[0].CountHeader? then 1 else 0) + Headers(w[1..])
  }

  lemma Cons(k: RowKind, w: seq<RowKind>)
    ensures Rows([k] + w) == (if k.Row? then [k.p] else []) + Rows(w)
    ensures Headers([k] + w) == (if k.CountHeader? then 1 else 0) + Headers(w)
  {
    assert ([k] + w)[1..] == w;
  }

  lemma ConsShape(k: RowKind, rest: seq<RowKind>)
    requires !k.MetaStart? && forall i :: 0 <= i < |rest| - 1 ==> !rest[i].MetaStart?
    ensures var w := [k] + rest;
            && |w| == |rest| + 1 && w[0] == k
            && (forall i :: 0 <= i < |w| - 1 ==> !w[i].MetaStart?)
            && (|rest| > 0 ==> w[|w| - 1] == rest[|rest| - 1])
  {
    var w := [k] + rest;
    assert forall i :: 1 <= i < |w| ==> w[i] == rest[i - 1];
  }

  /** The record count as a loop bound, 0 when there is none. */
  function Limit(m: RelabMeta): (n: nat)
    ensures n > 0 <==> HasLimit(m)
  {
    if HasLimit(m) then m.recordCount.value else 0
  }

  /** The kinds of the lines the loop visits, in order. `step` classifies one
      line given the `headerSkipped` flag, `limit` is the record count (0 for
      none) and `taken` the number of points already pushed. */
  function Walk(lines: seq<String>, step: (String, bool) -> RowKind, limit: nat,
                skipped: bool, taken: nat): (w: seq<RowKind>)
    requires limit > 0 ==> taken < limit
    requires forall ln :: !step(ln, true).CountHeader?
    ensures |w| <= |lines|
    ensures |w| > 0 ==> w[0] == step(lines[0], skipped)
    ensures Headers(w) <= (if skipped then 0 else 1)
    ensures limit > 0 ==> taken + |Rows(w)| <= limit
    ensures forall i :: 0 <= i < |w| - 1 ==> !w[i].MetaStart?
    ensures |w| < |lines| ==> |w| > 0 && (w[|w| - 1].MetaStart? || (limit > 0 && taken + |Rows(w)| == limit))
    decreases |lines|
  {
    if |lines| == 0 then []
    else
      var k := step(lines[0], skipped);
      if k.MetaStart? then
        Cons(k, []);
        [k]
      else if k.Row? && limit > 0 && taken + 1 >= limit then
        Cons(k, []);
        [k]
      else
        var skipped' := skipped || k.CountHeader?;
        var taken' := if k.Row? then taken + 1 else taken;
        var rest := Walk(lines[1..], step, limit, skipped', taken');
        Cons(k, rest);
        ConsShape(k, rest);
        [k] + rest
  }

  /** One iteration of the loop for the layout `m`; once the count line has been
      skipped no line is taken for it again. */
  function Step(m: RelabMeta): (step: (String, bool) -> RowKind)
    ensures forall ln :: !step(ln, true).CountHeader?
  {
    (ln: String, skipped: bool) => Classify(ln, m, skipped)
  }

  /** `parseRelabTab` throws this when no point was read. */
  datatype TabError = NoNumericData

  /** The fixed-width reader: the points the line walk collects, in order, and
      an error exactly when it collects none. */
  function ParseRelabTab(text: String, m: RelabMeta): (r: Result<Series, TabError>)
    ensures var pts := Rows(Walk(TabLines(text), Step(m), Limit(m), false, 0));
            (r.Failure? <==> pts == []) && (r.Success? ==> r.value == FromPoints(pts))
    ensures r.Success? ==> |r.value.x| == |r.value.y| && |r.value.x| > 0
    ensures r.Success? && HasLimit(m) ==> |r.value.x| <= m.recordCount.value
  {
    var pts := Rows(Walk(TabLines(text), Step(m), Limit(m), false, 0));
    if |pts| == 0 then Failure(NoNumericData) else Success(FromPoints(pts))
  }

  /** A line whose trimmed text starts with a letter ends the data: nothing after
      it is read, whatever the loop state. */
  lemma {:induction false} StopsAtMetaLine(pre: seq<String>, meta: String, post: seq<String>,
                                           m: RelabMeta, skipped: bool, taken: nat)
    requires Trim(meta) != [] && IsAsciiLetter(Trim(meta)[0])
    requires HasLimit(m) ==> taken < m.recordCount.value
    ensures Rows(Walk(pre + [meta] + post, Step(m), Limit(m), skipped, taken))
         == Rows(Walk(pre, Step(m), Limit(m), skipped, taken))
  {
    var step := Step(m);
    if |pre| == 0 {
      assert pre + [meta] + post == [meta] + post;
      assert !IsDigit(Trim(meta)[0]);
      assert step(meta, skipped) == MetaStart;
      Cons(MetaStart, []);
    } else {
      var lines := pre + [meta] + post;
      assert lines[0] == pre[0];
      assert lines[1..] == pre[1..] + [meta] + post;
      var k := step(pre[0], skipped);
      if !k.MetaStart? && !(k.Row? && Limit(m) > 0 && taken + 1 >= Limit(m)) {
        var skipped' := skipped || k.CountHeader?;
        var taken' := if k.Row? then taken + 1 else taken;
        StopsAtMetaLine(pre[1..], meta, post, m, skipped', taken');
        Cons(k, Walk(lines[1..], step, Limit(m), skipped', taken'));
        Cons(k, Walk(pre[1..], step, Limit(m), skipped', taken'));
      }
    }
  }

  /** `parseRelabTab` throws when the text opens with a letter-initial line:
      the loop ends before reading any point. */
  lemma LetterFirstLineFails(text: String, m: RelabMeta)
    requires var t := Trim(TabLines(text)[0]); t != [] && IsAsciiLetter(t[0])
    ensures ParseRelabTab(text, m) == Failure(NoNumericData)
  {
    var lines := TabLines(text);
    assert !IsDigit(Trim(lines[0])[0]);
    assert Step(m)(lines[0], false) == MetaStart;
    assert Walk(lines, Step(m), Limit(m), false, 0) == [MetaStart];
  }

  /** The kinds of line the loop passes over without changing its state. */
  predicate Passed(k: RowKind) {
    k.Blank? || k.Short? || k.Unreadable?
  }

  /** A line the loop passes over, whatever the `headerSkipped` flag, can be
      taken out without changing the points read. */
  lemma {:induction false} PassedLineIgnored(pre: seq<String>, ln: String, post: seq<String>,
                                             step: (String, bool) -> RowKind, limit: nat,
                                             skipped: bool, taken: nat)
    requires forall x :: !step(x, true).CountHeader?
    requires Passed(step(ln, false)) && Passed(step(ln, true))
    requires limit > 0 ==> taken < limit
    ensures Rows(Walk(pre + [ln] + post, step, limit, skipped, taken))
         == Rows(Walk(pre + post, step, limit, skipped, taken))
  {
    var lines := pre + [ln] + post;
    var short := pre + post;
    if |pre| == 0 {
      assert lines == [ln] + post && short == post;
      assert lines[1..] == post;
      assert lines[0] == ln;
      WalkFirst(lines, step, limit, skipped, taken);
    } else {
      assert lines[0] == pre[0] && short[0] == pre[0];
      assert lines[1..] == pre[1..] + [ln] + post;
      assert short[1..] == pre[1..] + post;
      WalkFirst(lines, step, limit, skipped, taken);
      WalkFirst(short, step, limit, skipped, taken);
      var k := step(pre[0], skipped);
      if !k.MetaStart? && !(k.Row? && limit > 0 && taken + 1 >= limit) {
        PassedLineIgnored(pre[1..], ln, post, step, limit, skipped || k.CountHeader?,
                          if k.Row? then taken + 1 else taken);
      }
    }
  }

  /** The points of a walk: those of its first line, then those of the walk
      over the rest, unless the first line ends it. */
  lemma WalkFirst(lines: seq<String>, step: (String, bool) -> RowKind, limit: nat,
                  skipped: bool, taken: nat)
    requires |lines| > 0
    requires limit > 0 ==> taken < limit
    requires forall x :: !step(x, true).CountHeader?
    ensures var k := step(lines[0], skipped);
            Rows(Walk(lines, step, limit, skipped, taken))
            == if k.MetaStart? then []
               else if k.Row? && limit > 0 && taken + 1 >= limit then [k.p]
               else (if k.Row? then [k.p] else [])
                    + Rows(Walk(lines[1..], step, limit, skipped || k.CountHeader?,
                                if k.Row? then taken + 1 else taken))
  {
    var k := step(lines[0], skipped);
    if k.MetaStart? || (k.Row? && limit > 0 && taken + 1 >= limit) {
      Cons(k, []);
    } else {
      Cons(k, Walk(lines[1..], step, limit, skipped || k.CountHeader?, if k.Row? then taken + 1 else taken));
    }
  }

  /** Blank lines, and lines too short for the field layout that are neither
      letter-initial nor a digit string, contribute nothing. */
  lemma ShortLineIgnored(pre: seq<String>, ln: String, post: seq<String>, m: RelabMeta)
    requires |pre + post| >= 1
    requires forall i :: 0 <= i < |pre + [ln] + post| ==>
               '\n' !in (pre + [ln] + post)[i] && '\r' !in (pre + [ln] + post)[i]
    requires Trim(ln) == [] || (|ln| < RowWidth(m) && !IsAsciiLetter(Trim(ln)[0]) && !AllDigits(Trim(ln)))
    ensures ParseRelabTab(Join(pre + [ln] + post, '\n'), m) == ParseRelabTab(Join(pre + post, '\n'), m)
  {
    var lines := pre + [ln] + post;
    var short := pre + post;
    forall i | 0 <= i < |short| ensures '\n' !in short[i] && '\r' !in short[i] {
      if i < |pre| {
        assert short[i] == lines[i];
      } else {
        assert short[i] == lines[i + 1];
      }
    }
    TabLinesOfJoin(lines);
    TabLinesOfJoin(short);
    ShortLineKinds(ln, m);
    PassedLineIgnored(pre, ln, post, Step(m), Limit(m), false, 0);
  }

  lemma ShortLineKinds(ln: String, m: RelabMeta)
    requires Trim(ln) == [] || (|ln| < RowWidth(m) && !IsAsciiLetter(Trim(ln)[0]) && !AllDigits(Trim(ln)))
    ensures Passed(Step(m)(ln, false)) && Passed(Step(m)(ln, true))
  {
  }

  function Spaces(n: nat): (s: String)
    ensures |s| == n && AllSpace(s)
  {
    seq(n, _ => ' ')
  }

  /** A number right-aligned in a field of width `w`, as RELAB files are written. */
  function PadLeft(s: String, w: nat): (r: String)
    requires |s| <= w
    ensures |r| == w
  {
    Spaces(w - |s|) + s
  }

  lemma TrimPadded(ds: String, w: nat)
    requires |ds| >= 1 && AllDigits(ds) && |ds| <= w
    ensures Trim(PadLeft(ds, w)) == ds
  {
    var p := PadLeft(ds, w);
    TrimLeadingSpaces(Spaces(w - |ds|), ds);
    var a := LeadingSpaces(p);
    assert p[a..] == ds;
    assert TrailingSpaces(ds) == 0;
  }

  /** The data line holding `x` and `y` right-aligned in fields of widths `wl` and `rf`. */
  function FixedRow(x: nat, y: nat, wl: nat, rf: nat): String
    requires |FormatNat(x)| <= wl && |FormatNat(y)| <= rf
  {
    PadLeft(FormatNat(x), wl) + PadLeft(FormatNat(y), rf)
  }

  /** The layout with the wavelength field in the first `wl` columns, the
      reflectance field in the next `rf`, and `n` declared records. */
  function FixedLayout(name: String, wl: nat, rf: nat, n: nat): RelabMeta {
    RelabMeta(name, 0, wl, wl, rf, Some(n))
  }

  predicate Fits(pairs: seq<(nat, nat)>, wl: nat, rf: nat) {
    forall i :: 0 <= i < |pairs| ==> |FormatNat(pairs[i].0)| <= wl && |FormatNat(pairs[i].1)| <= rf
  }

  function FixedRows(pairs: seq<(nat, nat)>, wl: nat, rf: nat): (rows: seq<String>)
    requires Fits(pairs, wl, rf)
    ensures |rows| == |pairs|
    ensures forall i :: 0 <= i < |pairs| ==> rows[i] == FixedRow(pairs[i].0, pairs[i].1, wl, rf)
  {
    seq(|pairs|, i requires 0 <= i < |pairs| => FixedRow(pairs[i].0, pairs[i].1, wl, rf))
  }

  /** A RELAB TAB body: the record count on its own line, then one fixed-width
      line per pair. */
  function FixedBody(pairs: seq<(nat, nat)>, wl: nat, rf: nat): seq<String>
    requires Fits(pairs, wl, rf)
  {
    [FormatNat(|pairs|)] + FixedRows(pairs, wl, rf)
  }

  /** A line that is neither blank nor letter-initial, is long enough and holds
      two readable fields is a data point once the count line has been passed. */
  lemma ClassifyRow(ln: String, m: RelabMeta, p: Point)
    requires Trim(ln) != [] && !IsAsciiLetter(Trim(ln)[0])
    requires |ln| >= RowWidth(m) && FieldPoint(ln, m) == Some(p)
    ensures Classify(ln, m, true) == Row(p)
  {
  }

  lemma PaddedStart(pad: String, rest: String)
    requires AllSpace(pad) && |rest| > 0 && IsDigit(rest[0])
    ensures var t := Trim(pad + rest); t != [] && IsDigit(t[0])
  {
    TrimLeadingSpaces(pad, rest);
    var a := LeadingSpaces(pad + rest);
    assert (pad + rest)[a] == rest[0];
  }

  lemma FixedRowStart(x: nat, y: nat, wl: nat, rf: nat)
    requires |FormatNat(x)| <= wl && |FormatNat(y)| <= rf
    ensures var t := Trim(FixedRow(x, y, wl, rf)); t != [] && IsDigit(t[0])
  {
    var fx := FormatNat(x);
    var rest := fx + PadLeft(FormatNat(y), rf);
    FixedRowSplit(x, y, wl, rf);
    PaddedStart(Spaces(wl - |fx|), rest);
  }

  lemma FixedRowSplit(x: nat, y: nat, wl: nat, rf: nat)
    requires |FormatNat(x)| <= wl && |FormatNat(y)| <= rf
    ensures var fx := FormatNat(x);
            FixedRow(x, y, wl, rf) == Spaces(wl - |fx|) + (fx + PadLeft(FormatNat(y), rf))
            && |fx| > 0 && IsDigit(fx[0])
  {
    var fx := FormatNat(x);
    assert FixedRow(x, y, wl, rf) == Spaces(wl - |fx|) + (fx + PadLeft(FormatNat(y), rf));
  }

  lemma FieldPointOf(ln: String, m: RelabMeta, a: String, b: String, p: real, q: real)
    requires Trim(Slice(ln, m.wlLoc, m.wlLoc + m.wlLen)) == a && a != []
    requires Trim(Slice(ln, m.rfLoc, m.rfLoc + m.rfLen)) == b && b != []
    requires ParseNumber(a) == Some(p) && ParseNumber(b) == Some(q)
    ensures FieldPoint(ln, m) == Some((p, q))
  {
    NumberPairOf(a, b, p, q);
  }

  lemma NumberPairOf(a: String, b: String, p: real, q: real)
    requires ParseNumber(a) == Some(p) && ParseNumber(b) == Some(q)
    ensures NumberPair(a, b) == Some((p, q))
  {
    var r := NumberPair(a, b);
    assert r.Some?;
    assert ParseNumber(a) == Some(r.value.0) && ParseNumber(b) == Some(r.value.1);
  }

  lemma FixedRowFields(x: nat, y: nat, m: RelabMeta)
    requires m.wlLoc == 0 && m.rfLoc == m.wlLen
    requires |FormatNat(x)| <= m.wlLen && |FormatNat(y)| <= m.rfLen
    ensures var row := FixedRow(x, y, m.wlLen, m.rfLen);
            |row| == RowWidth(m) && FieldPoint(row, m) == Some((x as real, y as real))
  {
    var wl, rf := m.wlLen, m.rfLen;
    var fx, fy := FormatNat(x), FormatNat(y);
    FixedRowSlices(x, y, wl, rf);
    TrimPadded(fx, wl);
    TrimPadded(fy, rf);
    FormatNatParses(x);
    FormatNatParses(y);
    FieldPointOf(FixedRow(x, y, wl, rf), m, fx, fy, x as real, y as real);
  }

  lemma FixedRowSlices(x: nat, y: nat, wl: nat, rf: nat)
    requires |FormatNat(x)| <= wl && |FormatNat(y)| <= rf
    ensures var row := FixedRow(x, y, wl, rf);
            && |row| == wl + rf
            && Slice(row, 0, wl) == PadLeft(FormatNat(x), wl)
            && Slice(row, wl, wl + rf) == PadLeft(FormatNat(y), rf)
  {
    var a, b := PadLeft(FormatNat(x), wl), PadLeft(FormatNat(y), rf);
    var row := FixedRow(x, y, wl, rf);
    assert row == a + b;
    assert Slice(row, 0, wl) == a by { assert (a + b)[0..wl] == a; }
    assert Slice(row, wl, wl + rf) == b by { assert (a + b)[wl..wl + rf] == b; }
  }

  lemma RowIsRead(x: nat, y: nat, m: RelabMeta)
    requires m.wlLoc == 0 && m.rfLoc == m.wlLen
    requires |FormatNat(x)| <= m.wlLen && |FormatNat(y)| <= m.rfLen
    ensures Classify(FixedRow(x, y, m.wlLen, m.rfLen), m, true) == Row((x as real, y as real))
  {
    FixedRowStart(x, y, m.wlLen, m.rfLen);
    FixedRowFields(x, y, m);
    ClassifyRow(FixedRow(x, y, m.wlLen, m.rfLen), m, (x as real, y as real));
  }

  function AsPoints(pairs: seq<(nat, nat)>): (pts: seq<Point>)
    ensures |pts| == |pairs|
    ensures forall i :: 0 <= i < |pairs| ==> pts[i] == (pairs[i].0 as real, pairs[i].1 as real)
  {
    seq(|pairs|, i requires 0 <= i < |pairs| => (pairs[i].0 as real, pairs[i].1 as real))
  }

  /** Lines that are all data points, as many as the record count still allows,
      are all read. */
  lemma {:induction false} WalkAllRows(lines: seq<String>, step: (String, bool) -> RowKind,
                                       limit: nat, taken: nat, pts: seq<Point>)
    requires |lines| == |pts| > 0 && limit == taken + |lines|
    requires forall ln :: !step(ln, true).CountHeader?
    requires forall i :: 0 <= i < |lines| ==> step(lines[i], true) == Row(pts[i])
    ensures Rows(Walk(lines, step, limit, true, taken)) == pts
    decreases |lines|
  {
    var k := step(lines[0], true);
    if |lines| == 1 {
      Cons(k, []);
    } else {
      WalkAllRows(lines[1..], step, limit, taken + 1, pts[1..]);
      Cons(k, Walk(lines[1..], step, limit, true, taken + 1));
      assert pts == [pts[0]] + pts[1..];
    }
  }

  /** The count line followed by data lines: the count line is skipped and every
      data line is read. */
  lemma CountThenRows(lines: seq<String>, step: (String, bool) -> RowKind, pts: seq<Point>)
    requires |lines| == |pts| + 1 && |pts| > 0
    requires forall ln :: !step(ln, true).CountHeader?
    requires step(lines[0], false) == CountHeader
    requires forall i :: 0 <= i < |pts| ==> step(lines[i + 1], true) == Row(pts[i])
    ensures Rows(Walk(lines, step, |pts|, false, 0)) == pts
  {
    WalkAllRows(lines[1..], step, |pts|, 0, pts);
    Cons(CountHeader, Walk(lines[1..], step, |pts|, true, 0));
  }

  lemma CountLineIsHeader(m: RelabMeta)
    requires HasLimit(m)
    ensures Step(m)(FormatNat(m.recordCount.value), false) == CountHeader
  {
    var count := FormatNat(m.recordCount.value);
    TrimOfTrimmedEnds(count);
  }

  lemma NoCharInJoin(parts: seq<String>, sep: char, c: char)
    requires |parts| >= 1 && sep != c
    requires forall i :: 0 <= i < |parts| ==> c !in parts[i]
    ensures c !in Join(parts, sep)
  {
    if |parts| > 1 { NoCharInJoin(parts[1..], sep, c); }
  }

  lemma TabLinesOfJoin(lines: seq<String>)
    requires |lines| >= 1
    requires forall i :: 0 <= i < |lines| ==> '\n' !in lines[i] && '\r' !in lines[i]
    ensures TabLines(Join(lines, '\n')) == lines
  {
    NoCharInJoin(lines, '\n', '\r');
    SplitJoin(lines, '\n');
  }

  predicate DigitsOrBlanks(s: String) {
    forall j :: 0 <= j < |s| ==> s[j] == ' ' || IsDigit(s[j])
  }

  lemma NoBreaks(s: String)
    requires DigitsOrBlanks(s)
    ensures '\n' !in s && '\r' !in s
  {
    assert forall j :: 0 <= j < |s| ==> s[j] != '\n' && s[j] != '\r';
  }

  lemma FixedRowChars(x: nat, y: nat, wl: nat, rf: nat)
    requires |FormatNat(x)| <= wl && |FormatNat(y)| <= rf
    ensures DigitsOrBlanks(FixedRow(x, y, wl, rf))
  {
    var a, b := PadLeft(FormatNat(x), wl), PadLeft(FormatNat(y), rf);
    assert DigitsOrBlanks(a) && DigitsOrBlanks(b);
    assert FixedRow(x, y, wl, rf) == a + b;
  }

  lemma FixedBodyHasNoBreaks(pairs: seq<(nat, nat)>, wl: nat, rf: nat)
    requires Fits(pairs, wl, rf)
    ensures var body := FixedBody(pairs, wl, rf);
            forall i :: 0 <= i < |body| ==> '\n' !in body[i] && '\r' !in body[i]
  {
    var body := FixedBody(pairs, wl, rf);
    forall i | 0 <= i < |body| ensures '\n' !in body[i] && '\r' !in body[i] {
      if i == 0 {
        assert DigitsOrBlanks(FormatNat(|pairs|));
        NoBreaks(body[0]);
      } else {
        FixedRowChars(pairs[i - 1].0, pairs[i - 1].1, wl, rf);
        NoBreaks(body[i]);
      }
    }
  }

  lemma FixedRowsAreRead(pairs: seq<(nat, nat)>, wl: nat, rf: nat, name: String)
    requires Fits(pairs, wl, rf)
    ensures var rows := FixedRows(pairs, wl, rf);
            forall i :: 0 <= i < |rows| ==>
              Step(FixedLayout(name, wl, rf, |pairs|))(rows[i], true) == Row(AsPoints(pairs)[i])
  {
    var m := FixedLayout(name, wl, rf, |pairs|);
    var rows := FixedRows(pairs, wl, rf);
    forall i | 0 <= i < |rows| ensures Step(m)(rows[i], true) == Row(AsPoints(pairs)[i]) {
      RowIsRead(pairs[i].0, pairs[i].1, m);
    }
  }

  /** Round trip: a TAB body written from a label's layout with its record-count
      line reads back as exactly the pairs that were written, in order. */
  lemma RelabTabRoundTrip(pairs: seq<(nat, nat)>, wl: nat, rf: nat, name: String)
    requires |pairs| > 0 && Fits(pairs, wl, rf)
    ensures ParseRelabTab(Join(FixedBody(pairs, wl, rf), '\n'), FixedLayout(name, wl, rf, |pairs|))
         == Success(FromPoints(AsPoints(pairs)))
  {
    var m := FixedLayout(name, wl, rf, |pairs|);
    var body := FixedBody(pairs, wl, rf);
    FixedBodyHasNoBreaks(pairs, wl, rf);
    TabLinesOfJoin(body);
    CountLineIsHeader(m);
    FixedRowsAreRead(pairs, wl, rf, name);
    CountThenRows(body, Step(m), AsPoints(pairs));
  }
}
