/** Reading the PDS4 label (XML) that accompanies a RELAB TAB file. The label is
    not parsed as XML: the source runs a handful of case-insensitive regular
    expressions over the text, and this module reproduces what they match.

    Each pattern is a chain of literal tags, captured digit (or non-`<`) runs and
    lazy gaps `[\s\S]*?`. Every literal here begins with `<`, a captured run never
    contains `<`, and every closing tag begins with `<`, so a captured run is
    always the maximal one. The lazy gaps make the leftmost match of the chain the
    one that takes the earliest occurrence of each step in turn: a later
    occurrence of a step can only leave less text for the steps after it. */
module RelabLabel {
  import opened Wrappers
  import opened Text
  import opened Numbers

  /** Field layout of a RELAB TAB file, keyed by the TAB file's lower-cased name.
      Offsets are 0-based character positions; `recordCount` is the declared
      number of records, absent when the label has no `records` element. */
  datatype RelabMeta = RelabMeta(tabFileName: String, wlLoc: int, wlLen: nat,
                                 rfLoc: int, rfLen: nat, recordCount: Option<nat>)

  /** The two errors `extractRelabMeta` throws. */
  datatype MetaError = FileNameMissing | FieldsMissing

  /** The literal `lit` occurs at `p`, ignoring ASCII case (the `i` flag). */
  predicate MatchesAt(s: String, p: nat, lit: String) {
    p + |lit| <= |s| && MatchesFrom(s, p, lit, 0)
  }

  /** Characters `k` onwards of `lit` occur from `p + k`, ignoring ASCII case. */
  predicate MatchesFrom(s: String, p: nat, lit: String, k: nat)
    requires p + |lit| <= |s|
    decreases |s| - (p + k)
  {
    k >= |lit| || (LowerChar(s[p + k]) == LowerChar(lit[k]) && MatchesFrom(s, p, lit, k + 1))
  }

  /** `MatchesAt` compares `lit` with the text at `p`, character by character. */
  lemma MatchesAtAll(s: String, p: nat, lit: String)
    ensures MatchesAt(s, p, lit) <==>
              p + |lit| <= |s| && forall i :: 0 <= i < |lit| ==> LowerChar(s[p + i]) == LowerChar(lit[i])
  {
    if p + |lit| <= |s| {
      MatchesFromAll(s, p, lit, 0);
    }
  }

  lemma {:induction false} MatchesFromAll(s: String, p: nat, lit: String, k: nat)
    requires p + |lit| <= |s| && k <= |lit|
    ensures MatchesFrom(s, p, lit, k) <==> forall i :: k <= i < |lit| ==> LowerChar(s[p + i]) == LowerChar(lit[i])
    decreases |lit| - k
  {
    if k < |lit| {
      MatchesFromAll(s, p, lit, k + 1);
      assert (forall i :: k <= i < |lit| ==> LowerChar(s[p + i]) == LowerChar(lit[i])) <==>
             LowerChar(s[p + k]) == LowerChar(lit[k]) &&
             forall i :: k + 1 <= i < |lit| ==> LowerChar(s[p + i]) == LowerChar(lit[i]);
    }
  }

  /** `lit` starts at no position from `from` up to, not including, `to`. */
  predicate NoMatchIn(s: String, lit: String, from: nat, to: nat)
    decreases if from < to then to - from else 0
  {
    from >= to || (!MatchesAt(s, from, lit) && NoMatchIn(s, lit, from + 1, to))
  }

  lemma {:induction false} NoMatchInAll(s: String, lit: String, from: nat, to: nat)
    ensures NoMatchIn(s, lit, from, to) <==> (forall p :: from <= p < to ==> !MatchesAt(s, p, lit))
    decreases if from < to then to - from else 0
  {
    if from < to {
      NoMatchInAll(s, lit, from + 1, to);
    }
  }

  /** No literal starts beyond the end of the text: `NoMatchIn` up to `|s| + 1`
      covers every position. */
  lemma NoMatchPastEnd(s: String, lit: String, p: nat)
    requires p > |s|
    ensures !MatchesAt(s, p, lit)
  {
  }

  /** Leftmost occurrence of `lit` at or after `from`. */
  function FindLiteral(s: String, lit: String, from: nat): (r: Option<nat>)
    ensures r.Some? ==> from <= r.value && MatchesAt(s, r.value, lit)
    ensures r.Some? ==> NoMatchIn(s, lit, from, r.value)
    ensures r.None? ==> NoMatchIn(s, lit, from, |s| + 1)
    decreases |s| - from
  {
    if MatchesAt(s, from, lit) then Some(from)
    else if from >= |s| then None
    else FindLiteral(s, lit, from + 1)
  }

  /** A captured run between an opening and a closing literal: its start
      position, its text and the position just after the closing literal. */
  datatype Capture = Capture(start: nat, text: String, end: nat)

  predicate NotLt(c: char) {
    c != '<'
  }

  /** Length of the run of `inRun` characters starting at `q`. */
  function RunFrom(s: String, q: nat, inRun: char -> bool): (n: nat)
    requires q <= |s|
    ensures q + n <= |s|
    decreases |s| - q
  {
    if q < |s| && inRun(s[q]) then 1 + RunFrom(s, q + 1, inRun) else 0
  }

  /** The run `RunFrom` measures is made of `inRun` characters and is maximal. */
  lemma {:induction false} RunFromSpan(s: String, q: nat, inRun: char -> bool)
    requires q <= |s|
    ensures forall i :: q <= i < q + RunFrom(s, q, inRun) ==> inRun(s[i])
    ensures q + RunFrom(s, q, inRun) == |s| || !inRun(s[q + RunFrom(s, q, inRun)])
    decreases |s| - q
  {
    if q < |s| && inRun(s[q]) {
      RunFromSpan(s, q + 1, inRun);
    }
  }

  /** `open (run+) close` at position `p`, where `run` is the character class
      `inRun`. */
  function ElementAt(s: String, p: nat, open: String, close: String, inRun: char -> bool)
    : (r: Option<Capture>)
    ensures r.Some? ==> r.value.start == p && |r.value.text| > 0 && r.value.end <= |s|
    ensures r.Some? ==> forall i :: 0 <= i < |r.value.text| ==> inRun(r.value.text[i])
  {
    if !MatchesAt(s, p, open) then None
    else
      var q := p + |open|;
      var n := RunFrom(s, q, inRun);
      RunFromSpan(s, q, inRun);
      if n > 0 && MatchesAt(s, q + n, close) then Some(Capture(p, s[q..q + n], q + n + |close|))
      else None
  }

  /** No element `open (run+) close` starts from `from` up to, not including,
      `to`. */
  predicate NoElementIn(s: String, from: nat, to: nat, open: String, close: String, inRun: char -> bool)
    decreases if from < to then to - from else 0
  {
    from >= to || (ElementAt(s, from, open, close, inRun).None? && NoElementIn(s, from + 1, to, open, close, inRun))
  }

  lemma {:induction false} NoElementInAll(s: String, from: nat, to: nat, open: String, close: String,
                                          inRun: char -> bool)
    ensures NoElementIn(s, from, to, open, close, inRun) <==>
              (forall p :: from <= p < to ==> ElementAt(s, p, open, close, inRun).None?)
    decreases if from < to then to - from else 0
  {
    if from < to {
      NoElementInAll(s, from + 1, to, open, close, inRun);
    }
  }

  /** Leftmost `open (run+) close` at or after `from`. */
  function FindElement(s: String, from: nat, open: String, close: String, inRun: char -> bool)
    : (r: Option<Capture>)
    ensures r.Some? ==> from <= r.value.start && ElementAt(s, r.value.start, open, close, inRun) == r
    ensures r.Some? ==> NoElementIn(s, from, r.value.start, open, close, inRun)
    ensures r.None? ==> NoElementIn(s, from, |s| + 1, open, close, inRun)
    decreases |s| - from
  {
    var here := ElementAt(s, from, open, close, inRun);
    if here.Some? then here
    else if from >= |s| then None
    else FindElement(s, from + 1, open, close, inRun)
  }

  const FileNameOpen := "<file_name>"
  const FileNameClose := "</file_name>"
  const RecordsOpen := "<records>"
  const RecordsClose := "</records>"
  const FieldOpen := "<Field_Character>"
  const FieldClose := "</Field_Character>"
  const LocationOpen := "<field_location unit=\"byte\">"
  const LocationClose := "</field_location>"
  const LengthOpen := "<field_length unit=\"byte\">"
  const LengthClose := "</field_length>"

  function NameTag(name: String): String {
    "<name>" + name + "</name>"
  }

  /** The 1-based location and the length of the field named `name`: from the
      first `Field_Character` opening tag, the first name tag for `name`, then
      the first location element, the first length element after it and a
      closing `Field_Character` tag, each searched lazily from where the
      previous one ends and ignoring ASCII case. A match starting at a later
      opening tag is also a match from the first one, since the lazy gaps may
      span anything, so the expression reports the earliest choice at every
      step. */
  function FindField(s: String, name: String): Option<(nat, nat)> {
    match FindLiteral(s, FieldOpen, 0)
    case None => None
    case Some(p) =>
      match FindLiteral(s, NameTag(name), After(p, FieldOpen))
      case None => None
      case Some(a) => FieldTail(s, After(a, NameTag(name)))
  }

  /** The position just after `lit` when it stands at `p`. */
  function After(p: nat, lit: String): nat {
    p + |lit|
  }

  /** The part of a field block after its name: the location, then the length,
      then the closing tag, each the leftmost one after the previous step. */
  function FieldTail(s: String, from: nat): Option<(nat, nat)> {
    match FindElement(s, from, LocationOpen, LocationClose, IsDigit)
    case None => None
    case Some(loc) =>
      match FindElement(s, loc.end, LengthOpen, LengthClose, IsDigit)
      case None => None
      case Some(len) =>
        if FindLiteral(s, FieldClose, len.end).Some? then
          Some((DigitsValue(loc.text), DigitsValue(len.text)))
        else None
  }

  /** The first `file_name` element with a non-empty body free of `<`. */
  function FindFileName(s: String): Option<Capture> {
    FindElement(s, 0, FileNameOpen, FileNameClose, NotLt)
  }

  /** The first `records` element whose body is one or more digits. */
  function FindRecords(s: String): Option<Capture> {
    FindElement(s, 0, RecordsOpen, RecordsClose, IsDigit)
  }

  /** `extractRelabMeta`: the TAB file name (trimmed and lower-cased), the record
      count if declared, and the two fields with their locations made 0-based. */
  function ExtractRelabMeta(xml: String): (r: Result<RelabMeta, MetaError>)
    ensures r == Failure(FileNameMissing) <==> FindFileName(xml).None?
    ensures r == Failure(FieldsMissing) <==>
              FindFileName(xml).Some? && (FindField(xml, "Wavelength").None? || FindField(xml, "Reflectance").None?)
    ensures r.Success? ==>
              var m := r.value;
              && m.tabFileName == Lower(Trim(FindFileName(xml).value.text))
              && m.wlLoc + 1 == FindField(xml, "Wavelength").value.0
              && m.wlLen == FindField(xml, "Wavelength").value.1
              && m.rfLoc + 1 == FindField(xml, "Reflectance").value.0
              && m.rfLen == FindField(xml, "Reflectance").value.1
              && (m.recordCount.None? <==> FindRecords(xml).None?)
  {
    match FindFileName(xml)
    case None => Failure(FileNameMissing)
    case Some(fileName) =>
      var recordCount := match FindRecords(xml)
        case Some(c) => Some(DigitsValue(c.text))
        case None => None;
      var wl := FindField(xml, "Wavelength");
      var rf := FindField(xml, "Reflectance");
      if wl.None? || rf.None? then Failure(FieldsMissing)
      else Success(RelabMeta(Lower(Trim(fileName.text)), wl.value.0 - 1, wl.value.1,
                             rf.value.0 - 1, rf.value.1, recordCount))
  }
}
