/** A minimal RELAB label rendered from a field layout, and the proof that
    `extractRelabMeta` reads that layout back. The label holds the file name,
    the record count and two field blocks, Wavelength first:

      <file_name>NAME</file_name><records>N</records>
      <Field_Character><name>Wavelength</name>
        <field_location unit="byte">A</field_location>
        <field_length unit="byte">B</field_length></Field_Character>
      <Field_Character><name>Reflectance</name> ... </Field_Character>

    (without the line breaks). Every search of the reader either finds its
    literal where the label put it or passes over text that cannot start the
    literal: stretches without `<`, and tags that differ from the literal at
    some position, ignoring case. */
module LabelRender {
  import opened Wrappers
  import opened Text
  import opened Numbers
  import opened RelabLabel

  // ---------------------------------------------------------------- searching

  /** `s` holds `t` at position `p`. */
  predicate HoldsAt(s: String, p: nat, t: String) {
    p + |t| <= |s| && s[p..p + |t|] == t
  }

  lemma HoldsSplit(s: String, p: nat, a: String, b: String)
    requires HoldsAt(s, p, a + b)
    ensures HoldsAt(s, p, a) && HoldsAt(s, p + |a|, b) && HoldsAt(s, After(p, a), b)
  {
    assert s[p..p + |a|] == s[p..p + |a + b|][..|a|];
    assert s[p + |a|..p + |a| + |b|] == s[p..p + |a + b|][|a|..];
  }

  predicate LtFree(t: String) {
    forall q :: 0 <= q < |t| ==> t[q] != '<'
  }

  /** No literal starting with `<` starts inside a stretch without `<`. */
  lemma TextSkip(s: String, p: nat, t: String, lit: String)
    requires HoldsAt(s, p, t) && LtFree(t) && |lit| > 0 && lit[0] == '<'
    ensures forall x :: p <= x < p + |t| ==> !MatchesAt(s, x, lit)
  {
    forall x | p <= x < p + |t| ensures !MatchesAt(s, x, lit) {
      assert s[x] == t[x - p];
    }
  }

  /** No literal starting with `<` starts inside a tag that has no other `<` and
      differs from the literal at index `j`, ignoring case. */
  lemma TagSkip(s: String, p: nat, t: String, lit: String, j: nat)
    requires HoldsAt(s, p, t) && |t| > 0 && t[0] == '<' && LtFree(t[1..])
    requires |lit| > 0 && lit[0] == '<'
    requires 0 < j < |t| && j < |lit| && LowerChar(t[j]) != LowerChar(lit[j])
    ensures forall x :: p <= x < p + |t| ==> !MatchesAt(s, x, lit)
  {
    assert !MatchesAt(s, p, lit) by {
      if p + |lit| <= |s| {
        assert s[p + j] == s[p..p + |t|][j] == t[j];
        MatchesAtAll(s, p, lit);
      }
    }
    HoldsSplit(s, p, t[..1], t[1..]);
    assert t[..1] + t[1..] == t;
    TextSkip(s, p + 1, t[1..], lit);
  }

  /** A search passes over positions where its literal does not start. */
  lemma {:induction false} FindLiteralSkip(s: String, lit: String, from: nat, stop: nat)
    requires from <= stop <= |s|
    requires forall x :: from <= x < stop ==> !MatchesAt(s, x, lit)
    ensures FindLiteral(s, lit, from) == FindLiteral(s, lit, stop)
    decreases stop - from
  {
    if from < stop {
      FindLiteralSkip(s, lit, from + 1, stop);
    }
  }

  /** An element search passes over positions where its opening tag does not
      start. */
  lemma {:induction false} FindElementSkip(s: String, from: nat, stop: nat, open: String, close: String,
                                           inRun: char -> bool)
    requires from <= stop <= |s|
    requires forall x :: from <= x < stop ==> !MatchesAt(s, x, open)
    ensures FindElement(s, from, open, close, inRun) == FindElement(s, stop, open, close, inRun)
    decreases stop - from
  {
    if from < stop {
      assert !MatchesAt(s, from, open);
      assert ElementAt(s, from, open, close, inRun).None?;
      FindElementSkip(s, from + 1, stop, open, close, inRun);
    }
  }

  function Concat(ps: seq<String>): String {
    if |ps| == 0 then [] else ps[0] + Concat(ps[1..])
  }

  /** A stretch that `lit` cannot start inside: a tag that has no other `<` and
      differs from `lit` at index `j`, or, for `j` zero, text without `<`. */
  predicate Passable(t: String, lit: String, j: nat) {
    && |lit| > 0 && lit[0] == '<'
    && if j == 0 then LtFree(t)
       else |t| > 0 && t[0] == '<' && LtFree(t[1..]) && j < |t| && j < |lit|
            && LowerChar(t[j]) != LowerChar(lit[j])
  }

  lemma NoStartIn(s: String, p: nat, t: String, lit: String, j: nat)
    requires HoldsAt(s, p, t) && Passable(t, lit, j)
    ensures forall x :: p <= x < p + |t| ==> !MatchesAt(s, x, lit)
  {
    if j == 0 {
      TextSkip(s, p, t, lit);
    } else {
      TagSkip(s, p, t, lit, j);
    }
  }

  /** No start of `lit` anywhere in a run of passable stretches. */
  lemma {:induction false} PassAll(s: String, p: nat, ps: seq<String>, lit: String, js: seq<nat>)
    requires |js| == |ps| && HoldsAt(s, p, Concat(ps))
    decreases |ps|
    requires forall k :: 0 <= k < |ps| ==> Passable(ps[k], lit, js[k])
    ensures p + |Concat(ps)| <= |s|
    ensures forall x :: p <= x < p + |Concat(ps)| ==> !MatchesAt(s, x, lit)
  {
    if |ps| > 0 {
      HoldsSplit(s, p, ps[0], Concat(ps[1..]));
      NoStartIn(s, p, ps[0], lit, js[0]);
      assert Passable(ps[0], lit, js[0]);
      forall k | 0 <= k < |ps| - 1 ensures Passable(ps[1..][k], lit, js[1..][k]) {
        assert ps[1..][k] == ps[k + 1] && js[1..][k] == js[k + 1];
      }
      PassAll(s, p + |ps[0]|, ps[1..], lit, js[1..]);
    }
  }

  /** An element standing right after passable stretches is the one found. */
  lemma ElementAfter(s: String, pre: seq<String>, js: seq<nat>, open: String, text: String, close: String,
                     inRun: char -> bool)
    requires |js| == |pre| && HoldsAt(s, 0, Concat(pre) + (open + text + close))
    requires forall k :: 0 <= k < |pre| ==> Passable(pre[k], open, js[k])
    requires |text| > 0 && (forall i :: 0 <= i < |text| ==> inRun(text[i]))
    requires |close| > 0 && !inRun(close[0])
    ensures var q := |Concat(pre)|;
            FindElement(s, 0, open, close, inRun) == Some(Capture(q, text, q + |open| + |text| + |close|))
  {
    var q := |Concat(pre)|;
    HoldsSplit(s, 0, Concat(pre), open + text + close);
    SkipPre(s, pre, js, open, close, inRun);
    ElementHere(s, q, open, text, close, inRun);
  }

  lemma SkipPre(s: String, pre: seq<String>, js: seq<nat>, open: String, close: String, inRun: char -> bool)
    requires |js| == |pre| && HoldsAt(s, 0, Concat(pre))
    requires forall k :: 0 <= k < |pre| ==> Passable(pre[k], open, js[k])
    ensures FindElement(s, 0, open, close, inRun) == FindElement(s, |Concat(pre)|, open, close, inRun)
  {
    PassAll(s, 0, pre, open, js);
    FindElementSkip(s, 0, |Concat(pre)|, open, close, inRun);
  }

  lemma OwnMatch(s: String, p: nat, lit: String)
    requires HoldsAt(s, p, lit)
    ensures MatchesAt(s, p, lit)
  {
    forall i | 0 <= i < |lit| ensures s[p + i] == lit[i] {
      assert s[p + i] == s[p..p + |lit|][i];
    }
    MatchesAtAll(s, p, lit);
  }

  lemma LiteralHere(s: String, p: nat, lit: String)
    requires HoldsAt(s, p, lit)
    ensures FindLiteral(s, lit, p) == Some(p)
  {
    OwnMatch(s, p, lit);
  }

  /** The run read at `q` is exactly `text` when the character after it leaves
      the run. */
  lemma RunHere(s: String, q: nat, text: String, close: String, inRun: char -> bool)
    requires HoldsAt(s, q, text) && HoldsAt(s, q + |text|, close)
    requires (forall i :: 0 <= i < |text| ==> inRun(text[i]))
    requires |close| > 0 && !inRun(close[0])
    ensures q <= |s| && RunFrom(s, q, inRun) == |text| && s[q..q + |text|] == text
  {
    var n := RunFrom(s, q, inRun);
    RunFromSpan(s, q, inRun);
  }

  /** An element found where it stands captures its whole run. */
  lemma ElementHere(s: String, p: nat, open: String, text: String, close: String, inRun: char -> bool)
    requires HoldsAt(s, p, open + text + close)
    requires |text| > 0 && (forall i :: 0 <= i < |text| ==> inRun(text[i]))
    requires |close| > 0 && !inRun(close[0])
    ensures FindElement(s, p, open, close, inRun) == Some(Capture(p, text, p + |open| + |text| + |close|))
  {
    HoldsSplit(s, p, open + text, close);
    HoldsSplit(s, p, open, text);
    OwnMatch(s, p, open);
    RunHere(s, p + |open|, text, close, inRun);
    OwnMatch(s, p + |open| + |text|, close);
    assert ElementAt(s, p, open, close, inRun) == Some(Capture(p, text, p + |open| + |text| + |close|));
  }

  // ---------------------------------------------------------------- the label

  function Head(name: String, n: nat): String {
    FileNameOpen + name + FileNameClose + RecordsOpen + FormatNat(n) + RecordsClose
  }

  function Fields(a: nat, b: nat): String {
    LocationOpen + FormatNat(a) + LocationClose + LengthOpen + FormatNat(b) + LengthClose + FieldClose
  }

  function Block(field: String, a: nat, b: nat): String {
    FieldOpen + NameTag(field) + Fields(a, b)
  }

  /** The label of a TAB file `name` with `n` records, Wavelength at byte `wa`
      (1-based) over `wb` bytes and Reflectance at `ra` over `rb`. */
  function Label(name: String, n: nat, wa: nat, wb: nat, ra: nat, rb: nat): String {
    Head(name, n) + Block("Wavelength", wa, wb) + Block("Reflectance", ra, rb)
  }

  /** A tag: `<` followed by text without `<`. */
  predicate Tag(t: String) {
    |t| > 1 && t[0] == '<' && LtFree(t[1..])
  }

  lemma FileNameOpenTag() ensures Tag(FileNameOpen) {}
  lemma FileNameCloseTag() ensures Tag(FileNameClose) {}
  lemma RecordsOpenTag() ensures Tag(RecordsOpen) {}
  lemma RecordsCloseTag() ensures Tag(RecordsClose) {}
  lemma FieldOpenTag() ensures Tag(FieldOpen) {}
  lemma FieldCloseTag() ensures Tag(FieldClose) {}
  lemma LocationOpenTag() ensures Tag(LocationOpen) {}
  lemma LocationCloseTag() ensures Tag(LocationClose) {}
  lemma LengthOpenTag() ensures Tag(LengthOpen) {}
  lemma LengthCloseTag() ensures Tag(LengthClose) {}
  lemma NameCloseTag() ensures Tag("</name>") {}

  /** A tag that differs from `lit` at index `j` is passable. */
  lemma TagPassable(t: String, lit: String, j: nat)
    requires Tag(t) && |lit| > 0 && lit[0] == '<' && 0 < j < |t| && j < |lit|
    requires LowerChar(t[j]) != LowerChar(lit[j])
    ensures Passable(t, lit, j)
  {
  }

  lemma Concat3(t0: String, t1: String, t2: String)
    ensures Concat([t0, t1, t2]) == t0 + t1 + t2
  {
    var ps := [t0, t1, t2];
    assert Concat(ps[2..]) == t2;
    assert Concat(ps[1..]) == t1 + t2;
  }

  lemma Concat6(t0: String, t1: String, t2: String, t3: String, t4: String, t5: String)
    ensures Concat([t0, t1, t2, t3, t4, t5]) == t0 + t1 + t2 + t3 + t4 + t5
  {
    var ps := [t0, t1, t2, t3, t4, t5];
    assert ps[3..] == [t3, t4, t5];
    Concat3(t3, t4, t5);
    assert Concat(ps[2..]) == t2 + (t3 + t4 + t5);
    assert Concat(ps[1..]) == t1 + (t2 + (t3 + t4 + t5));
  }

  lemma Concat7(t0: String, t1: String, t2: String, t3: String, t4: String, t5: String, t6: String)
    ensures Concat([t0, t1, t2, t3, t4, t5, t6]) == t0 + t1 + t2 + t3 + t4 + t5 + t6
  {
    var ps := [t0, t1, t2, t3, t4, t5, t6];
    assert ps[1..] == [t1, t2, t3, t4, t5, t6];
    Concat6(t1, t2, t3, t4, t5, t6);
  }

  lemma Regroup6(t0: String, t1: String, t2: String, t3: String, t4: String, t5: String)
    ensures t0 + t1 + t2 + t3 + t4 + t5 == (t0 + t1 + t2) + (t3 + t4 + t5)
  {
  }

  lemma Regroup7(t0: String, t1: String, t2: String, t3: String, t4: String, t5: String, t6: String)
    ensures t0 + t1 + t2 + t3 + t4 + t5 + t6 == (t0 + t1 + t2) + ((t3 + t4 + t5) + t6)
  {
  }

  /** The file name is read from the front of the head. */
  lemma FileNameFound(s: String, name: String, n: nat)
    requires HoldsAt(s, 0, Head(name, n)) && |name| > 0 && LtFree(name)
    ensures FindFileName(s) == Some(Capture(0, name, |FileNameOpen + name + FileNameClose|))
  {
    var fn := FileNameOpen + name + FileNameClose;
    Regroup6(FileNameOpen, name, FileNameClose, RecordsOpen, FormatNat(n), RecordsClose);
    HoldsSplit(s, 0, fn, RecordsOpen + FormatNat(n) + RecordsClose);
    FileNameCloseTag();
    ElementHere(s, 0, FileNameOpen, name, FileNameClose, NotLt);
  }

  /** The record count is read after passing over the file-name element. */
  lemma RecordsFound(s: String, name: String, n: nat)
    requires HoldsAt(s, 0, Head(name, n)) && LtFree(name)
    ensures FindRecords(s) == Some(Capture(|FileNameOpen + name + FileNameClose|, FormatNat(n), |Head(name, n)|))
  {
    var pre := [FileNameOpen, name, FileNameClose];
    Concat3(FileNameOpen, name, FileNameClose);
    Regroup6(FileNameOpen, name, FileNameClose, RecordsOpen, FormatNat(n), RecordsClose);
    RecordsPassable(name);
    RecordsCloseTag();
    ElementAfter(s, pre, [1, 0, 1], RecordsOpen, FormatNat(n), RecordsClose, IsDigit);
  }

  lemma RecordsPassable(name: String)
    requires LtFree(name)
    ensures var pre := [FileNameOpen, name, FileNameClose]; var js: seq<nat> := [1, 0, 1];
            forall k :: 0 <= k < |pre| ==> Passable(pre[k], RecordsOpen, js[k])
  {
    FileNameOpenTag();
    FileNameCloseTag();
    TagPassable(FileNameOpen, RecordsOpen, 1);
    TagPassable(FileNameClose, RecordsOpen, 1);
  }

  /** The first field block is looked for after the whole head. */
  lemma FieldOpenAfterHead(s: String, name: String, n: nat)
    requires HoldsAt(s, 0, Head(name, n)) && LtFree(name)
    ensures FindLiteral(s, FieldOpen, 0) == FindLiteral(s, FieldOpen, |Head(name, n)|)
  {
    var pre := [FileNameOpen, name, FileNameClose, RecordsOpen, FormatNat(n), RecordsClose];
    Concat6(FileNameOpen, name, FileNameClose, RecordsOpen, FormatNat(n), RecordsClose);
    HeadPassable(name, n);
    PassAll(s, 0, pre, FieldOpen, [3, 0, 1, 1, 0, 1]);
    FindLiteralSkip(s, FieldOpen, 0, |Head(name, n)|);
  }

  lemma HeadPassable(name: String, n: nat)
    requires LtFree(name)
    ensures var pre := [FileNameOpen, name, FileNameClose, RecordsOpen, FormatNat(n), RecordsClose];
            var js: seq<nat> := [3, 0, 1, 1, 0, 1];
            forall k :: 0 <= k < |pre| ==> Passable(pre[k], FieldOpen, js[k])
  {
    FileNameOpenTag();
    FileNameCloseTag();
    RecordsOpenTag();
    RecordsCloseTag();
    DigitsLtFree(n);
    TagPassable(FileNameOpen, FieldOpen, 3);
    TagPassable(FileNameClose, FieldOpen, 1);
    TagPassable(RecordsOpen, FieldOpen, 1);
    TagPassable(RecordsClose, FieldOpen, 1);
  }

  /** The part of a block after its name reads the location and the length back. */
  lemma FieldsRead(s: String, q: nat, a: nat, b: nat)
    requires HoldsAt(s, q, Fields(a, b))
    ensures FieldTail(s, q) == Some((a, b))
  {
    LocationCloseTag();
    LengthCloseTag();
    FieldTailIsChain(s, q);
    ChainRead(s, q, LocationOpen, FormatNat(a), LocationClose, LengthOpen, FormatNat(b), LengthClose, FieldClose);
  }

  /** `FieldTail` with its tags as parameters. */
  function ChainTail(s: String, from: nat, lo: String, lc: String, leo: String, lec: String, fc: String)
    : Option<(nat, nat)>
  {
    match FindElement(s, from, lo, lc, IsDigit)
    case None => None
    case Some(loc) =>
      match FindElement(s, loc.end, leo, lec, IsDigit)
      case None => None
      case Some(len) =>
        if FindLiteral(s, fc, len.end).Some? then Some((DigitsValue(loc.text), DigitsValue(len.text))) else None
  }

  lemma FieldTailIsChain(s: String, q: nat)
    ensures FieldTail(s, q) == ChainTail(s, q, LocationOpen, LocationClose, LengthOpen, LengthClose, FieldClose)
  {
  }

  lemma ChainRead(s: String, q: nat, lo: String, ta: String, lc: String, leo: String, tb: String, lec: String,
                  fc: String)
    requires HoldsAt(s, q, lo + ta + lc + leo + tb + lec + fc)
    requires |ta| > 0 && AllDigits(ta) && |tb| > 0 && AllDigits(tb)
    requires |lc| > 0 && !IsDigit(lc[0]) && |lec| > 0 && !IsDigit(lec[0])
    ensures ChainTail(s, q, lo, lc, leo, lec, fc) == Some((DigitsValue(ta), DigitsValue(tb)))
  {
    var e1 := q + |lo| + |ta| + |lc|;
    var e2 := e1 + |leo| + |tb| + |lec|;
    ChainPieces(s, q, lo, ta, lc, leo, tb, lec, fc, e1, e2);
    ElementEnds(s, q, lo, ta, lc, e1);
    ElementEnds(s, e1, leo, tb, lec, e2);
    LiteralHere(s, e2, fc);
    ChainFromParts(s, q, lo, ta, lc, leo, tb, lec, fc, e1, e2);
  }

  lemma ElementEnds(s: String, p: nat, open: String, text: String, close: String, e: nat)
    requires HoldsAt(s, p, open + text + close) && e == p + |open| + |text| + |close|
    requires |text| > 0 && AllDigits(text) && |close| > 0 && !IsDigit(close[0])
    ensures FindElement(s, p, open, close, IsDigit) == Some(Capture(p, text, e))
  {
    ElementHere(s, p, open, text, close, IsDigit);
  }

  lemma ChainPieces(s: String, q: nat, lo: String, ta: String, lc: String, leo: String, tb: String, lec: String,
                    fc: String, e1: nat, e2: nat)
    requires HoldsAt(s, q, lo + ta + lc + leo + tb + lec + fc)
    requires e1 == q + |lo| + |ta| + |lc| && e2 == e1 + |leo| + |tb| + |lec|
    ensures HoldsAt(s, q, lo + ta + lc) && HoldsAt(s, e1, leo + tb + lec) && HoldsAt(s, e2, fc)
  {
    var loc := lo + ta + lc;
    var len := leo + tb + lec;
    Regroup7(lo, ta, lc, leo, tb, lec, fc);
    HoldsSplit(s, q, loc, len + fc);
    HoldsSplit(s, q + |loc|, len, fc);
  }

  lemma ChainFromParts(s: String, q: nat, lo: String, ta: String, lc: String, leo: String, tb: String, lec: String,
                       fc: String, e1: nat, e2: nat)
    requires FindElement(s, q, lo, lc, IsDigit) == Some(Capture(q, ta, e1))
    requires FindElement(s, e1, leo, lec, IsDigit) == Some(Capture(e1, tb, e2))
    requires FindLiteral(s, fc, e2) == Some(e2)
    ensures ChainTail(s, q, lo, lc, leo, lec, fc) == Some((DigitsValue(ta), DigitsValue(tb)))
  {
  }

  /** The first block of the label is the one its own field is read from. */
  lemma FirstBlockField(s: String, p: nat, field: String, a: nat, b: nat)
    requires FindLiteral(s, FieldOpen, 0) == Some(p) && HoldsAt(s, p, Block(field, a, b))
    ensures FindField(s, field) == Some((a, b))
  {
    var q := After(p, FieldOpen);
    HoldsSplit(s, p, FieldOpen + NameTag(field), Fields(a, b));
    HoldsSplit(s, p, FieldOpen, NameTag(field));
    LiteralHere(s, q, NameTag(field));
    FieldsRead(s, After(q, NameTag(field)), a, b);
    FieldFromParts(s, p, field, q, a, b);
  }

  /** No literal whose second character is `n` starts inside the location and
      length part of a block. */
  lemma FieldsNoStart(s: String, q: nat, a: nat, b: nat, lit: String)
    requires HoldsAt(s, q, Fields(a, b)) && |lit| > 1 && lit[0] == '<' && lit[1] == 'n'
    ensures forall x :: q <= x < q + |Fields(a, b)| ==> !MatchesAt(s, x, lit)
  {
    var ps := [LocationOpen, FormatNat(a), LocationClose, LengthOpen, FormatNat(b), LengthClose, FieldClose];
    Concat7(LocationOpen, FormatNat(a), LocationClose, LengthOpen, FormatNat(b), LengthClose, FieldClose);
    FieldsPassable(a, b, lit);
    PassAll(s, q, ps, lit, [1, 0, 1, 1, 0, 1, 1]);
  }

  lemma FieldsPassable(a: nat, b: nat, lit: String)
    requires |lit| > 1 && lit[0] == '<' && lit[1] == 'n'
    ensures var ps := [LocationOpen, FormatNat(a), LocationClose, LengthOpen, FormatNat(b), LengthClose, FieldClose];
            var js: seq<nat> := [1, 0, 1, 1, 0, 1, 1];
            forall k :: 0 <= k < |ps| ==> Passable(ps[k], lit, js[k])
  {
    LocationOpenTag();
    LocationCloseTag();
    LengthOpenTag();
    LengthCloseTag();
    FieldCloseTag();
    DigitsLtFree(a);
    DigitsLtFree(b);
    TagPassable(LocationOpen, lit, 1);
    TagPassable(LocationClose, lit, 1);
    TagPassable(LengthOpen, lit, 1);
    TagPassable(LengthClose, lit, 1);
    TagPassable(FieldClose, lit, 1);
  }

  /** A field name the label can carry: non-empty and without `<`. */
  predicate FieldName(w: String) {
    |w| > 0 && LtFree(w)
  }

  /** The search for a field whose block comes second starts at the first block
      and lazily runs on to the second, whose location and length it reads. The
      two names must differ in their first character, ignoring case, as
      Wavelength and Reflectance do. */
  lemma SecondBlockField(s: String, p: nat, w: String, r: String, wa: nat, wb: nat, ra: nat, rb: nat)
    requires FindLiteral(s, FieldOpen, 0) == Some(p)
    requires HoldsAt(s, p, Block(w, wa, wb) + Block(r, ra, rb))
    requires FieldName(w) && FieldName(r) && LowerChar(w[0]) != LowerChar(r[0])
    ensures FindField(s, r) == Some((ra, rb))
  {
    var e := After(After(p, FieldOpen), NameTag(w) + Fields(wa, wb) + FieldOpen);
    SecondName(s, p, e, w, r, wa, wb, ra, rb);
    FieldsRead(s, After(e, NameTag(r)), ra, rb);
    FieldFromParts(s, p, r, e, ra, rb);
  }

  lemma FieldFromParts(s: String, p: nat, field: String, e: nat, a: nat, b: nat)
    requires FindLiteral(s, FieldOpen, 0) == Some(p)
    requires FindLiteral(s, NameTag(field), After(p, FieldOpen)) == Some(e)
    requires FieldTail(s, After(e, NameTag(field))) == Some((a, b))
    ensures FindField(s, field) == Some((a, b))
  {
  }

  /** The second name tag is the first one the search meets after the first
      block's opening tag. */
  lemma SecondName(s: String, p: nat, e: nat, w: String, r: String, wa: nat, wb: nat, ra: nat, rb: nat)
    requires HoldsAt(s, p, Block(w, wa, wb) + Block(r, ra, rb))
    requires FieldName(w) && FieldName(r) && LowerChar(w[0]) != LowerChar(r[0])
    requires e == After(After(p, FieldOpen), NameTag(w) + Fields(wa, wb) + FieldOpen)
    ensures FindLiteral(s, NameTag(r), After(p, FieldOpen)) == Some(e)
    ensures HoldsAt(s, After(e, NameTag(r)), Fields(ra, rb))
  {
    var x := NameTag(w) + Fields(wa, wb) + FieldOpen;
    BlocksLayout(w, r, wa, wb, ra, rb);
    HoldsSplit(s, p, FieldOpen, x + (NameTag(r) + Fields(ra, rb)));
    HoldsSplit(s, After(p, FieldOpen), x, NameTag(r) + Fields(ra, rb));
    NameSkips(s, After(p, FieldOpen), w, r, wa, wb);
    FindLiteralSkip(s, NameTag(r), After(p, FieldOpen), e);
    NameThenFields(s, e, NameTag(r), Fields(ra, rb));
  }

  lemma BlocksLayout(w: String, r: String, wa: nat, wb: nat, ra: nat, rb: nat)
    ensures Block(w, wa, wb) + Block(r, ra, rb)
            == FieldOpen + ((NameTag(w) + Fields(wa, wb) + FieldOpen) + (NameTag(r) + Fields(ra, rb)))
  {
    Regroup5(FieldOpen, NameTag(w), Fields(wa, wb), NameTag(r), Fields(ra, rb));
  }

  lemma Regroup5(t0: String, t1: String, t2: String, t3: String, t4: String)
    ensures (t0 + t1 + t2) + (t0 + t3 + t4) == t0 + ((t1 + t2 + t0) + (t3 + t4))
  {
  }

  /** A name tag found where it stands, and the text after it. */
  lemma NameThenFields(s: String, e: nat, lit: String, f: String)
    requires HoldsAt(s, e, lit + f)
    ensures FindLiteral(s, lit, e) == Some(e) && HoldsAt(s, After(e, lit), f)
  {
    HoldsSplit(s, e, lit, f);
    LiteralHere(s, e, lit);
  }

  /** The name tag of `r` cannot start anywhere in the rest of a block named `w`,
      nor in the opening tag of the next block. */
  lemma NameSkips(s: String, q: nat, w: String, r: String, wa: nat, wb: nat)
    requires HoldsAt(s, q, NameTag(w) + Fields(wa, wb) + FieldOpen)
    requires FieldName(w) && FieldName(r) && LowerChar(w[0]) != LowerChar(r[0])
    ensures forall x :: q <= x < q + |NameTag(w) + Fields(wa, wb) + FieldOpen| ==> !MatchesAt(s, x, NameTag(r))
  {
    var lit := NameTag(r);
    var t := "<name>" + w;
    var f := Fields(wa, wb);
    assert NameTag(w) + f + FieldOpen == t + "</name>" + f + FieldOpen;
    HoldsSplit(s, q, t + "</name>" + f, FieldOpen);
    HoldsSplit(s, q, t + "</name>", f);
    HoldsSplit(s, q, t, "</name>");
    NameShapes(w, r);
    NoStartIn(s, q, t, lit, 6);
    NoStartIn(s, q + |t|, "</name>", lit, 1);
    FieldsNoStart(s, q + |t| + 7, wa, wb, lit);
    NoStartIn(s, q + |t| + 7 + |f|, FieldOpen, lit, 1);
  }

  /** The stretches `NameSkips` passes over, and what keeps the name tag of `r`
      from starting in each. */
  lemma NameShapes(w: String, r: String)
    requires FieldName(w) && FieldName(r) && LowerChar(w[0]) != LowerChar(r[0])
    ensures var lit := NameTag(r);
            && |lit| > 6 && lit[0] == '<' && lit[1] == 'n' && |"</name>"| == 7
            && Passable("<name>" + w, lit, 6) && Passable("</name>", lit, 1) && Passable(FieldOpen, lit, 1)
  {
    var lit := NameTag(r);
    var t := "<name>" + w;
    assert lit[6] == r[0] && t[6] == w[0];
    assert Tag(t) by {
      forall i | 0 <= i < |t[1..]| ensures t[1..][i] != '<' {
        if i >= 5 {
          assert t[1..][i] == w[i - 5];
        }
      }
    }
    NameCloseTag();
    FieldOpenTag();
    TagPassable(t, lit, 6);
    TagPassable("</name>", lit, 1);
    TagPassable(FieldOpen, lit, 1);
  }

  lemma DigitsLtFree(n: nat)
    ensures LtFree(FormatNat(n))
  {
    var ds := FormatNat(n);
    forall q | 0 <= q < |ds| ensures ds[q] != '<' {
      assert IsDigit(ds[q]);
    }
  }
  // ---------------------------------------------------------------- round trip

  /** Every label built from a file name without `<` is read back whole: the
      file name (trimmed and lower-cased, as the reader keys it), both fields'
      0-based locations and lengths, and the record count. */
  lemma LabelRoundTrip(name: String, n: nat, wa: nat, wb: nat, ra: nat, rb: nat)
    requires |name| > 0 && LtFree(name)
    ensures ExtractRelabMeta(Label(name, n, wa, wb, ra, rb))
            == Success(RelabMeta(Lower(Trim(name)), wa - 1, wb, ra - 1, rb, Some(n)))
  {
    var s := Label(name, n, wa, wb, ra, rb);
    var h := Head(name, n);
    LabelFields(s, name, n, wa, wb, ra, rb);
    FileNameFound(s, name, n);
    RecordsFound(s, name, n);
    var c1 := Capture(0, name, |FileNameOpen + name + FileNameClose|);
    var c2 := Capture(|FileNameOpen + name + FileNameClose|, FormatNat(n), |h|);
    MetaFromParts(s, c1, c2, wa, wb, ra, rb);
    MetaFields(ExtractRelabMeta(s), Lower(Trim(name)), wa - 1, wb, ra - 1, rb, Some(n));
  }

  /** The reader's result once its four searches are known. */
  lemma MetaFromParts(s: String, c1: Capture, c2: Capture, wa: nat, wb: nat, ra: nat, rb: nat)
    requires FindFileName(s) == Some(c1)
    requires FindRecords(s) == Some(c2)
    requires FindField(s, "Wavelength") == Some((wa, wb))
    requires FindField(s, "Reflectance") == Some((ra, rb))
    ensures var r := ExtractRelabMeta(s);
            && r.Success? && r.value.tabFileName == Lower(Trim(c1.text))
            && r.value.wlLoc == wa - 1 && r.value.wlLen == wb && r.value.rfLoc == ra - 1 && r.value.rfLen == rb
            && r.value.recordCount == Some(DigitsValue(c2.text))
  {
  }

  lemma MetaFields(r: Result<RelabMeta, MetaError>, name: String, wl: int, wn: nat, rl: int, rn: nat,
                   c: Option<nat>)
    requires r.Success? && r.value.tabFileName == name && r.value.wlLoc == wl && r.value.wlLen == wn
    requires r.value.rfLoc == rl && r.value.rfLen == rn && r.value.recordCount == c
    ensures r == Success(RelabMeta(name, wl, wn, rl, rn, c))
  {
  }

  /** Both fields of a label are found with the location and length it holds. */
  lemma LabelFields(s: String, name: String, n: nat, wa: nat, wb: nat, ra: nat, rb: nat)
    requires LtFree(name) && s == Label(name, n, wa, wb, ra, rb)
    ensures HoldsAt(s, 0, Head(name, n))
    ensures FindField(s, "Wavelength") == Some((wa, wb))
    ensures FindField(s, "Reflectance") == Some((ra, rb))
  {
    var h := Head(name, n);
    var bw := Block("Wavelength", wa, wb);
    var br := Block("Reflectance", ra, rb);
    HoldsParts(s, h, bw, br);
    HoldsSplit(s, |h|, FieldOpen + NameTag("Wavelength"), Fields(wa, wb));
    HoldsSplit(s, |h|, FieldOpen, NameTag("Wavelength"));
    FieldOpenAfterHead(s, name, n);
    LiteralHere(s, |h|, FieldOpen);
    FirstBlockField(s, |h|, "Wavelength", wa, wb);
    FieldNames();
    SecondBlockField(s, |h|, "Wavelength", "Reflectance", wa, wb, ra, rb);
  }

  lemma HoldsParts(s: String, a: String, b: String, c: String)
    requires s == a + b + c
    ensures HoldsAt(s, 0, a) && HoldsAt(s, |a|, b + c) && HoldsAt(s, |a|, b)
  {
    assert s[0..|a|] == a;
    assert s[|a|..|a| + |b + c|] == b + c;
    assert s[|a|..|a| + |b|] == b;
  }

  /** The two field names the reader asks for may stand in a label, and differ
      in their first character, ignoring case. */
  lemma FieldNames()
    ensures FieldName("Wavelength") && FieldName("Reflectance")
    ensures LowerChar("Wavelength"[0]) != LowerChar("Reflectance"[0])
  {
  }
}
