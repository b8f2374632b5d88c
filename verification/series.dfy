/** Numeric series as the parsers build them: two parallel arrays of x and y
    values filled line by line. */
module Series {
  import opened Wrappers
  import opened Text
  import opened Numbers

  type Point = (real, real)

  /** The `{ x, y }` object every parser returns. */
  datatype Series = Series(x: seq<real>, y: seq<real>)

  predicate Paired(s: Series) {
    |s.x| == |s.y|
  }

  /** Splits points into the two arrays, keeping their order. */
  function FromPoints(pts: seq<Point>): (s: Series)
    ensures |s.x| == |pts| && |s.y| == |pts|
    ensures forall i :: 0 <= i < |pts| ==> s.x[i] == pts[i].0 && s.y[i] == pts[i].1
  {
    if |pts| == 0 then Series([], [])
    else
      var rest := FromPoints(pts[1..]);
      Series([pts[0].0] + rest.x, [pts[0].1] + rest.y)
  }

  /** Two values read with `parseFloat`, kept only when both are finite. */
  function FloatPair(a: String, b: String): (r: Option<Point>)
    ensures r.Some? <==> ParseFloat(a).Some? && ParseFloat(b).Some?
    ensures r.Some? ==> ParseFloat(a) == Some(r.value.0) && ParseFloat(b) == Some(r.value.1)
  {
    match (ParseFloat(a), ParseFloat(b))
    case (Some(x), Some(y)) => Some((x, y))
    case _ => None
  }

  /** Two values converted with `Number`, kept only when both are finite. */
  function NumberPair(a: String, b: String): (r: Option<Point>)
    ensures r.Some? <==> ParseNumber(a).Some? && ParseNumber(b).Some?
    ensures r.Some? ==> ParseNumber(a) == Some(r.value.0) && ParseNumber(b) == Some(r.value.1)
  {
    match (ParseNumber(a), ParseNumber(b))
    case (Some(x), Some(y)) => Some((x, y))
    case _ => None
  }

  /** The loop shape shared by the line parsers: each line either contributes one
      point or nothing, and points come out in line order. */
  function Collect<T>(lines: seq<T>, f: T -> Option<Point>): (pts: seq<Point>)
    ensures |pts| <= |lines|
  {
    if |lines| == 0 then []
    else
      var rest := Collect(lines[1..], f);
      match f(lines[0])
      case Some(p) => [p] + rest
      case None => rest
  }

  /** Indices, from `i` on, of the lines that contribute a point. */
  function Picked<T>(lines: seq<T>, f: T -> Option<Point>, i: nat): (idx: seq<nat>)
    requires i <= |lines|
    ensures forall k :: 0 <= k < |idx| ==> i <= idx[k] < |lines| && f(lines[idx[k]]).Some?
    ensures forall k, l :: 0 <= k < l < |idx| ==> idx[k] < idx[l]
    ensures forall j :: i <= j < |lines| && f(lines[j]).Some? ==> j in idx
    decreases |lines| - i
  {
    if i == |lines| then []
    else
      var rest := Picked(lines, f, i + 1);
      if f(lines[i]).Some? then [i] + rest else rest
  }

  /** `Collect` is the order-preserving selection of the contributing lines:
      its k-th point is the value of the k-th contributing line, and a line not
      selected contributes nothing. */
  lemma CollectIsSelection<T>(lines: seq<T>, f: T -> Option<Point>)
    ensures var idx := Picked(lines, f, 0);
            var pts := Collect(lines, f);
            && |idx| == |pts|
            && (forall k :: 0 <= k < |idx| ==> f(lines[idx[k]]) == Some(pts[k]))
            && (forall j :: 0 <= j < |lines| && j !in idx ==> f(lines[j]).None?)
  {
    SelectionFrom(lines, f, 0);
    assert lines[0..] == lines;
  }

  lemma {:induction false} SelectionFrom<T>(lines: seq<T>, f: T -> Option<Point>, i: nat)
    requires i <= |lines|
    ensures var idx := Picked(lines, f, i);
            var pts := Collect(lines[i..], f);
            |idx| == |pts| && forall k :: 0 <= k < |idx| ==> f(lines[idx[k]]) == Some(pts[k])
    decreases |lines| - i
  {
    if i < |lines| {
      SelectionFrom(lines, f, i + 1);
      var tail := lines[i..];
      var idx, rest := Picked(lines, f, i + 1), Collect(lines[i + 1..], f);
      assert tail[1..] == lines[i + 1..];
      assert tail[0] == lines[i];
      match f(lines[i])
      case Some(p) =>
        assert Picked(lines, f, i) == [i] + idx;
        assert Collect(tail, f) == [p] + rest;
      case None =>
        assert Picked(lines, f, i) == idx;
        assert Collect(tail, f) == rest;
    }
  }

  /** Concatenating inputs concatenates outputs: lines that contribute nothing can
      be inserted anywhere without changing the result. */
  lemma {:induction false} CollectAppend<T>(a: seq<T>, b: seq<T>, f: T -> Option<Point>)
    ensures Collect(a + b, f) == Collect(a, f) + Collect(b, f)
  {
    if |a| > 0 {
      assert (a + b)[1..] == a[1..] + b;
      CollectAppend(a[1..], b, f);
    } else {
      assert a + b == b;
    }
  }

  /** Lines none of which contribute give no points. */
  lemma {:induction false} CollectNothing<T>(lines: seq<T>, f: T -> Option<Point>)
    requires forall j :: 0 <= j < |lines| ==> f(lines[j]).None?
    ensures Collect(lines, f) == []
  {
    if |lines| > 0 {
      assert forall j :: 0 <= j < |lines| - 1 ==> lines[1..][j] == lines[j + 1];
      CollectNothing(lines[1..], f);
    }
  }

  /** Lines all of which contribute give exactly one point each. */
  lemma {:induction false} CollectEvery<T>(lines: seq<T>, f: T -> Option<Point>)
    requires forall j :: 0 <= j < |lines| ==> f(lines[j]).Some?
    ensures |Collect(lines, f)| == |lines|
  {
    if |lines| > 0 {
      assert forall j :: 0 <= j < |lines| - 1 ==> lines[1..][j] == lines[j + 1];
      CollectEvery(lines[1..], f);
    }
  }

  /** Lines each of which reads as the point at its own position give exactly
      those points. */
  lemma {:induction false} CollectExact<T>(lines: seq<T>, f: T -> Option<Point>, pts: seq<Point>)
    requires |lines| == |pts|
    requires forall j :: 0 <= j < |lines| ==> f(lines[j]) == Some(pts[j])
    ensures Collect(lines, f) == pts
  {
    if |lines| > 0 {
      assert forall j :: 0 <= j < |lines| - 1 ==> lines[1..][j] == lines[j + 1] && pts[1..][j] == pts[j + 1];
      CollectExact(lines[1..], f, pts[1..]);
      assert pts == [pts[0]] + pts[1..];
    }
  }

  /** Every x value divided by `d`, the y values untouched. */
  function DivideX(s: Series, d: real): (r: Series)
    requires d != 0.0
    ensures |r.x| == |s.x| && r.y == s.y
    ensures forall i :: 0 <= i < |s.x| ==> r.x[i] * d == s.x[i]
  {
    Series(seq(|s.x|, i requires 0 <= i < |s.x| => s.x[i] / d), s.y)
  }

  function Sum(xs: seq<real>): real {
    if |xs| == 0 then 0.0 else Sum(xs[..|xs| - 1]) + xs[|xs| - 1]
  }

  /** The arithmetic mean of a non-empty list of values. */
  function Mean(xs: seq<real>): real
    requires |xs| > 0
  {
    Sum(xs) / |xs| as real
  }

  /** `x[i] -= x[0]` for every i: elapsed time measured from the first sample. */
  function Rebase(xs: seq<real>): (r: seq<real>)
    ensures |r| == |xs|
    ensures |xs| > 0 ==> r[0] == 0.0
    ensures forall i, j :: 0 <= i < |xs| && 0 <= j < |xs| ==> r[i] - r[j] == xs[i] - xs[j]
  {
    if |xs| == 0 then [] else seq(|xs|, i requires 0 <= i < |xs| => xs[i] - xs[0])
  }
}
