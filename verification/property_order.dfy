/** The order in which `Object.keys` lists the properties of a plain object
    whose properties were assigned one after another, as ECMAScript's
    OrdinaryOwnPropertyKeys fixes it: the names that are array indices first,
    in ascending numeric order, then every other name in the order it was first
    assigned. A property is identified here by the position at which its name
    was assigned. */
module PropertyOrder {
  import opened Text
  import opened Numbers

  /** An array index: a canonical decimal numeral (no sign, no leading zero
      other than `0` itself) whose value is below 2^32 - 1. */
  predicate IsArrayIndex(k: String) {
    && |k| > 0 && AllDigits(k) && (k[0] == '0' ==> |k| == 1)
    && DigitsValue(k) < 0xFFFF_FFFF
  }

  /** Where the name at position `a` stands in the listing: its class (array
      indices first), its numeric value within the indices, and the position
      at which it was assigned within the other names. */
  function Rank(names: seq<String>, a: nat): (nat, nat, nat)
    requires a < |names|
  {
    if IsArrayIndex(names[a]) then (0, DigitsValue(names[a]), a) else (1, 0, a)
  }

  predicate RankBelow(r: (nat, nat, nat), s: (nat, nat, nat)) {
    r.0 < s.0 || (r.0 == s.0 && (r.1 < s.1 || (r.1 == s.1 && r.2 < s.2)))
  }

  /** Whether `Object.keys` lists the name at position `a` before the one at
      position `b`. */
  predicate ListedBefore(names: seq<String>, a: nat, b: nat)
    requires a < |names| && b < |names|
  {
    RankBelow(Rank(names, a), Rank(names, b))
  }

  /** The rank of every position. */
  function Ranks(names: seq<String>): (r: seq<(nat, nat, nat)>)
    ensures |r| == |names| && forall a :: 0 <= a < |names| ==> r[a] == Rank(names, a)
  {
    seq(|names|, a requires 0 <= a < |names| => Rank(names, a))
  }

  /** Ranks whose last component is their own position, so that distinct
      positions never tie. */
  predicate Tagged(ranks: seq<(nat, nat, nat)>) {
    forall a :: 0 <= a < |ranks| ==> ranks[a].2 == a
  }

  predicate InRange(ranks: seq<(nat, nat, nat)>, ps: seq<nat>) {
    forall i :: 0 <= i < |ps| ==> ps[i] < |ranks|
  }

  /** Every position of `ps` ranks below every later one. */
  predicate Sorted(ranks: seq<(nat, nat, nat)>, ps: seq<nat>)
    requires InRange(ranks, ps)
  {
    forall i, j :: 0 <= i < j < |ps| ==> RankBelow(ranks[ps[i]], ranks[ps[j]])
  }

  /** Puts position `p` into a listing of other positions. */
  function Insert(ranks: seq<(nat, nat, nat)>, p: nat, ps: seq<nat>): (r: seq<nat>)
    requires Tagged(ranks) && p < |ranks| && InRange(ranks, ps)
    ensures |r| == |ps| + 1 && InRange(ranks, r)
    ensures forall q :: q in r <==> q == p || q in ps
    ensures Sorted(ranks, ps) && p !in ps ==> Sorted(ranks, r)
  {
    if ps == [] then [p]
    else if RankBelow(ranks[p], ranks[ps[0]]) then [p] + ps
    else
      var rest := Insert(ranks, p, ps[1..]);
      assert forall q :: q in ps <==> q == ps[0] || q in ps[1..];
      assert Sorted(ranks, ps) && p !in ps ==> Sorted(ranks, [ps[0]] + rest) by {
        if Sorted(ranks, ps) && p !in ps {
          assert Sorted(ranks, ps[1..]);
          forall q | q in rest ensures RankBelow(ranks[ps[0]], ranks[q]) {
            if q != p {
              var k :| 0 <= k < |ps[1..]| && ps[1..][k] == q;
              assert ps[k + 1] == q;
            }
          }
        }
      }
      [ps[0]] + rest
  }

  /** The first `n` positions in listing order. */
  function ListFirst(ranks: seq<(nat, nat, nat)>, n: nat): (r: seq<nat>)
    requires Tagged(ranks) && n <= |ranks|
    ensures |r| == n && InRange(ranks, r) && Sorted(ranks, r)
    ensures forall q: nat :: q in r <==> q < n
  {
    if n == 0 then [] else Insert(ranks, n - 1, ListFirst(ranks, n - 1))
  }

  /** `Object.keys` of an object whose properties were assigned under `names`
      in turn, as the positions of the names it lists: every position once, in
      listing order. */
  function KeyColumns(names: seq<String>): (r: seq<nat>)
    ensures |r| == |names| && forall i :: 0 <= i < |r| ==> r[i] < |names|
    ensures forall q: nat :: q in r <==> q < |names|
    ensures forall i, j :: 0 <= i < j < |r| ==> ListedBefore(names, r[i], r[j])
  {
    var ranks := Ranks(names);
    var r := ListFirst(ranks, |names|);
    assert Sorted(ranks, r);
    r
  }

  /** A position ranked above all the others goes last. */
  lemma {:induction false} InsertLast(ranks: seq<(nat, nat, nat)>, p: nat, ps: seq<nat>)
    requires Tagged(ranks) && p < |ranks| && InRange(ranks, ps)
    requires forall i :: 0 <= i < |ps| ==> RankBelow(ranks[ps[i]], ranks[p])
    ensures Insert(ranks, p, ps) == ps + [p]
  {
    if ps != [] {
      var tail := ps[1..];
      assert forall i :: 0 <= i < |tail| ==> tail[i] == ps[i + 1];
      InsertLast(ranks, p, tail);
      assert Insert(ranks, p, ps) == [ps[0]] + (tail + [p]);
    }
  }

  function Positions(n: nat): (r: seq<nat>)
    ensures |r| == n && forall i :: 0 <= i < n ==> r[i] == i
  {
    seq(n, i requires 0 <= i < n => i)
  }

  lemma {:induction false} ListFirstPlain(names: seq<String>, n: nat)
    requires n <= |names|
    requires forall i :: 0 <= i < |names| ==> !IsArrayIndex(names[i])
    ensures ListFirst(Ranks(names), n) == Positions(n)
  {
    if n > 0 {
      var ranks := Ranks(names);
      var ps := Positions(n - 1);
      ListFirstPlain(names, n - 1);
      forall i | 0 <= i < |ps| ensures RankBelow(ranks[ps[i]], ranks[n - 1]) {
        assert ranks[ps[i]] == (1, 0, i) && ranks[n - 1] == (1, 0, n - 1);
      }
      InsertLast(ranks, n - 1, ps);
      assert ps + [n - 1] == Positions(n);
    }
  }

  /** When no name is an array index, the names are listed in the order they
      were assigned. */
  lemma KeyColumnsPlain(names: seq<String>)
    requires forall i :: 0 <= i < |names| ==> !IsArrayIndex(names[i])
    ensures KeyColumns(names) == Positions(|names|)
  {
    ListFirstPlain(names, |names|);
  }

  /** Two names are listed in the order they were assigned unless the second
      is an array index and the first is not, or both are and the second is
      the smaller number. */
  lemma KeyColumnsOfTwo(a: String, b: String)
    ensures KeyColumns([a, b]) ==
              if IsArrayIndex(b) && (!IsArrayIndex(a) || DigitsValue(b) < DigitsValue(a))
              then [1, 0] else [0, 1]
  {
    var names := [a, b];
    var ranks := Ranks(names);
    assert ranks[0] == (if IsArrayIndex(a) then (0, DigitsValue(a), 0) else (1, 0, 0));
    assert ranks[1] == (if IsArrayIndex(b) then (0, DigitsValue(b), 1) else (1, 0, 1));
    assert ListFirst(ranks, 1) == Insert(ranks, 0, []) == [0];
    assert KeyColumns(names) == ListFirst(ranks, 2) == Insert(ranks, 1, [0]);
    assert Insert(ranks, 1, [0]) == if RankBelow(ranks[1], ranks[0]) then [1, 0] else [0, 1];
  }
}
