/** The viewer's state and its transitions. The plot is described by four
    parallel lists, one entry per trace: the traces themselves, the file names
    (`filesInfo`), the visibility flags and the group each trace belongs to
    (`traceGroupIds`). Besides them: the groups, the active group, the per-group
    show/hide toggle, the colour counter, the axis labels and the label
    candidates offered after a batch, the plot ranges, the RELAB labels loaded
    so far and the count of loaded files.

    Group ids: the app creates them only as `String(n)` for a natural `n` (the
    two initial groups and `String(max + 1)`), so an id is the decimal text of
    a natural number and the model keeps that number. */
module Viewer {
  import opened Wrappers
  import opened Text
  import opened Numbers
  import opened Series
  import opened RelabLabel
  import opened Formats

  const Palette: seq<String> := ["#1f77b4", "#ff7f0e", "#2ca02c", "#d62728", "#9467bd",
                                 "#8c564b", "#e377c2", "#7f7f7f", "#bcbd22", "#17becf"]

  /** The palette colour for counter value `k`, cycling through the ten colours. */
  function PaletteColor(k: nat): (c: String)
    ensures c in Palette
  {
    Palette[k % |Palette|]
  }

  /** Counter values that differ modulo ten get different colours. */
  lemma PaletteColorsDiffer(j: nat, k: nat)
    requires j % 10 != k % 10
    ensures PaletteColor(j) != PaletteColor(k)
  {
    assert forall a, b :: 0 <= a < b < 10 ==> Palette[a] != Palette[b];
  }

  type GroupId = nat

  datatype Group = Group(id: GroupId, name: String)

  /** A plotted trace: its series, line colour and legend name. */
  datatype Trace = Trace(data: Series, color: String, name: String)

  datatype Range = Range(lo: real, hi: real)

  datatype State = State(
    traces: seq<Trace>,
    filesInfo: seq<String>,
    visibility: seq<bool>,
    traceGroupIds: seq<Option<GroupId>>,
    groups: seq<Group>,
    activeGroupId: Option<GroupId>,
    groupShown: map<GroupId, bool>,
    nextColor: nat,
    labels: Labels,
    locked: bool,
    candidates: seq<Labels>,
    headerDialog: bool,
    xRange: Option<Range>,
    yRange: Option<Range>,
    labelStore: map<String, RelabMeta>,
    loadedCount: nat,
    reflectancePreset: bool)

  /** The four per-trace lists have one entry per trace. */
  predicate Lockstep(s: State) {
    && |s.filesInfo| == |s.traces|
    && |s.visibility| == |s.traces|
    && |s.traceGroupIds| == |s.traces|
  }

  function Ids(gs: seq<Group>): (ids: seq<GroupId>)
    ensures |ids| == |gs|
  {
    seq(|gs|, i requires 0 <= i < |gs| => gs[i].id)
  }

  predicate DistinctIds(gs: seq<Group>) {
    forall i, j :: 0 <= i < j < |gs| ==> gs[i].id != gs[j].id
  }

  /** Group ids are unique, and the active group is one of the groups; there is
      no active group only when there are no groups left. */
  predicate GroupsValid(s: State) {
    && DistinctIds(s.groups)
    && (s.activeGroupId.Some? ==> s.activeGroupId.value in Ids(s.groups))
    && (s.activeGroupId.None? ==> |s.groups| == 0)
  }

  /** The state when the app starts: no traces, groups 1 and 2 both shown,
      group 1 active, the wavelength-reflectance labels, colour counter 0. */
  function Init(): (s: State)
    ensures Lockstep(s) && GroupsValid(s) && |s.traces| == 0
    ensures s.activeGroupId == Some(1) && Ids(s.groups) == [1, 2]
  {
    var s := State([], [], [], [], [Group(1, "Group 1"), Group(2, "Group 2")], Some(1),
                   map[1 := true, 2 := true], 0, WavelengthLabels, false, [], false,
                   None, None, map[], 0, false);
    assert Ids(s.groups) == [1, 2];
    s
  }

  /** Whether the toggle of group `g` reads `'show'`. */
  predicate Shown(s: State, g: GroupId) {
    g in s.groupShown && s.groupShown[g]
  }

  /** `visibleTraces`: trace `i` is drawn when its flag is not `false` and it
      belongs to the active group. */
  predicate Rendered(s: State, i: nat) {
    && (i >= |s.visibility| || s.visibility[i])
    && i < |s.traceGroupIds| && s.traceGroupIds[i] == s.activeGroupId
  }

  // ---------------------------------------------------------------------------
  // Batch merge (`parseAndAddFiles`)

  /** A file of the batch once its reader has finished, in completion order. */
  datatype Arrival = Arrival(name: String, outcome: Outcome)

  /** The arrivals that push a trace, in completion order. */
  function Loads(arr: seq<Arrival>): (ls: seq<Arrival>)
    ensures |ls| <= |arr|
    ensures forall k :: 0 <= k < |ls| ==> ls[k].outcome.Loaded? && ls[k] in arr
    ensures forall a :: a in arr && a.outcome.Loaded? ==> a in ls
  {
    if |arr| == 0 then []
    else if arr[0].outcome.Loaded? then [arr[0]] + Loads(arr[1..])
    else Loads(arr[1..])
  }

  /** A single arrival is loaded exactly when it pushes a trace. */
  lemma LoadsOne(a: Arrival)
    ensures Loads([a]) == if a.outcome.Loaded? then [a] else []
  {
    assert [a][1..] == [];
  }

  /** `Loads` distributes over concatenation: the loaded arrivals keep their
      completion order and each is listed as often as it arrived. */
  lemma {:induction false} LoadsAppend(a: seq<Arrival>, b: seq<Arrival>)
    ensures Loads(a + b) == Loads(a) + Loads(b)
  {
    if |a| > 0 {
      assert (a + b)[0] == a[0];
      assert (a + b)[1..] == a[1..] + b;
      LoadsAppend(a[1..], b);
    } else {
      assert a + b == b;
    }
  }

  /** The traces as the readers push them: the colour counter advances once per
      pushed trace, in completion order. */
  function NewTraces(arr: seq<Arrival>, color: nat): (ts: seq<Trace>)
    ensures |ts| == |Loads(arr)|
  {
    var ls := Loads(arr);
    seq(|ls|, k requires 0 <= k < |ls| => Trace(ls[k].outcome.data, PaletteColor(color + k), ls[k].name))
  }

  /** `detectedHeaders`: one entry per pushed trace. */
  function Hints(arr: seq<Arrival>): (hs: seq<Option<Labels>>)
    ensures |hs| == |Loads(arr)|
  {
    var ls := Loads(arr);
    seq(|ls|, k requires 0 <= k < |ls| => ls[k].outcome.hint)
  }

  predicate SetsLabels(a: Arrival) {
    a.outcome.Loaded? && a.outcome.setsLabels && a.outcome.hint.Some?
  }

  /** The labels after the readers have run: each time-log, TAB, DPT and ASC
      trace sets them at once, so the last one to complete wins. */
  function Immediate(arr: seq<Arrival>, cur: Labels): (l: Labels)
    ensures (forall i :: 0 <= i < |arr| ==> !SetsLabels(arr[i])) ==> l == cur
    ensures |arr| > 0 && SetsLabels(arr[|arr| - 1]) ==> l == arr[|arr| - 1].outcome.hint.value
    ensures l == cur || exists i :: 0 <= i < |arr| && SetsLabels(arr[i]) && l == arr[i].outcome.hint.value
  {
    if |arr| == 0 then cur
    else
      var next := if SetsLabels(arr[0]) then arr[0].outcome.hint.value else cur;
      var l := Immediate(arr[1..], next);
      assert l == next || exists i :: 1 <= i < |arr| && SetsLabels(arr[i]) && l == arr[i].outcome.hint.value by {
        if l != next {
          var i :| 0 <= i < |arr[1..]| && SetsLabels(arr[1..][i]) && l == arr[1..][i].outcome.hint.value;
          assert arr[1..][i] == arr[i + 1];
        }
      }
      l
  }

  /** Arrival `i` sets the labels and no later arrival does. */
  predicate LastSetter(arr: seq<Arrival>, i: nat) {
    i < |arr| && SetsLabels(arr[i]) && forall j :: i < j < |arr| ==> !SetsLabels(arr[j])
  }

  /** The labels after the readers have run are the pair of the last arrival
      that sets them, wherever it stands in the batch. */
  lemma {:induction false} ImmediateLastSetter(arr: seq<Arrival>, cur: Labels, i: nat)
    requires LastSetter(arr, i)
    ensures Immediate(arr, cur) == arr[i].outcome.hint.value
  {
    var next := if SetsLabels(arr[0]) then arr[0].outcome.hint.value else cur;
    var tail := arr[1..];
    if i == 0 {
      assert forall j :: 0 <= j < |tail| ==> !SetsLabels(tail[j]) by {
        forall j | 0 <= j < |tail| ensures !SetsLabels(tail[j]) {
          assert tail[j] == arr[j + 1];
        }
      }
    } else {
      assert LastSetter(tail, i - 1) by {
        forall j | i - 1 < j < |tail| ensures !SetsLabels(tail[j]) {
          assert tail[j] == arr[j + 1];
        }
      }
      ImmediateLastSetter(tail, next, i - 1);
    }
  }

  /** The RELAB label store after the batch: each XML label is filed under its
      key, a later one replacing an earlier one. */
  function Store(arr: seq<Arrival>, store: map<String, RelabMeta>): (r: map<String, RelabMeta>)
    ensures forall k :: k in store ==> k in r
    ensures forall k :: k in r && k !in store ==> exists i :: 0 <= i < |arr| && arr[i].outcome.Label? && arr[i].outcome.key == k
    ensures |arr| > 0 && arr[|arr| - 1].outcome.Label? ==>
              var o := arr[|arr| - 1].outcome; o.key in r && r[o.key] == o.meta
    ensures (forall i :: 0 <= i < |arr| ==> !arr[i].outcome.Label?) ==> r == store
  {
    if |arr| == 0 then store
    else
      var next := if arr[0].outcome.Label? then store[arr[0].outcome.key := arr[0].outcome.meta] else store;
      var r := Store(arr[1..], next);
      assert forall k :: k in r && k !in store ==>
               exists i :: 0 <= i < |arr| && arr[i].outcome.Label? && arr[i].outcome.key == k by {
        forall k | k in r && k !in store
          ensures exists i :: 0 <= i < |arr| && arr[i].outcome.Label? && arr[i].outcome.key == k
        {
          if k !in next {
            var i :| 0 <= i < |arr[1..]| && arr[1..][i].outcome.Label? && arr[1..][i].outcome.key == k;
            assert arr[i + 1] == arr[1..][i];
          } else {
            assert arr[0].outcome.Label? && arr[0].outcome.key == k;
          }
        }
      }
      r
  }

  /** Arrival `a` is an XML label filed under key `k`. */
  predicate Files(a: Arrival, k: String) {
    a.outcome.Label? && a.outcome.key == k
  }

  /** A key no XML file of the batch is filed under keeps its entry, or its
      absence. */
  lemma {:induction false} StoreUntouched(arr: seq<Arrival>, store: map<String, RelabMeta>, k: String)
    requires forall i :: 0 <= i < |arr| ==> !Files(arr[i], k)
    ensures (k in Store(arr, store)) == (k in store)
    ensures k in store ==> Store(arr, store)[k] == store[k]
  {
    if |arr| > 0 {
      var next := if arr[0].outcome.Label? then store[arr[0].outcome.key := arr[0].outcome.meta] else store;
      assert !Files(arr[0], k);
      assert (k in next) == (k in store) && (k in store ==> next[k] == store[k]);
      var tail := arr[1..];
      assert forall i :: 0 <= i < |tail| ==> !Files(tail[i], k) by {
        forall i | 0 <= i < |tail| ensures !Files(tail[i], k) {
          assert tail[i] == arr[i + 1];
        }
      }
      StoreUntouched(tail, next, k);
    }
  }

  /** The last XML file filed under a key decides that key's label, wherever
      it stands in the batch. */
  lemma {:induction false} StoreLastLabel(arr: seq<Arrival>, store: map<String, RelabMeta>, i: nat)
    requires i < |arr| && arr[i].outcome.Label?
    requires forall j :: i < j < |arr| ==> !Files(arr[j], arr[i].outcome.key)
    ensures var o := arr[i].outcome; o.key in Store(arr, store) && Store(arr, store)[o.key] == o.meta
  {
    var o := arr[i].outcome;
    var next := if arr[0].outcome.Label? then store[arr[0].outcome.key := arr[0].outcome.meta] else store;
    var tail := arr[1..];
    if i == 0 {
      assert forall j :: 0 <= j < |tail| ==> !Files(tail[j], o.key) by {
        forall j | 0 <= j < |tail| ensures !Files(tail[j], o.key) {
          assert tail[j] == arr[j + 1];
        }
      }
      StoreUntouched(tail, next, o.key);
    } else {
      assert tail[i - 1] == arr[i];
      assert forall j :: i - 1 < j < |tail| ==> !Files(tail[j], o.key) by {
        forall j | i - 1 < j < |tail| ensures !Files(tail[j], o.key) {
          assert tail[j] == arr[j + 1];
        }
      }
      StoreLastLabel(tail, next, i - 1);
    }
  }

  /** The label pairs the non-null hints propose, in order. */
  function Present(hints: seq<Option<Labels>>): (ps: seq<Labels>)
    ensures forall l :: l in ps <==> Some(l) in hints
  {
    if |hints| == 0 then []
    else
      var rest := Present(hints[1..]);
      assert forall l :: Some(l) in hints <==> Some(l) == hints[0] || Some(l) in hints[1..];
      if hints[0].Some? then [hints[0].value] + rest else rest
  }

  /** The first occurrence of every pair, in order (`unique`). */
  function Distinct(xs: seq<Labels>): (u: seq<Labels>)
    ensures forall l :: l in u <==> l in xs
    ensures forall i, j :: 0 <= i < j < |u| ==> u[i] != u[j]
    ensures |xs| > 0 && (forall i :: 0 <= i < |xs| ==> xs[i] == xs[0]) ==> u == [xs[0]]
  {
    if |xs| == 0 then []
    else
      var d := Distinct(xs[..|xs| - 1]);
      assert forall l :: l in xs <==> l in xs[..|xs| - 1] || l == xs[|xs| - 1] by {
        assert xs == xs[..|xs| - 1] + [xs[|xs| - 1]];
      }
      if xs[|xs| - 1] in d then d else d + [xs[|xs| - 1]]
  }

  /** Whether every non-null hint proposes `l`, and some hint does. */
  predicate OnlyHint(hints: seq<Option<Labels>>, l: Labels) {
    Some(l) in hints && forall h :: h in hints && h.Some? ==> h == Some(l)
  }

  /** Whether two non-null hints disagree. */
  predicate Conflict(hints: seq<Option<Labels>>) {
    exists i, j :: 0 <= i < |hints| && 0 <= j < |hints| && hints[i].Some? && hints[j].Some? && hints[i] != hints[j]
  }

  /** Label reconciliation after the batch when the labels are not locked:
      the result is the labels, the candidate list and whether the candidate
      dialog is open. */
  function Reconcile(hints: seq<Option<Labels>>, labels: Labels, candidates: seq<Labels>, dialog: bool)
    : (r: (Labels, seq<Labels>, bool))
    ensures (forall h :: h in hints ==> h.None?) ==> r == (labels, candidates, dialog)
    ensures forall l :: OnlyHint(hints, l) ==> r == (l, candidates, dialog)
    ensures Conflict(hints) ==>
              && r.0 == labels && r.2
              && (forall l :: l in r.1 <==> Some(l) in hints)
              && (forall i, j :: 0 <= i < j < |r.1| ==> r.1[i] != r.1[j])
  {
    var unique := Distinct(Present(hints));
    assert forall l :: OnlyHint(hints, l) ==> unique == [l] by {
      forall l | OnlyHint(hints, l) ensures unique == [l] {
        var ps := Present(hints);
        assert l in ps;
        forall i | 0 <= i < |ps| ensures ps[i] == ps[0] {
          assert Some(ps[i]) in hints && Some(ps[0]) in hints;
        }
      }
    }
    assert Conflict(hints) ==> |unique| > 1 by {
      if Conflict(hints) {
        var i, j :| 0 <= i < |hints| && 0 <= j < |hints| && hints[i].Some? && hints[j].Some? && hints[i] != hints[j];
        assert hints[i].value in unique && hints[j].value in unique;
      }
    }
    assert (forall h :: h in hints ==> h.None?) ==> unique == [] by {
      if unique != [] {
        assert Some(unique[0]) in hints;
      }
    }
    if |unique| == 1 then (unique[0], candidates, dialog)
    else if |unique| > 1 then (labels, unique, true)
    else (labels, candidates, dialog)
  }

  /** Whether `ts` is ordered by `key`, largest first. */
  predicate Descending<T>(ts: seq<T>, key: T -> String) {
    forall i, j :: 0 <= i < j < |ts| ==> !LexLess(key(ts[i]), key(ts[j]))
  }

  /** Places `t` after every entry whose key does not sort below its own. */
  function Insert<T>(t: T, ts: seq<T>, key: T -> String): (r: seq<T>)
    requires Descending(ts, key)
    ensures Descending(r, key)
    ensures multiset(r) == multiset(ts) + multiset{t}
  {
    if |ts| == 0 then [t]
    else if LexLess(key(ts[0]), key(t)) then
      InsertFront(t, ts, key);
      [t] + ts
    else
      var rest := Insert(t, ts[1..], key);
      assert ts == [ts[0]] + ts[1..];
      InsertBehind(t, ts, rest, key);
      [ts[0]] + rest
  }

  lemma InsertFront<T>(t: T, ts: seq<T>, key: T -> String)
    requires Descending(ts, key) && |ts| > 0 && LexLess(key(ts[0]), key(t))
    ensures Descending([t] + ts, key)
  {
    LexLessAsymmetric(key(ts[0]), key(t));
    forall j | 0 <= j < |ts| ensures !LexLess(key(t), key(ts[j])) {
      if LexLess(key(t), key(ts[j])) && j > 0 {
        LexLessTransitive(key(ts[0]), key(t), key(ts[j]));
      }
    }
    assert forall j :: 0 < j < |[t] + ts| ==> ([t] + ts)[j] == ts[j - 1];
  }

  lemma InsertBehind<T>(t: T, ts: seq<T>, rest: seq<T>, key: T -> String)
    requires Descending(ts, key) && |ts| > 0 && !LexLess(key(ts[0]), key(t))
    requires Descending(rest, key) && multiset(rest) == multiset(ts[1..]) + multiset{t}
    ensures Descending([ts[0]] + rest, key)
  {
    forall j | 0 <= j < |rest| ensures !LexLess(key(ts[0]), key(rest[j])) {
      assert rest[j] in multiset(rest);
      if rest[j] != t {
        assert rest[j] in ts[1..];
      }
    }
    assert forall j :: 0 < j < |[ts[0]] + rest| ==> ([ts[0]] + rest)[j] == rest[j - 1];
  }

  /** The stable insertion sort by `key`, largest first. */
  function SortDesc<T>(ts: seq<T>, key: T -> String): (r: seq<T>)
    ensures Descending(r, key)
    ensures multiset(r) == multiset(ts)
  {
    if |ts| == 0 then []
    else
      assert ts == ts[..|ts| - 1] + [ts[|ts| - 1]];
      Insert(ts[|ts| - 1], SortDesc(ts[..|ts| - 1], key), key)
  }

  /** The sort key of the batch: the lower-cased file name. */
  function NameKey(t: Trace): String {
    Lower(t.name)
  }

  /** The new traces in the order they are appended. */
  function Block(arr: seq<Arrival>, color: nat): (b: seq<Trace>)
    ensures |b| == |Loads(arr)|
    ensures Descending(b, NameKey)
    ensures multiset(b) == multiset(NewTraces(arr, color))
  {
    var b := SortDesc(NewTraces(arr, color), NameKey);
    assert |multiset(b)| == |multiset(NewTraces(arr, color))|;
    b
  }

  function Names(ts: seq<Trace>): (ns: seq<String>)
    ensures |ns| == |ts| && forall k :: 0 <= k < |ts| ==> ns[k] == ts[k].name
  {
    seq(|ts|, k requires 0 <= k < |ts| => ts[k].name)
  }

  function Repeat<T>(x: T, n: nat): (r: seq<T>)
    ensures |r| == n && forall k :: 0 <= k < n ==> r[k] == x
  {
    seq(n, _ => x)
  }

  /** What happens once every reader of a non-empty batch has finished: the new
      traces, sorted by name, are appended behind the existing ones, each
      visible and in the group that was active when the batch started; the
      labels are reconciled unless locked; the ranges are reset. */
  function Merge(s: State, arr: seq<Arrival>): (r: State)
    ensures var n := |Loads(arr)|;
      && |r.traces| == |s.traces| + n && |r.filesInfo| == |s.filesInfo| + n
      && |r.visibility| == |s.visibility| + n && |r.traceGroupIds| == |s.traceGroupIds| + n
      && r.nextColor == s.nextColor + n && r.loadedCount == s.loadedCount + n
    ensures && r.traces[..|s.traces|] == s.traces && r.filesInfo[..|s.filesInfo|] == s.filesInfo
            && r.visibility[..|s.visibility|] == s.visibility
            && r.traceGroupIds[..|s.traceGroupIds|] == s.traceGroupIds
    ensures r.traces[|s.traces|..] == Block(arr, s.nextColor)
    ensures r.filesInfo[|s.filesInfo|..] == Names(Block(arr, s.nextColor))
    ensures forall i :: |s.visibility| <= i < |r.visibility| ==> r.visibility[i]
    ensures forall i :: |s.traceGroupIds| <= i < |r.traceGroupIds| ==> r.traceGroupIds[i] == s.activeGroupId
    ensures r.xRange.None? && r.yRange.None?
    ensures && r.groups == s.groups && r.activeGroupId == s.activeGroupId && r.groupShown == s.groupShown
            && r.locked == s.locked && r.reflectancePreset == s.reflectancePreset
    ensures s.locked ==> r.labels == s.labels && r.candidates == s.candidates && r.headerDialog == s.headerDialog
    ensures !s.locked ==>
              (r.labels, r.candidates, r.headerDialog)
              == Reconcile(Hints(arr), Immediate(arr, s.labels), s.candidates, s.headerDialog)
    ensures r.labelStore == Store(arr, s.labelStore)
    ensures Lockstep(s) ==> Lockstep(r)
  {
    var sorted := Block(arr, s.nextColor);
    var n := |sorted|;
    var (labels, candidates, dialog) :=
      if s.locked then (s.labels, s.candidates, s.headerDialog)
      else Reconcile(Hints(arr), Immediate(arr, s.labels), s.candidates, s.headerDialog);
    var r := s.(traces := s.traces + sorted,
                filesInfo := s.filesInfo + Names(sorted),
                visibility := s.visibility + Repeat(true, n),
                traceGroupIds := s.traceGroupIds + Repeat(s.activeGroupId, n),
                nextColor := s.nextColor + n,
                loadedCount := s.loadedCount + n,
                labels := labels, candidates := candidates, headerDialog := dialog,
                xRange := None, yRange := None,
                labelStore := Store(arr, s.labelStore));
    assert r.traces[|s.traces|..] == sorted;
    assert r.filesInfo[|s.filesInfo|..] == Names(sorted);
    r
  }

  /** The settings every file of a batch is read with. */
  function BatchSettings(s: State, unitNm: bool): Settings {
    Settings(s.reflectancePreset, unitNm, s.labelStore)
  }

  function Arrivals(files: seq<SourceFile>, st: Settings): (arr: seq<Arrival>)
    ensures |arr| == |files|
  {
    seq(|files|, i requires 0 <= i < |files| => Arrival(files[i].name, Ingest(files[i], st)))
  }

  predicate AllPaired(ts: seq<Trace>) {
    forall i :: 0 <= i < |ts| ==> Paired(ts[i].data)
  }

  /** `parseAndAddFiles(files, unitOverride)` with `files` listed in the order
      their readers complete: an empty batch changes nothing; otherwise every
      file goes through the per-file step and the results are merged. */
  function Batch(s: State, files: seq<SourceFile>, unitNm: bool): (r: State)
    ensures |files| == 0 ==> r == s
    ensures |files| > 0 ==> r == Merge(s, Arrivals(files, BatchSettings(s, unitNm)))
    ensures Lockstep(s) ==> Lockstep(r)
    ensures AllPaired(s.traces) ==> AllPaired(r.traces)
  {
    if |files| == 0 then s
    else
      var arr := Arrivals(files, BatchSettings(s, unitNm));
      var r := Merge(s, arr);
      ArrivalsPaired(files, BatchSettings(s, unitNm));
      BlockPaired(arr, s.nextColor);
      assert r.traces == s.traces + Block(arr, s.nextColor);
      r
  }

  lemma ArrivalsPaired(files: seq<SourceFile>, st: Settings)
    ensures var arr := Arrivals(files, st);
      forall i :: 0 <= i < |arr| ==> arr[i].outcome.Loaded? ==> Paired(arr[i].outcome.data)
  {
    var arr := Arrivals(files, st);
    forall i | 0 <= i < |arr| && arr[i].outcome.Loaded? ensures Paired(arr[i].outcome.data) {
      assert arr[i].outcome == Ingest(files[i], st);
    }
  }

  /** Every trace a batch appends has as many x as y values when every file's
      series does. */
  lemma BlockPaired(arr: seq<Arrival>, color: nat)
    requires forall i :: 0 <= i < |arr| ==> arr[i].outcome.Loaded? ==> Paired(arr[i].outcome.data)
    ensures AllPaired(Block(arr, color))
  {
    var ts := NewTraces(arr, color);
    var b := Block(arr, color);
    forall i | 0 <= i < |b| ensures Paired(b[i].data) {
      assert b[i] in multiset(ts);
      var k :| 0 <= k < |ts| && ts[k] == b[i];
      assert Loads(arr)[k] in arr;
    }
  }

  predicate DistinctColors(ts: seq<Trace>) {
    forall i, j :: 0 <= i < j < |ts| ==> ts[i].color != ts[j].color
  }

  lemma {:induction false} InsertKeepsDistinctColors(t: Trace, ts: seq<Trace>, key: Trace -> String)
    requires Descending(ts, key) && DistinctColors(ts)
    requires forall u :: u in ts ==> u.color != t.color
    ensures DistinctColors(Insert(t, ts, key))
  {
    if |ts| > 0 && !LexLess(key(ts[0]), key(t)) {
      var rest := Insert(t, ts[1..], key);
      InsertKeepsDistinctColors(t, ts[1..], key);
      forall u | u in rest ensures u.color != ts[0].color {
        assert u in multiset(rest);
        if u != t {
          var j :| 0 <= j < |ts[1..]| && ts[1..][j] == u;
          assert u == ts[j + 1];
        }
      }
      ConsDistinctColors(ts[0], rest);
    } else if |ts| > 0 {
      ConsDistinctColors(t, ts);
    }
  }

  lemma ConsDistinctColors(t: Trace, ts: seq<Trace>)
    requires DistinctColors(ts) && forall u :: u in ts ==> u.color != t.color
    ensures DistinctColors([t] + ts)
  {
    assert forall j :: 0 < j < |[t] + ts| ==> ([t] + ts)[j] == ts[j - 1];
  }

  lemma {:induction false} SortKeepsDistinctColors(ts: seq<Trace>, key: Trace -> String)
    requires DistinctColors(ts)
    ensures DistinctColors(SortDesc(ts, key))
  {
    if |ts| > 0 {
      var init := ts[..|ts| - 1];
      var last := ts[|ts| - 1];
      SortKeepsDistinctColors(init, key);
      forall u | u in SortDesc(init, key) ensures u.color != last.color {
        assert u in multiset(SortDesc(init, key));
        var j :| 0 <= j < |init| && init[j] == u;
      }
      InsertKeepsDistinctColors(last, SortDesc(init, key), key);
    }
  }

  lemma ModTenDiffers(a: nat, d: nat)
    requires 0 < d < 10
    ensures (a + d) % 10 != a % 10
  {
    var q := a / 10;
    var r := a % 10;
    if r + d < 10 {
      assert a + d == 10 * q + (r + d);
    } else {
      assert a + d == 10 * (q + 1) + (r + d - 10);
    }
  }

  lemma NewTraceColor(arr: seq<Arrival>, color: nat, k: nat)
    requires k < |Loads(arr)|
    ensures NewTraces(arr, color)[k].color == PaletteColor(color + k)
  {
    var ls := Loads(arr);
    assert NewTraces(arr, color)[k] == Trace(ls[k].outcome.data, PaletteColor(color + k), ls[k].name);
  }

  lemma NewTracesColorsDistinct(arr: seq<Arrival>, color: nat)
    requires |Loads(arr)| <= 10
    ensures DistinctColors(NewTraces(arr, color))
  {
    var ts := NewTraces(arr, color);
    forall k | 0 <= k < |ts| ensures ts[k].color == PaletteColor(color + k) {
      NewTraceColor(arr, color, k);
    }
    CounterColorsDistinct(ts, color);
  }

  /** Traces coloured from consecutive counter values, at most ten of them,
      have different colours. */
  lemma CounterColorsDistinct(ts: seq<Trace>, color: nat)
    requires |ts| <= 10
    requires forall k :: 0 <= k < |ts| ==> ts[k].color == PaletteColor(color + k)
    ensures DistinctColors(ts)
  {
    forall i, j | 0 <= i < j < |ts| ensures ts[i].color != ts[j].color {
      CounterColorsAt(ts, color, i, j);
    }
  }

  lemma CounterColorsAt(ts: seq<Trace>, color: nat, i: nat, j: nat)
    requires i < j < |ts| <= 10
    requires forall k :: 0 <= k < |ts| ==> ts[k].color == PaletteColor(color + k)
    ensures ts[i].color != ts[j].color
  {
    var a := color + i;
    var b := color + j;
    assert ts[i].color == PaletteColor(a);
    assert ts[j].color == PaletteColor(b);
    NearColorsDiffer(a, b);
  }

  /** Counter values fewer than ten apart get different colours. */
  lemma NearColorsDiffer(a: nat, b: nat)
    requires a < b < a + 10
    ensures PaletteColor(a) != PaletteColor(b)
  {
    ModTenDiffers(a, b - a);
    PaletteColorsDiffer(a, b);
  }

  /** A batch of at most ten traces gets ten different colours, whatever the
      order the files complete in and whatever the sort does to them. */
  lemma BatchColorsDistinct(arr: seq<Arrival>, color: nat)
    requires |Loads(arr)| <= 10
    ensures DistinctColors(Block(arr, color))
  {
    NewTracesColorsDistinct(arr, color);
    SortKeepsDistinctColors(NewTraces(arr, color), NameKey);
  }

  /** The colour a trace gets depends on when its file finishes reading, not on
      where the sort puts it: of two files that finish as `a.txt` then `b.txt`,
      `b.txt` is listed first and has the second colour. */
  lemma ColorFollowsCompletion(a: Series, b: Series)
    ensures Block([Arrival("a.txt", Loaded(a, None, false)), Arrival("b.txt", Loaded(b, None, false))], 0)
            == [Trace(b, Palette[1], "b.txt"), Trace(a, Palette[0], "a.txt")]
  {
    var arr := [Arrival("a.txt", Loaded(a, None, false)), Arrival("b.txt", Loaded(b, None, false))];
    var ta := Trace(a, Palette[0], "a.txt");
    var tb := Trace(b, Palette[1], "b.txt");
    TwoArrivals(a, b);
    assert LexLess(NameKey(ta), NameKey(tb));
    OrderOfTwo(ta, tb, Block(arr, 0));
  }

  lemma TwoArrivals(a: Series, b: Series)
    ensures NewTraces([Arrival("a.txt", Loaded(a, None, false)), Arrival("b.txt", Loaded(b, None, false))], 0)
            == [Trace(a, Palette[0], "a.txt"), Trace(b, Palette[1], "b.txt")]
  {
    var arr := [Arrival("a.txt", Loaded(a, None, false)), Arrival("b.txt", Loaded(b, None, false))];
    assert Loads(arr[1..][1..]) == [];
    assert Loads(arr) == arr;
  }

  /** Two traces sorted by descending name: the one whose name sorts higher
      comes first. */
  lemma OrderOfTwo(ta: Trace, tb: Trace, block: seq<Trace>)
    requires LexLess(NameKey(ta), NameKey(tb)) && ta != tb
    requires Descending(block, NameKey) && multiset(block) == multiset{ta, tb}
    ensures block == [tb, ta]
  {
    assert |block| == 2 by { assert |multiset(block)| == |block|; }
    assert block == [block[0], block[1]];
    assert block[0] in multiset{ta, tb} && block[1] in multiset{ta, tb};
  }

  // ---------------------------------------------------------------------------
  // Per-trace handlers

  /** `toggleVisibility(idx)` from the legend checkbox. */
  function ToggleVisibility(s: State, idx: nat): (r: State)
    requires idx < |s.visibility|
    ensures |r.visibility| == |s.visibility| && r.visibility[idx] == !s.visibility[idx]
    ensures forall i :: 0 <= i < |s.visibility| && i != idx ==> r.visibility[i] == s.visibility[i]
    ensures r.(visibility := s.visibility) == s
  {
    s.(visibility := s.visibility[idx := !s.visibility[idx]])
  }

  /** `clearAll` as written: the traces, names and flags are emptied and the
      ranges reset, but the group memberships are kept. Afterwards the lists are
      out of step whenever there were traces. */
  function ClearAll(s: State): (r: State)
    ensures r.traces == [] && r.filesInfo == [] && r.visibility == []
    ensures r.traceGroupIds == s.traceGroupIds
    ensures r.xRange.None? && r.yRange.None?
    ensures Lockstep(s) && |s.traces| > 0 ==> !Lockstep(r)
  {
    s.(traces := [], filesInfo := [], visibility := [], xRange := None, yRange := None)
  }

  /** `clearAll` emptying the group memberships with the other lists. */
  function ClearAllIntended(s: State): (r: State)
    ensures Lockstep(r) && |r.traces| == 0
    ensures r.xRange.None? && r.yRange.None?
    ensures r.groups == s.groups && r.activeGroupId == s.activeGroupId && r.nextColor == s.nextColor
  {
    s.(traces := [], filesInfo := [], visibility := [], traceGroupIds := [], xRange := None, yRange := None)
  }

  datatype Axis = XAxis | YAxis

  /** `applyInlineRange(axis)`: both inputs are read with `parseFloat`; the range
      is set only when both are finite and the minimum is below the maximum. */
  function ApplyInlineRange(s: State, axis: Axis, minText: String, maxText: String): (r: State)
    ensures r.(xRange := s.xRange, yRange := s.yRange) == s
    ensures axis == XAxis ==> r.yRange == s.yRange
    ensures axis == YAxis ==> r.xRange == s.xRange
    ensures var lo := ParseFloat(minText); var hi := ParseFloat(maxText);
            var chosen := if axis == XAxis then r.xRange else r.yRange;
            && (lo.Some? && hi.Some? && lo.value < hi.value ==> chosen == Some(Range(lo.value, hi.value)))
            && (!(lo.Some? && hi.Some? && lo.value < hi.value) ==> r == s)
    ensures var chosen := if axis == XAxis then r.xRange else r.yRange;
            r != s ==> && chosen.Some? && chosen.value.lo < chosen.value.hi
                       && ParseFloat(minText) == Some(chosen.value.lo)
                       && ParseFloat(maxText) == Some(chosen.value.hi)
  {
    match (ParseFloat(minText), ParseFloat(maxText))
    case (Some(lo), Some(hi)) =>
      if lo < hi then
        (match axis
         case XAxis => s.(xRange := Some(Range(lo, hi)))
         case YAxis => s.(yRange := Some(Range(lo, hi))))
      else s
    case _ => s
  }

  /** Typing two whole numbers, the smaller first, sets exactly that range. */
  lemma TypedRangeApplies(s: State, axis: Axis, lo: nat, hi: nat)
    requires lo < hi
    ensures var r := ApplyInlineRange(s, axis, FormatNat(lo), FormatNat(hi));
      (if axis == XAxis then r.xRange else r.yRange) == Some(Range(lo as real, hi as real))
  {
    FormatNatParses(lo);
    FormatNatParses(hi);
  }

  /** Typing a maximum that is not above the minimum changes nothing. */
  lemma TypedRangeRejected(s: State, axis: Axis, lo: nat, hi: nat)
    requires hi <= lo
    ensures ApplyInlineRange(s, axis, FormatNat(lo), FormatNat(hi)) == s
  {
    FormatNatParses(lo);
    FormatNatParses(hi);
  }

  /** A minimum that starts with neither white space, a sign, a digit nor a
      dot is not a number, so the range stays as it was. */
  lemma NonNumericRangeRejected(s: State, axis: Axis, minText: String, maxText: String)
    requires |minText| > 0 && !IsSpace(minText[0]) && !IsDigit(minText[0])
    requires minText[0] != '+' && minText[0] != '-' && minText[0] != '.'
    ensures ApplyInlineRange(s, axis, minText, maxText) == s
  {
  }

  /** `changeColor(idx)`: the chosen colour replaces the trace's line colour. */
  function SetColor(s: State, idx: nat, c: String): (r: State)
    requires idx < |s.traces|
    ensures |r.traces| == |s.traces| && r.traces[idx] == s.traces[idx].(color := c)
    ensures forall i :: 0 <= i < |s.traces| && i != idx ==> r.traces[i] == s.traces[i]
    ensures r.(traces := s.traces) == s
  {
    s.(traces := s.traces[idx := s.traces[idx].(color := c)])
  }

  /** The list without its entry at `idx`; an index past the end removes
      nothing. */
  function RemoveAt<T>(xs: seq<T>, idx: nat): (r: seq<T>)
    ensures idx < |xs| ==> |r| == |xs| - 1
    ensures idx < |xs| ==> (forall j :: 0 <= j < idx ==> r[j] == xs[j])
    ensures idx < |xs| ==> (forall j :: idx <= j < |r| ==> r[j] == xs[j + 1])
    ensures idx >= |xs| ==> r == xs
  {
    if idx < |xs| then xs[..idx] + xs[idx + 1..] else xs
  }

  /** The unload button: entry `idx` leaves all four lists; nothing else
      changes. */
  function Unload(s: State, idx: nat): (r: State)
    ensures r.traces == RemoveAt(s.traces, idx) && r.filesInfo == RemoveAt(s.filesInfo, idx)
    ensures r.visibility == RemoveAt(s.visibility, idx) && r.traceGroupIds == RemoveAt(s.traceGroupIds, idx)
    ensures r.(traces := s.traces, filesInfo := s.filesInfo, visibility := s.visibility,
               traceGroupIds := s.traceGroupIds) == s
    ensures Lockstep(s) ==> Lockstep(r)
  {
    s.(traces := RemoveAt(s.traces, idx), filesInfo := RemoveAt(s.filesInfo, idx),
       visibility := RemoveAt(s.visibility, idx), traceGroupIds := RemoveAt(s.traceGroupIds, idx))
  }

  /** Dropping a legend entry on a group without Ctrl: the trace moves there. */
  function MoveToGroup(s: State, idx: nat, g: GroupId): (r: State)
    requires idx < |s.traceGroupIds|
    ensures |r.traceGroupIds| == |s.traceGroupIds| && r.traceGroupIds[idx] == Some(g)
    ensures forall i :: 0 <= i < |s.traceGroupIds| && i != idx ==> r.traceGroupIds[i] == s.traceGroupIds[i]
    ensures r.(traceGroupIds := s.traceGroupIds) == s
    ensures Lockstep(s) ==> Lockstep(r)
    ensures idx < |s.visibility| && s.visibility[idx] && s.activeGroupId == Some(g) ==> Rendered(r, idx)
  {
    s.(traceGroupIds := s.traceGroupIds[idx := Some(g)])
  }

  /** Dropping a legend entry on a group with Ctrl: a copy of the trace, named
      after its file and with the next colour, is appended to the group,
      visible. */
  function CloneIntoGroup(s: State, idx: nat, g: GroupId): (r: State)
    requires idx < |s.traces| && idx < |s.filesInfo|
    ensures r.traces == s.traces + [Trace(s.traces[idx].data, PaletteColor(s.nextColor), s.filesInfo[idx])]
    ensures r.filesInfo == s.filesInfo + [s.filesInfo[idx]]
    ensures r.visibility == s.visibility + [true] && r.traceGroupIds == s.traceGroupIds + [Some(g)]
    ensures r.nextColor == s.nextColor + 1
    ensures Lockstep(s) ==> Lockstep(r)
    ensures Lockstep(s) && s.activeGroupId == Some(g) ==> Rendered(r, |s.traces|)
  {
    var copy := s.traces[idx].(color := PaletteColor(s.nextColor), name := s.filesInfo[idx]);
    s.(traces := s.traces + [copy], filesInfo := s.filesInfo + [s.filesInfo[idx]],
       visibility := s.visibility + [true], traceGroupIds := s.traceGroupIds + [Some(g)],
       nextColor := s.nextColor + 1)
  }

  /** Unloading the copy a Ctrl-drop made gives back the lists as they were;
      only the colour counter remembers the copy. */
  lemma {:induction false} UnloadUndoesClone(s: State, idx: nat, g: GroupId)
    requires Lockstep(s) && idx < |s.traces|
    ensures Unload(CloneIntoGroup(s, idx, g), |s.traces|) == s.(nextColor := s.nextColor + 1)
  {
    var c := CloneIntoGroup(s, idx, g);
    var n := |s.traces|;
    assert c.traces[..n] == s.traces && c.traces[n + 1..] == [];
    assert c.filesInfo[..n] == s.filesInfo && c.filesInfo[n + 1..] == [];
    assert c.visibility[..n] == s.visibility && c.visibility[n + 1..] == [];
    assert c.traceGroupIds[..n] == s.traceGroupIds && c.traceGroupIds[n + 1..] == [];
  }

  // ---------------------------------------------------------------------------
  // Groups

  /** Whether the flags of the traces of group `g` all agree with its toggle. */
  predicate GroupAgrees(s: State, g: GroupId) {
    forall i :: 0 <= i < |s.visibility| && i < |s.traceGroupIds| && s.traceGroupIds[i] == Some(g) ==>
      s.visibility[i] == Shown(s, g)
  }

  /** The group's Show/Hide toggle (context menu): the toggle flips, a group
      without an entry counting as hidden, and every trace of the group takes
      the new setting. */
  function ToggleGroup(s: State, g: GroupId): (r: State)
    ensures Shown(r, g) == !Shown(s, g) && GroupAgrees(r, g)
    ensures |r.visibility| == |s.visibility|
    ensures forall i :: 0 <= i < |s.visibility| && !(i < |s.traceGroupIds| && s.traceGroupIds[i] == Some(g)) ==>
              r.visibility[i] == s.visibility[i]
    ensures forall h :: h != g ==> (h in r.groupShown <==> h in s.groupShown) && (h in s.groupShown ==> r.groupShown[h] == s.groupShown[h])
    ensures r.(visibility := s.visibility, groupShown := s.groupShown) == s
  {
    var show := !Shown(s, g);
    var vis := seq(|s.visibility|, i requires 0 <= i < |s.visibility| =>
                     if i < |s.traceGroupIds| && s.traceGroupIds[i] == Some(g) then show else s.visibility[i]);
    s.(visibility := vis, groupShown := s.groupShown[g := show])
  }

  /** A click on a group: it becomes active and its toggle flips. Afterwards the
      drawn traces are exactly the group's traces, all of them or none. */
  function ClickGroup(s: State, g: GroupId): (r: State)
    ensures Shown(r, g) == !Shown(s, g) && r.activeGroupId == Some(g)
    ensures forall i :: 0 <= i < |s.visibility| ==>
              (Rendered(r, i) <==> i < |s.traceGroupIds| && s.traceGroupIds[i] == Some(g) && Shown(r, g))
    ensures r.traces == s.traces && r.traceGroupIds == s.traceGroupIds && r.groups == s.groups
    ensures Lockstep(s) ==> Lockstep(r)
    ensures GroupsValid(s) && g in Ids(s.groups) ==> GroupsValid(r)
  {
    ToggleGroup(s, g).(activeGroupId := Some(g))
  }

  /** The largest id of a non-empty group list. */
  function MaxId(gs: seq<Group>): (m: GroupId)
    requires |gs| > 0
    ensures m in Ids(gs) && forall i :: 0 <= i < |gs| ==> gs[i].id <= m
  {
    if |gs| == 1 then
      assert Ids(gs)[0] == gs[0].id;
      gs[0].id
    else
      var m := MaxId(gs[1..]);
      assert forall i :: 1 <= i < |gs| ==> gs[i] == gs[1..][i - 1];
      assert m in Ids(gs) by {
        var k :| 0 <= k < |gs[1..]| && Ids(gs[1..])[k] == m;
        assert Ids(gs)[k + 1] == m;
      }
      if gs[0].id > m then gs[0].id else m
  }

  /** The id the add button picks: one above the largest, or 1. */
  function NextGroupId(gs: seq<Group>): (id: GroupId)
    ensures id >= 1 && id !in Ids(gs)
    ensures forall i :: 0 <= i < |gs| ==> gs[i].id < id
  {
    if |gs| == 0 then 1 else MaxId(gs) + 1
  }

  /** The add button: a new group named after its fresh id, active and shown. */
  function AddGroup(s: State): (r: State)
    ensures var id := NextGroupId(s.groups);
      && r.groups == s.groups + [Group(id, FormatNat(id))]
      && r.activeGroupId == Some(id) && Shown(r, id)
    ensures forall h :: h in s.groupShown && h != NextGroupId(s.groups) ==> h in r.groupShown && r.groupShown[h] == s.groupShown[h]
    ensures GroupsValid(s) ==> GroupsValid(r)
    ensures && r.traces == s.traces && r.filesInfo == s.filesInfo && r.visibility == s.visibility
            && r.traceGroupIds == s.traceGroupIds
  {
    var id := NextGroupId(s.groups);
    var r := s.(groups := s.groups + [Group(id, FormatNat(id))], activeGroupId := Some(id),
                groupShown := s.groupShown[id := true]);
    assert Ids(r.groups)[|s.groups|] == id;
    assert forall i :: 0 <= i < |s.groups| ==> Ids(r.groups)[i] == Ids(s.groups)[i];
    r
  }

  /** Renaming from the context menu: a group with the given id exists and the
      prompt answer is not blank; only the name changes, to the trimmed answer. */
  function RenameGroup(s: State, id: GroupId, answer: Option<String>): (r: State)
    ensures Ids(r.groups) == Ids(s.groups)
    ensures id !in Ids(s.groups) || answer.None? || Trim(answer.value) == [] ==> r == s
    ensures id in Ids(s.groups) && answer.Some? && Trim(answer.value) != [] ==>
              forall i :: 0 <= i < |s.groups| ==>
                r.groups[i].name == (if s.groups[i].id == id then Trim(answer.value) else s.groups[i].name)
    ensures r.(groups := s.groups) == s
    ensures GroupsValid(s) ==> GroupsValid(r)
  {
    if id !in Ids(s.groups) then s
    else match answer
      case None => s
      case Some(a) =>
        var t := Trim(a);
        if t == [] then s
        else
          var gs := seq(|s.groups|, i requires 0 <= i < |s.groups| =>
                          if s.groups[i].id == id then s.groups[i].(name := t) else s.groups[i]);
          assert Ids(gs) == Ids(s.groups);
          s.(groups := gs)
  }

  /** The groups whose id is not `id`, in their original order. */
  function Without(gs: seq<Group>, id: GroupId): (r: seq<Group>)
    ensures forall g :: g in r <==> g in gs && g.id != id
    ensures id !in Ids(r)
    ensures DistinctIds(gs) ==> DistinctIds(r)
  {
    if |gs| == 0 then []
    else
      var rest := Without(gs[1..], id);
      assert forall g :: g in gs <==> g == gs[0] || g in gs[1..] by { assert gs == [gs[0]] + gs[1..]; }
      var r := if gs[0].id == id then rest else [gs[0]] + rest;
      assert DistinctIds(gs) ==> DistinctIds(r) by {
        if DistinctIds(gs) {
          TailDistinct(gs);
          if gs[0].id != id {
            PrependKeepsDistinct(gs, rest);
          }
        }
      }
      r
  }

  /** Removing a group distributes over concatenation: the kept groups keep
      their order. */
  lemma {:induction false} WithoutAppend(a: seq<Group>, b: seq<Group>, id: GroupId)
    ensures Without(a + b, id) == Without(a, id) + Without(b, id)
  {
    if |a| == 0 {
      assert a + b == b;
    } else {
      assert (a + b)[0] == a[0] && (a + b)[1..] == a[1..] + b;
      WithoutAppend(a[1..], b, id);
      if a[0].id != id {
        assert [a[0]] + (Without(a[1..], id) + Without(b, id))
            == ([a[0]] + Without(a[1..], id)) + Without(b, id);
      }
    }
  }

  /** The first group left is the first group in the list with another id. */
  lemma {:induction false} WithoutFirst(gs: seq<Group>, id: GroupId, k: nat)
    requires k < |gs| && gs[k].id != id && forall j :: 0 <= j < k ==> gs[j].id == id
    ensures |Without(gs, id)| > 0 && Without(gs, id)[0] == gs[k]
  {
    if k > 0 {
      WithoutFirst(gs[1..], id, k - 1);
    }
  }

  /** Nothing is left only when every group had the deleted id. */
  lemma {:induction false} WithoutEmpty(gs: seq<Group>, id: GroupId)
    requires forall j :: 0 <= j < |gs| ==> gs[j].id == id
    ensures Without(gs, id) == []
  {
    if |gs| > 0 {
      WithoutEmpty(gs[1..], id);
    }
  }

  lemma TailDistinct(gs: seq<Group>)
    requires |gs| > 0 && DistinctIds(gs)
    ensures DistinctIds(gs[1..])
  {
    forall i, j | 0 <= i < j < |gs| - 1 ensures gs[1..][i].id != gs[1..][j].id {
      assert gs[1..][i] == gs[i + 1] && gs[1..][j] == gs[j + 1];
    }
  }

  /** Keeping the first group in front of distinct groups taken from the rest
      keeps the ids distinct. */
  lemma PrependKeepsDistinct(gs: seq<Group>, rest: seq<Group>)
    requires |gs| > 0 && DistinctIds(gs) && DistinctIds(rest)
    requires forall g :: g in rest ==> g in gs[1..]
    ensures DistinctIds([gs[0]] + rest)
  {
    var r := [gs[0]] + rest;
    forall i, j | 0 <= i < j < |r| ensures r[i].id != r[j].id {
      assert r[j] == rest[j - 1];
      if i == 0 {
        assert r[j] in gs[1..];
        var k :| 0 <= k < |gs[1..]| && gs[1..][k] == r[j];
        assert gs[k + 1] == r[j];
      } else {
        assert r[i] == rest[i - 1];
      }
    }
  }

  /** Deleting a group from the context menu: refused while some trace belongs
      to it; otherwise the group and its toggle go away and, when it was the
      active one, the first remaining group (or none) becomes active. */
  function DeleteGroup(s: State, id: GroupId): (r: State)
    ensures Some(id) in s.traceGroupIds ==> r == s
    ensures Some(id) !in s.traceGroupIds ==>
              && r.groups == Without(s.groups, id)
              && (forall g :: g in r.groups <==> g in s.groups && g.id != id)
              && (s.activeGroupId == Some(id) ==>
                    r.activeGroupId == (if |r.groups| > 0 then Some(r.groups[0].id) else None))
              && id !in r.groupShown
              && (forall h :: h != id ==> (h in r.groupShown <==> h in s.groupShown))
              && (s.activeGroupId != Some(id) ==> r.activeGroupId == s.activeGroupId)
              && r.(groups := s.groups, activeGroupId := s.activeGroupId, groupShown := s.groupShown) == s
    ensures GroupsValid(s) ==> GroupsValid(r)
  {
    if Some(id) in s.traceGroupIds then s
    else
      var remaining := Without(s.groups, id);
      var active := if s.activeGroupId == Some(id) then
                      (if |remaining| > 0 then Some(remaining[0].id) else None)
                    else s.activeGroupId;
      var r := s.(groups := remaining, activeGroupId := active, groupShown := s.groupShown - {id});
      assert GroupsValid(s) ==> GroupsValid(r) by {
        if GroupsValid(s) && active.Some? {
          if s.activeGroupId == Some(id) {
            assert Ids(remaining)[0] == active.value;
          } else {
            KeptIdStays(s.groups, id, active.value);
          }
        }
      }
      r
  }

  /** An id other than the deleted one survives the deletion. */
  lemma KeptIdStays(gs: seq<Group>, id: GroupId, x: GroupId)
    requires x in Ids(gs) && x != id
    ensures x in Ids(Without(gs, id))
  {
    var remaining := Without(gs, id);
    var k :| 0 <= k < |gs| && Ids(gs)[k] == x;
    assert gs[k] in remaining;
    var j :| 0 <= j < |remaining| && remaining[j] == gs[k];
    assert Ids(remaining)[j] == x;
  }

  // ---------------------------------------------------------------------------
  // What `clearAll` leaves behind

  /** Group 1 active, one trace of group 2 loaded: the app state before the
      sequence of the finding. */
  function OneTraceInGroupTwo(t: Trace): (s: State)
    ensures Lockstep(s) && GroupsValid(s) && s.activeGroupId == Some(1)
  {
    Init().(traces := [t], filesInfo := [t.name], visibility := [true], traceGroupIds := [Some(2)])
  }

  /** After `clearAll` as written, the next file loaded into the active group
      is not drawn: it takes the stale membership of the trace cleared before
      it, and the lists stay out of step. */
  lemma ClearAllMisgroups(t: Trace, a: Arrival)
    requires a.outcome.Loaded?
    ensures var r := Merge(ClearAll(OneTraceInGroupTwo(t)), [a]);
      && |r.traces| == 1 && r.traceGroupIds[0] == Some(2) && !Rendered(r, 0) && !Lockstep(r)
  {
    assert Loads([a][1..]) == [];
  }

  /** With the memberships cleared too, a batch after `clearAll` keeps the
      lists in step and every new trace lands in the active group. */
  lemma {:induction false} ClearAllIntendedRegroups(s: State, arr: seq<Arrival>)
    ensures var r := Merge(ClearAllIntended(s), arr);
      && Lockstep(r)
      && forall i :: 0 <= i < |r.traces| ==> r.traceGroupIds[i] == s.activeGroupId && (r.visibility[i] && Rendered(r, i))
  {
    var c := ClearAllIntended(s);
    var r := Merge(c, arr);
    assert |c.traceGroupIds| == 0 && |c.visibility| == 0;
    forall i | 0 <= i < |r.traces| ensures r.traceGroupIds[i] == s.activeGroupId && r.visibility[i] && Rendered(r, i) {
    }
  }
}
