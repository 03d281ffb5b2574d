/** analyze_avalanche_attributes.py: scan the avalanche region summary for
    warnings above level 0, pick one region (the first with an active warning,
    else the first region), fetch its detailed warning once and sort fourteen
    avalanche-specific fields into available and unavailable ones.

    The two HTTP responses are inputs: the summary response, and `fetch`,
    which gives the detail response for a region id. Any exception the script
    would catch in its outer handler is the outcome Failed. */
module AttributeAnalysis {
  import opened Json
  import opened Text
  import opened DangerLevel

  /** One entry of `active_regions`: a summary region and one of its warnings. */
  datatype Pair = Pair(region: map<string, Json>, warning: map<string, Json>)

  /** `region.get("AvalancheWarningList", [])`. */
  function WarningList(region: map<string, Json>): (r: Json)
    ensures "AvalancheWarningList" !in region ==> r == Arr([])
  {
    GetOr(region, "AvalancheWarningList", Arr([]))
  }

  /** The `danger_level > 0` test of lines 40-48, where a missing level is 0
      and an unparsable or incomparable one is skipped. */
  predicate ActiveByInt(warning: map<string, Json>)
  {
    Active(LevelByInt(Get(warning, "DangerLevel")))
  }

  /** A summary entry the scan reads without raising: a dict whose warning
      list iterates, and iterates to dicts. */
  predicate ReadableRegion(v: Json)
  {
    && v.Obj?
    && Elements(WarningList(v.fields)).Some?
    && forall j :: 0 <= j < |Elements(WarningList(v.fields)).value| ==>
         Elements(WarningList(v.fields)).value[j].Obj?
  }

  /** The warnings of a readable region. */
  function WarningsOf(v: Json): seq<Json>
    requires v.Obj? && Elements(WarningList(v.fields)).Some?
  {
    Elements(WarningList(v.fields)).value
  }

  /** The pairs the inner loop appends for `region`, whose warnings are `ws`;
      None when a warning is not a dict and `warning.get` raises. */
  function RegionPairs(region: map<string, Json>, ws: seq<Json>): (r: Option<seq<Pair>>)
    ensures r.Some? <==> forall j :: 0 <= j < |ws| ==> ws[j].Obj?
    ensures r.Some? ==> |r.value| <= |ws|
  {
    if ws == [] then Some([])
    else
      match RegionPairs(region, ws[..|ws| - 1])
      case None => None
      case Some(ps) =>
        var w := ws[|ws| - 1];
        if !w.Obj? then None
        else if ActiveByInt(w.fields) then Some(ps + [Pair(region, w.fields)])
        else Some(ps)
  }

  /** `active_regions` after the nested loops of lines 36-48 over the regions
      `rs`; None when the scan raises. */
  function ActivePairs(rs: seq<Json>): (r: Option<seq<Pair>>)
    ensures r.Some? <==> forall i :: 0 <= i < |rs| ==> ReadableRegion(rs[i])
  {
    if rs == [] then Some([])
    else
      match ActivePairs(rs[..|rs| - 1])
      case None => None
      case Some(ps) =>
        var v := rs[|rs| - 1];
        if !v.Obj? then None
        else
          match Elements(WarningList(v.fields))
          case None => None
          case Some(ws) =>
            match RegionPairs(v.fields, ws)
            case None => None
            case Some(qs) => Some(ps + qs)
  }

  /** Lines 36-48: for each region, for each of its warnings, append the pair
      when the warning is active. `ok` is false when the scan raises. */
  method CollectActive(rs: seq<Json>) returns (ok: bool, active: seq<Pair>)
    ensures ok <==> ActivePairs(rs).Some?
    ensures ok ==> active == ActivePairs(rs).value
  {
    active := [];
    var i := 0;
    while i < |rs|
      invariant 0 <= i <= |rs|
      invariant ActivePairs(rs[..i]) == Some(active)
    {
      assert rs[..i + 1][..i] == rs[..i];
      var v := rs[i];
      if !v.Obj? {
        NoneExtends(rs, i + 1);
        return false, [];
      }
      var warnings := Elements(WarningList(v.fields));
      if warnings.None? {
        NoneExtends(rs, i + 1);
        return false, [];
      }
      var regionOk, found := CollectRegion(v.fields, warnings.value);
      if !regionOk {
        return false, [];
      }
      active := active + found;
      i := i + 1;
    }
    assert rs[..i] == rs;
    ok := true;
  }

  /** Lines 42-48: the inner loop over the warnings `ws` of one region. */
  method CollectRegion(region: map<string, Json>, ws: seq<Json>) returns (ok: bool, found: seq<Pair>)
    ensures ok <==> RegionPairs(region, ws).Some?
    ensures ok ==> found == RegionPairs(region, ws).value
  {
    found := [];
    var j := 0;
    while j < |ws|
      invariant 0 <= j <= |ws|
      invariant RegionPairs(region, ws[..j]) == Some(found)
    {
      assert ws[..j + 1][..j] == ws[..j];
      var w := ws[j];
      if !w.Obj? {
        RegionNoneExtends(region, ws, j + 1);
        return false, [];
      }
      if ActiveByInt(w.fields) {
        found := found + [Pair(region, w.fields)];
      }
      j := j + 1;
    }
    assert ws[..j] == ws;
    ok := true;
  }

  /** Once the scan of a prefix raises, so does the scan of the whole list. */
  lemma NoneExtends(rs: seq<Json>, n: nat)
    requires n <= |rs|
    requires ActivePairs(rs[..n]).None?
    ensures ActivePairs(rs).None?
  {
    var i :| 0 <= i < n && !ReadableRegion(rs[..n][i]);
    assert rs[..n][i] == rs[i];
  }

  lemma RegionNoneExtends(region: map<string, Json>, ws: seq<Json>, n: nat)
    requires n <= |ws|
    requires RegionPairs(region, ws[..n]).None?
    ensures RegionPairs(region, ws).None?
  {
    var j :| 0 <= j < n && !ws[..n][j].Obj?;
    assert ws[..n][j] == ws[j];
  }

  /** Every pair of a region is that region with one of its active warnings. */
  lemma {:induction false} RegionPairsSound(region: map<string, Json>, ws: seq<Json>, k: int)
    requires RegionPairs(region, ws).Some?
    requires 0 <= k < |RegionPairs(region, ws).value|
    ensures var p := RegionPairs(region, ws).value[k];
      p.region == region && ActiveByInt(p.warning) &&
      exists j :: 0 <= j < |ws| && ws[j] == Obj(p.warning)
    decreases |ws|
  {
    var front := ws[..|ws| - 1];
    var ps := RegionPairs(region, front).value;
    if k < |ps| {
      RegionPairsSound(region, front, k);
      var j :| 0 <= j < |front| && front[j] == Obj(ps[k].warning);
      assert ws[j] == front[j];
    } else {
      assert ws[|ws| - 1] == Obj(RegionPairs(region, ws).value[k].warning);
    }
  }

  /** Every active warning of a region gives a pair. */
  lemma {:induction false} RegionPairsComplete(region: map<string, Json>, ws: seq<Json>, j: int)
    requires RegionPairs(region, ws).Some?
    requires 0 <= j < |ws|
    requires ActiveByInt(ws[j].fields)
    ensures Pair(region, ws[j].fields) in RegionPairs(region, ws).value
    decreases |ws|
  {
    var front := ws[..|ws| - 1];
    if j < |ws| - 1 {
      assert front[j] == ws[j];
      RegionPairsComplete(region, front, j);
    }
  }

  /** The first pair of a region comes from its first active warning. */
  lemma {:induction false} RegionPairsFirst(region: map<string, Json>, ws: seq<Json>)
    requires RegionPairs(region, ws).Some? && RegionPairs(region, ws).value != []
    ensures RegionPairs(region, ws).value[0].region == region
    ensures exists j :: (0 <= j < |ws| && ws[j] == Obj(RegionPairs(region, ws).value[0].warning) &&
      ActiveByInt(ws[j].fields) && forall j' :: 0 <= j' < j ==> !ActiveByInt(ws[j'].fields))
    decreases |ws|
  {
    var front := ws[..|ws| - 1];
    var ps := RegionPairs(region, front).value;
    if ps != [] {
      RegionPairsFirst(region, front);
      var j :| 0 <= j < |front| && front[j] == Obj(ps[0].warning) &&
        ActiveByInt(front[j].fields) && forall j' :: 0 <= j' < j ==> !ActiveByInt(front[j'].fields);
      assert ws[j] == front[j];
      forall j' | 0 <= j' < j ensures !ActiveByInt(ws[j'].fields) {
        assert ws[j'] == front[j'];
      }
    } else {
      var n := |ws| - 1;
      forall j' | 0 <= j' < n ensures !ActiveByInt(ws[j'].fields) {
        assert ws[j'] == front[j'];
        if ActiveByInt(front[j'].fields) {
          RegionPairsComplete(region, front, j');
        }
      }
      assert ws[n] == Obj(RegionPairs(region, ws).value[0].warning);
    }
  }

  /** `p` was appended for warning `j` of region `i` of the summary `rs`. */
  predicate PairFrom(rs: seq<Json>, i: int, j: int, p: Pair)
  {
    && 0 <= i < |rs|
    && rs[i].Obj?
    && Elements(WarningList(rs[i].fields)).Some?
    && 0 <= j < |WarningsOf(rs[i])|
    && p.region == rs[i].fields
    && WarningsOf(rs[i])[j] == Obj(p.warning)
  }

  /** Region `v` holds no active warning. */
  predicate Quiet(v: Json)
    requires ReadableRegion(v)
  {
    forall j :: 0 <= j < |WarningsOf(v)| ==> !ActiveByInt(WarningsOf(v)[j].fields)
  }

  lemma PairFromPrefix(rs: seq<Json>, n: nat, i: int, j: int, p: Pair)
    requires n <= |rs|
    requires PairFrom(rs[..n], i, j, p)
    ensures PairFrom(rs, i, j, p)
  {
    assert rs[..n][i] == rs[i];
  }

  /** Soundness of `active_regions`: each pair is a summary region with one of
      its own warnings, and that warning is active. */
  lemma {:induction false} ActivePairsSound(rs: seq<Json>, k: int)
    requires ActivePairs(rs).Some?
    requires 0 <= k < |ActivePairs(rs).value|
    ensures ActiveByInt(ActivePairs(rs).value[k].warning)
    ensures exists i, j :: PairFrom(rs, i, j, ActivePairs(rs).value[k])
    decreases |rs|
  {
    var n := |rs| - 1;
    var front := rs[..n];
    var ps := ActivePairs(front).value;
    var p := ActivePairs(rs).value[k];
    if k < |ps| {
      ActivePairsSound(front, k);
      var i, j :| PairFrom(front, i, j, ps[k]);
      PairFromPrefix(rs, n, i, j, p);
    } else {
      var v := rs[n];
      var ws := WarningsOf(v);
      RegionPairsSound(v.fields, ws, k - |ps|);
      var j :| 0 <= j < |ws| && ws[j] == Obj(p.warning);
      assert PairFrom(rs, n, j, p);
    }
  }

  /** Completeness of `active_regions`: every active warning of every region
      is there with its region. */
  lemma {:induction false} ActivePairsComplete(rs: seq<Json>, i: int, j: int)
    requires ActivePairs(rs).Some?
    requires 0 <= i < |rs|
    requires 0 <= j < |WarningsOf(rs[i])|
    requires ActiveByInt(WarningsOf(rs[i])[j].fields)
    ensures Pair(rs[i].fields, WarningsOf(rs[i])[j].fields) in ActivePairs(rs).value
    decreases |rs|
  {
    var n := |rs| - 1;
    var front := rs[..n];
    if i < n {
      assert front[i] == rs[i];
      ActivePairsComplete(front, i, j);
    } else {
      RegionPairsComplete(rs[i].fields, WarningsOf(rs[i]), j);
    }
  }

  /** No pair at all means no region holds an active warning. */
  lemma ActivePairsEmpty(rs: seq<Json>)
    requires ActivePairs(rs).Some? && ActivePairs(rs).value == []
    ensures forall i :: 0 <= i < |rs| ==> Quiet(rs[i])
  {
    forall i | 0 <= i < |rs| ensures Quiet(rs[i]) {
      forall j | 0 <= j < |WarningsOf(rs[i])| ensures !ActiveByInt(WarningsOf(rs[i])[j].fields) {
        if ActiveByInt(WarningsOf(rs[i])[j].fields) {
          ActivePairsComplete(rs, i, j);
        }
      }
    }
  }

  /** The first pair is the first active warning of the first region that has
      one: the regions before it are quiet, and so are its earlier warnings. */
  lemma {:induction false} ActivePairsFirst(rs: seq<Json>)
    requires ActivePairs(rs).Some? && ActivePairs(rs).value != []
    ensures exists i, j :: (PairFrom(rs, i, j, ActivePairs(rs).value[0]) &&
      (forall i' :: 0 <= i' < i ==> Quiet(rs[i'])) &&
      (forall j' :: 0 <= j' < j ==> !ActiveByInt(WarningsOf(rs[i])[j'].fields)))
    decreases |rs|
  {
    var n := |rs| - 1;
    var front := rs[..n];
    var ps := ActivePairs(front).value;
    var p := ActivePairs(rs).value[0];
    if ps != [] {
      ActivePairsFirst(front);
      var i, j :| PairFrom(front, i, j, ps[0]) &&
        (forall i' :: 0 <= i' < i ==> Quiet(front[i'])) &&
        (forall j' :: 0 <= j' < j ==> !ActiveByInt(WarningsOf(front[i])[j'].fields));
      PairFromPrefix(rs, n, i, j, p);
      assert front[i] == rs[i];
      forall i' | 0 <= i' < i ensures Quiet(rs[i']) {
        assert front[i'] == rs[i'];
      }
    } else {
      ActivePairsEmpty(front);
      forall i' | 0 <= i' < n ensures Quiet(rs[i']) {
        assert front[i'] == rs[i'];
      }
      var v := rs[n];
      assert ActivePairs(rs).value == RegionPairs(v.fields, WarningsOf(v)).value;
      RegionPairsFirst(v.fields, WarningsOf(v));
      var j :| 0 <= j < |WarningsOf(v)| && WarningsOf(v)[j] == Obj(p.warning) &&
        ActiveByInt(WarningsOf(v)[j].fields) &&
        forall j' :: 0 <= j' < j ==> !ActiveByInt(WarningsOf(v)[j'].fields);
      assert PairFrom(rs, n, j, p);
    }
  }

  /** Pairs of one region follow its warnings: pair k2 comes from a warning
      at least k2 - k1 places after the warning of pair k1. */
  lemma {:induction false} RegionPairsInOrder(region: map<string, Json>, ws: seq<Json>, k1: int, k2: int)
    returns (j1: nat, j2: nat)
    requires RegionPairs(region, ws).Some?
    requires 0 <= k1 <= k2 < |RegionPairs(region, ws).value|
    ensures j1 + (k2 - k1) <= j2 < |ws|
    ensures RegionPairs(region, ws).value[k1].region == region
    ensures RegionPairs(region, ws).value[k2].region == region
    ensures ws[j1] == Obj(RegionPairs(region, ws).value[k1].warning)
    ensures ws[j2] == Obj(RegionPairs(region, ws).value[k2].warning)
    decreases |ws|
  {
    var n := |ws| - 1;
    var front := ws[..n];
    var ps := RegionPairs(region, front).value;
    var qs := RegionPairs(region, ws).value;
    if k2 < |ps| {
      assert qs[k1] == ps[k1] && qs[k2] == ps[k2];
      j1, j2 := RegionPairsInOrder(region, front, k1, k2);
      assert ws[j1] == front[j1] && ws[j2] == front[j2];
    } else if k1 < |ps| {
      assert qs[k1] == ps[k1];
      var j0;
      j1, j0 := RegionPairsInOrder(region, front, k1, |ps| - 1);
      assert ws[j1] == front[j1];
      j2 := n;
    } else {
      j1, j2 := n, n;
    }
  }

  /** `active_regions` is in scan order: by region, and within one region by
      warning, pair k2 lying at least k2 - k1 warnings after pair k1. */
  lemma {:induction false} ActivePairsInOrder(rs: seq<Json>, k1: int, k2: int)
    returns (i1: nat, j1: nat, i2: nat, j2: nat)
    requires ActivePairs(rs).Some?
    requires 0 <= k1 <= k2 < |ActivePairs(rs).value|
    ensures PairFrom(rs, i1, j1, ActivePairs(rs).value[k1])
    ensures PairFrom(rs, i2, j2, ActivePairs(rs).value[k2])
    ensures i1 < i2 || (i1 == i2 && j1 + (k2 - k1) <= j2)
    decreases |rs|
  {
    var n := |rs| - 1;
    var front := rs[..n];
    var ps := ActivePairs(front).value;
    var v := rs[n];
    var qs := RegionPairs(v.fields, WarningsOf(v)).value;
    var all := ActivePairs(rs).value;
    assert all == ps + qs;
    if k2 < |ps| {
      i1, j1, i2, j2 := ActivePairsInOrder(front, k1, k2);
      PairFromPrefix(rs, n, i1, j1, all[k1]);
      PairFromPrefix(rs, n, i2, j2, all[k2]);
    } else if k1 < |ps| {
      var i0, j0, j3;
      i1, j1, i0, j0 := ActivePairsInOrder(front, k1, k1);
      PairFromPrefix(rs, n, i1, j1, all[k1]);
      j2, j3 := RegionPairsInOrder(v.fields, WarningsOf(v), k2 - |ps|, k2 - |ps|);
      i2 := n;
    } else {
      j1, j2 := RegionPairsInOrder(v.fields, WarningsOf(v), k1 - |ps|, k2 - |ps|);
      i1, i2 := n, n;
    }
  }

  /** The positions of the active warnings among `ws`. */
  function ActiveIndices(ws: seq<Json>): set<int>
  {
    set j | 0 <= j < |ws| && ws[j].Obj? && ActiveByInt(ws[j].fields)
  }

  /** The number of (region, active warning) pairs in the summary `rs`: the
      active warnings of each readable region, added up. */
  function ActiveCount(rs: seq<Json>): nat
  {
    if rs == [] then 0
    else
      var v := rs[|rs| - 1];
      ActiveCount(rs[..|rs| - 1]) +
        (if v.Obj? && Elements(WarningList(v.fields)).Some? then |ActiveIndices(WarningsOf(v))| else 0)
  }

  /** A region contributes one pair per active warning. */
  lemma {:induction false} RegionPairsCount(region: map<string, Json>, ws: seq<Json>)
    requires RegionPairs(region, ws).Some?
    ensures |RegionPairs(region, ws).value| == |ActiveIndices(ws)|
    decreases |ws|
  {
    if ws != [] {
      var n := |ws| - 1;
      var front := ws[..n];
      RegionPairsCount(region, front);
      ActiveIndicesAppend(front, ws[n]);
      assert ws == front + [ws[n]];
    }
  }

  lemma ActiveIndicesAppend(ws: seq<Json>, w: Json)
    ensures ActiveIndices(ws + [w]) ==
      ActiveIndices(ws) + (if w.Obj? && ActiveByInt(w.fields) then {|ws|} else {})
    ensures |ws| !in ActiveIndices(ws)
  {
    var ws' := ws + [w];
    forall j | 0 <= j < |ws| ensures ws'[j] == ws[j] { }
  }

  /** `len(active_regions)` is the number of active warnings over all regions. */
  lemma {:induction false} ActivePairsCount(rs: seq<Json>)
    requires ActivePairs(rs).Some?
    ensures |ActivePairs(rs).value| == ActiveCount(rs)
    decreases |rs|
  {
    if rs != [] {
      var v := rs[|rs| - 1];
      ActivePairsCount(rs[..|rs| - 1]);
      RegionPairsCount(v.fields, WarningsOf(v));
    }
  }

  // ---------------------------------------------------------------------
  // Field availability (lines 91-125).

  /** The fourteen avalanche-specific fields, in declaration order. */
  const AvalancheFields: seq<string> := [
    "MainText", "AvalancheDanger", "EmergencyWarning", "AvalancheProblems",
    "AvalancheAdvices", "SnowSurface", "CurrentWeaklayers", "LatestAvalancheActivity",
    "LatestObservations", "MountainWeather", "ExposedHeight1", "ExposedHeightFill",
    "Author", "DangerLevelName"]

  /** Line 113: `value is not None and value != "" and value != 0`, where
      `False == 0` in Python, so an empty list or dict counts as provided. */
  predicate Provided(v: Option<Json>)
  {
    v.Some? && v.value != Null && v.value != Str("") && v.value != Int(0) && v.value != Bool(false)
  }

  /** What is printed under an available field: the size of a list or dict,
      or the text of a scalar cut to 100 characters. */
  datatype Preview = Sized(size: nat) | Sample(text: string)

  function PreviewOf(v: Json): (p: Preview)
    ensures v.Arr? ==> p == Sized(|v.items|)
    ensures v.Obj? ==> p == Sized(|v.fields|)
    ensures IsScalar(v) ==> p.Sample? && |p.text| <= 103
    ensures IsScalar(v) && |ScalarText(v)| <= 100 ==> p == Sample(ScalarText(v))
    ensures IsScalar(v) && |ScalarText(v)| > 100 ==>
      IsPrefix(ScalarText(v)[..100], p.text) && p.text[100..] == "..."
  {
    match v
    case Arr(xs) => Sized(|xs|)
    case Obj(m) => Sized(|m|)
    case _ => Sample(Truncate(ScalarText(v), 100))
  }

  /** The two lists of lines 108-125, with the preview of each available field. */
  datatype FieldReport = FieldReport(available: seq<string>, previews: seq<Preview>, unavailable: seq<string>)

  function Classify(fields: seq<string>, w: map<string, Json>): (r: FieldReport)
    ensures |r.available| == |r.previews|
    ensures |r.available| + |r.unavailable| == |fields|
  {
    if fields == [] then FieldReport([], [], [])
    else
      var r := Classify(fields[..|fields| - 1], w);
      var f := fields[|fields| - 1];
      if Provided(Get(w, f)) then
        FieldReport(r.available + [f], r.previews + [PreviewOf(w[f])], r.unavailable)
      else FieldReport(r.available, r.previews, r.unavailable + [f])
  }

  /** Lines 108-125: one pass over the fields, appending each to one list. */
  method ClassifyFields(w: map<string, Json>) returns (r: FieldReport)
    ensures r == Classify(AvalancheFields, w)
  {
    var available, previews, unavailable := [], [], [];
    var k := 0;
    while k < |AvalancheFields|
      invariant 0 <= k <= |AvalancheFields|
      invariant Classify(AvalancheFields[..k], w) == FieldReport(available, previews, unavailable)
    {
      var f := AvalancheFields[k];
      assert AvalancheFields[..k + 1][..k] == AvalancheFields[..k];
      var value := Get(w, f);
      if Provided(value) {
        available := available + [f];
        previews := previews + [PreviewOf(value.value)];
      } else {
        unavailable := unavailable + [f];
      }
      k := k + 1;
    }
    assert AvalancheFields[..k] == AvalancheFields;
    r := FieldReport(available, previews, unavailable);
  }

  /** Every field lands in the list its value calls for, and nowhere else:
      the two lists split the fields. */
  lemma ClassifySplits(fields: seq<string>, w: map<string, Json>)
    ensures var r := Classify(fields, w);
      && (forall f :: f in r.available ==> f in fields && Provided(Get(w, f)))
      && (forall f :: f in r.unavailable ==> f in fields && !Provided(Get(w, f)))
      && (forall f :: f in fields ==> f in r.available || f in r.unavailable)
      && multiset(r.available) + multiset(r.unavailable) == multiset(fields)
  {
    ClassifyMembers(fields, w);
    ClassifyPermutes(fields, w);
  }

  lemma {:induction false} ClassifyMembers(fields: seq<string>, w: map<string, Json>)
    ensures var r := Classify(fields, w);
      && (forall f :: f in r.available ==> f in fields && Provided(Get(w, f)))
      && (forall f :: f in r.unavailable ==> f in fields && !Provided(Get(w, f)))
      && (forall f :: f in fields ==> f in r.available || f in r.unavailable)
  {
    if fields != [] {
      var front := fields[..|fields| - 1];
      ClassifyMembers(front, w);
      assert fields == front + [fields[|fields| - 1]];
    }
  }

  lemma {:induction false} ClassifyPermutes(fields: seq<string>, w: map<string, Json>)
    ensures var r := Classify(fields, w);
      multiset(r.available) + multiset(r.unavailable) == multiset(fields)
  {
    if fields != [] {
      var front := fields[..|fields| - 1];
      var f := fields[|fields| - 1];
      ClassifyPermutes(front, w);
      assert fields == front + [f];
      var r0 := Classify(front, w);
      var r := Classify(fields, w);
      if Provided(Get(w, f)) {
        assert r.available == r0.available + [f] && r.unavailable == r0.unavailable;
      } else {
        assert r.available == r0.available && r.unavailable == r0.unavailable + [f];
      }
    }
  }

  /** The split is stable: `ia` and `iu` are the positions of the available
      and of the unavailable fields, each list in the order of `fields`. */
  lemma ClassifyKeepsOrder(fields: seq<string>, w: map<string, Json>)
    returns (ia: seq<nat>, iu: seq<nat>)
    ensures Embeds(ia, Classify(fields, w).available, fields)
    ensures Embeds(iu, Classify(fields, w).unavailable, fields)
    ensures forall p :: 0 <= p < |fields| ==> (p in ia <==> Provided(Get(w, fields[p])))
    ensures forall p :: 0 <= p < |fields| ==> (p in iu <==> !Provided(Get(w, fields[p])))
  {
    ia := AvailableInOrder(fields, w);
    iu := UnavailableInOrder(fields, w);
  }

  lemma {:induction false} AvailableInOrder(fields: seq<string>, w: map<string, Json>) returns (ia: seq<nat>)
    ensures Embeds(ia, Classify(fields, w).available, fields)
    ensures forall p :: 0 <= p < |fields| ==> (p in ia <==> Provided(Get(w, fields[p])))
    decreases |fields|
  {
    if fields == [] {
      ia := [];
    } else {
      var n := |fields| - 1;
      var front, f := fields[..n], fields[n];
      assert fields == front + [f];
      var a0 := AvailableInOrder(front, w);
      EmbedsAppend(a0, Classify(front, w).available, front, f);
      ia := if Provided(Get(w, f)) then a0 + [n] else a0;
      forall p | 0 <= p < |fields| ensures p in ia <==> Provided(Get(w, fields[p])) {
        if p < n {
          assert fields[p] == front[p];
        }
      }
    }
  }

  lemma {:induction false} UnavailableInOrder(fields: seq<string>, w: map<string, Json>) returns (iu: seq<nat>)
    ensures Embeds(iu, Classify(fields, w).unavailable, fields)
    ensures forall p :: 0 <= p < |fields| ==> (p in iu <==> !Provided(Get(w, fields[p])))
    decreases |fields|
  {
    if fields == [] {
      iu := [];
    } else {
      var n := |fields| - 1;
      var front, f := fields[..n], fields[n];
      assert fields == front + [f];
      var u0 := UnavailableInOrder(front, w);
      EmbedsAppend(u0, Classify(front, w).unavailable, front, f);
      iu := if Provided(Get(w, f)) then u0 else u0 + [n];
      forall p | 0 <= p < |fields| ensures p in iu <==> !Provided(Get(w, fields[p])) {
        if p < n {
          assert fields[p] == front[p];
        }
      }
    }
  }

  /** Each preview belongs to the available field at the same position. */
  lemma {:induction false} ClassifyPreviews(fields: seq<string>, w: map<string, Json>, k: int)
    requires 0 <= k < |Classify(fields, w).available|
    ensures var r := Classify(fields, w);
      r.available[k] in w && r.previews[k] == PreviewOf(w[r.available[k]])
  {
    var front := fields[..|fields| - 1];
    if k < |Classify(front, w).available| {
      ClassifyPreviews(front, w, k);
    }
  }

  /** No field is both available and unavailable. */
  lemma ClassifyDisjoint(w: map<string, Json>)
    ensures var r := Classify(AvalancheFields, w);
      forall f :: !(f in r.available && f in r.unavailable)
  {
    ClassifySplits(AvalancheFields, w);
  }

  /** An empty list is available; null, "", 0 and false are not. */
  lemma ProvidedExamples()
    ensures Provided(Some(Arr([])))
    ensures Provided(Some(Obj(map[])))
    ensures !Provided(None) && !Provided(Some(Null))
    ensures !Provided(Some(Str(""))) && !Provided(Some(Int(0))) && !Provided(Some(Bool(false)))
    ensures Provided(Some(Str("0"))) && Provided(Some(Bool(true)))
  {
    assert Str("0") != Str("");
  }

  /** The fields that may stand in for the missing ones, in the order they
      are recommended. */
  const ReplacementFields: seq<string> := ["MainText", "AvalancheAdvices", "AvalancheDanger"]

  /** Lines 136-141: the fields recommended as replacements are those of
      MainText, AvalancheAdvices and AvalancheDanger that are truthy. */
  function Recommended(w: map<string, Json>): (r: seq<string>)
    ensures forall f :: f in r ==> f in ReplacementFields && f in w && Truthy(w[f])
    ensures forall f :: f in ReplacementFields && f in w && Truthy(w[f]) ==> f in r
  {
    (if "MainText" in w && Truthy(w["MainText"]) then ["MainText"] else [])
    + (if "AvalancheAdvices" in w && Truthy(w["AvalancheAdvices"]) then ["AvalancheAdvices"] else [])
    + (if "AvalancheDanger" in w && Truthy(w["AvalancheDanger"]) then ["AvalancheDanger"] else [])
  }

  /** The recommendations keep the order MainText, AvalancheAdvices,
      AvalancheDanger, each at most once. */
  lemma RecommendedInOrder(w: map<string, Json>) returns (idx: seq<nat>)
    ensures Embeds(idx, Recommended(w), ReplacementFields)
  {
    idx := (if "MainText" in w && Truthy(w["MainText"]) then [0] else [])
      + (if "AvalancheAdvices" in w && Truthy(w["AvalancheAdvices"]) then [1] else [])
      + (if "AvalancheDanger" in w && Truthy(w["AvalancheDanger"]) then [2] else []);
  }

  /** A recommended field is always an available one. */
  lemma RecommendedAreAvailable(w: map<string, Json>)
    ensures forall f :: f in Recommended(w) ==> f in Classify(AvalancheFields, w).available
  {
    assert AvalancheFields[0] == "MainText";
    assert AvalancheFields[1] == "AvalancheDanger";
    assert AvalancheFields[4] == "AvalancheAdvices";
    RecommendedAmong(AvalancheFields, w);
  }

  /** The same for any field list that names the three recommended fields. */
  lemma RecommendedAmong(fields: seq<string>, w: map<string, Json>)
    requires "MainText" in fields && "AvalancheDanger" in fields && "AvalancheAdvices" in fields
    ensures forall f :: f in Recommended(w) ==> f in Classify(fields, w).available
  {
    ClassifyMembers(fields, w);
  }

  // ---------------------------------------------------------------------
  // The whole run.

  datatype Outcome =
    | SummaryHttpError(status: int)
    | NoSummary
    | DetailHttpError(detailStatus: int)
    | NoDetail
    | Analysed(regionId: Json, regionName: Json, activeCount: nat,
               report: FieldReport, recommended: seq<string>)
    | Failed

  /** The outcome and the region ids whose detail was requested, in order. */
  datatype Run = Run(outcome: Outcome, requests: seq<Json>)

  /** The region analysed: that of the first active pair, else the first one. */
  function ChosenRegion(rs: seq<Json>, active: seq<Pair>): map<string, Json>
    requires |rs| > 0 && rs[0].Obj?
  {
    if active != [] then active[0].region else rs[0].fields
  }

  /** The run after the region has been chosen and its detail fetched. */
  function DetailRun(id: Json, name: Json, activeCount: nat, detail: Response): (r: Outcome)
    ensures detail.status != 200 ==> r == DetailHttpError(detail.status)
    ensures r.Analysed? ==> detail.body.Arr? && |detail.body.items| > 0 && detail.body.items[0].Obj?
    ensures r.Analysed? ==> r.regionId == id && r.report == Classify(AvalancheFields, detail.body.items[0].fields)
    ensures r.Analysed? ==> r.activeCount == activeCount
  {
    if detail.status != 200 then DetailHttpError(detail.status)
    else if !detail.body.Arr? || detail.body.items == [] then NoDetail
    else if !detail.body.items[0].Obj? then Failed
    else
      var w := detail.body.items[0].fields;
      Analysed(id, name, activeCount, Classify(AvalancheFields, w), Recommended(w))
  }

  /** The script as a function of the two responses. */
  function AnalysisOf(summary: Response, fetch: Json -> Response): (r: Run)
    ensures |r.requests| <= 1
    ensures summary.status != 200 ==> r == Run(SummaryHttpError(summary.status), [])
    ensures summary.status == 200 && !Truthy(summary.body) ==> r == Run(NoSummary, [])
    ensures r.outcome.Analysed? ==> r.requests == [r.outcome.regionId]
  {
    if summary.status != 200 then Run(SummaryHttpError(summary.status), [])
    else if !Truthy(summary.body) then Run(NoSummary, [])
    else if !summary.body.Arr? then Run(Failed, [])
    else
      var rs := summary.body.items;
      match ActivePairs(rs)
      case None => Run(Failed, [])
      case Some(active) =>
        var region := ChosenRegion(rs, active);
        if "Id" !in region || "Name" !in region then Run(Failed, [])
        else
          var id := region["Id"];
          Run(DetailRun(id, region["Name"], |active|, fetch(id)), [id])
  }

  /** The script's body: the summary checks, the scan, the choice of region,
      one detail request and the classification. */
  method Analyze(summary: Response, fetch: Json -> Response) returns (outcome: Outcome, requests: seq<Json>)
    ensures Run(outcome, requests) == AnalysisOf(summary, fetch)
  {
    requests := [];
    if summary.status != 200 {
      return SummaryHttpError(summary.status), requests;
    }
    if !Truthy(summary.body) {
      return NoSummary, requests;
    }
    if !summary.body.Arr? {
      return Failed, requests;
    }
    var rs := summary.body.items;
    var ok, active := CollectActive(rs);
    if !ok {
      return Failed, requests;
    }
    var region := if active != [] then active[0].region else rs[0].fields;
    if "Id" !in region || "Name" !in region {
      return Failed, requests;
    }
    var id := region["Id"];
    var name := region["Name"];
    requests := requests + [id];
    var detail := fetch(id);
    if detail.status != 200 {
      return DetailHttpError(detail.status), requests;
    }
    if !detail.body.Arr? || detail.body.items == [] {
      return NoDetail, requests;
    }
    var first := detail.body.items[0];
    if !first.Obj? {
      return Failed, requests;
    }
    var report := ClassifyFields(first.fields);
    outcome := Analysed(id, name, |active|, report, Recommended(first.fields));
  }

  /** The one detail request is for the first region holding an active warning
      (every earlier region quiet), or for the first region when none does. */
  lemma RequestedRegion(summary: Response, fetch: Json -> Response)
    requires AnalysisOf(summary, fetch).requests != []
    ensures summary.status == 200 && summary.body.Arr? && |summary.body.items| > 0
    ensures ActivePairs(summary.body.items).Some?
    ensures var rs := summary.body.items; var active := ActivePairs(rs).value;
      var id := AnalysisOf(summary, fetch).requests[0];
      active != [] ==>
        && "Id" in active[0].region && id == active[0].region["Id"]
        && exists i, j :: (PairFrom(rs, i, j, active[0]) && forall i' :: 0 <= i' < i ==> Quiet(rs[i']))
    ensures var rs := summary.body.items; var active := ActivePairs(rs).value;
      var id := AnalysisOf(summary, fetch).requests[0];
      active == [] ==>
        && (forall i :: 0 <= i < |rs| ==> Quiet(rs[i]))
        && rs[0].Obj? && "Id" in rs[0].fields && id == rs[0].fields["Id"]
  {
    var rs := summary.body.items;
    var active := ActivePairs(rs).value;
    if active != [] {
      ActivePairsFirst(rs);
    } else {
      ActivePairsEmpty(rs);
    }
  }

  /** The count reported is the number of active warnings over all regions. */
  lemma AnalysedCount(summary: Response, fetch: Json -> Response)
    requires AnalysisOf(summary, fetch).outcome.Analysed?
    ensures summary.body.Arr? && ActivePairs(summary.body.items).Some?
    ensures AnalysisOf(summary, fetch).outcome.activeCount == ActiveCount(summary.body.items)
  {
    ActivePairsCount(summary.body.items);
  }

  /** A region without AvalancheWarningList, or whose warnings lack a
      DangerLevel, adds no pair. */
  lemma MissingNeverActive(region: map<string, Json>, ws: seq<Json>)
    requires "AvalancheWarningList" !in region ==> ws == []
    requires forall j :: 0 <= j < |ws| ==> ws[j].Obj? && "DangerLevel" !in ws[j].fields
    ensures RegionPairs(region, ws) == Some([])
  {
    if RegionPairs(region, ws).value != [] {
      RegionPairsSound(region, ws, 0);
    }
  }
}
