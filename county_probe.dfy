/** test_avalanche_attributes.py, lines 21-61 and 94-110: look for one
    avalanche warning relevant to Vestland (county 46). For each region of the
    summary, the first warning above level 0 (levels read with `isdigit`)
    triggers one detail request; the region is relevant when a municipality of
    the first detailed warning has CountyId "46", as a string or a number.
    The scan stops at the first relevant region.

    The HTTP responses are inputs: the summary response, and `fetch`, which
    gives the detail response for a region id. Any exception reaching the
    outer handler is the outcome Crash. */
module CountyProbe {
  import opened Json
  import opened Text
  import opened DangerLevel
  import AttributeAnalysis

  /** The county the script looks for. */
  const Vestland := "46"

  /** Line 54: `muni.get("CountyId") == "46" or str(muni.get("CountyId")) == "46"`.
      `str()` of a list or dict starts with a bracket, so only scalars can match. */
  predicate CountyMatches(v: Option<Json>)
  {
    v == Some(Str(Vestland)) || (v.Some? && IsScalar(v.value) && ScalarText(v.value) == Vestland)
  }

  /** The county test accepts exactly the string "46" and the number 46; a
      missing CountyId (`str(None)` is "None") never matches. */
  lemma CountyMatchesExactly(v: Option<Json>)
    ensures CountyMatches(v) <==> v == Some(Str("46")) || v == Some(Int(46))
  {
    if v.Some? && v.value.Int? {
      DecimalIs46(v.value.n);
    }
    if v.Some? && v.value.Bool? {
      assert ScalarText(v.value)[0] != '4';
    }
    if v.Some? && v.value.Null? {
      assert ScalarText(v.value)[0] != '4';
    }
  }

  // ---------------------------------------------------------------------
  // The warning loop of one region (lines 37-41, 59).

  /** Where the warning loop of a region stops. */
  datatype Step = StepCrash | NoneActive | ActiveAt(index: nat)

  /** A warning the loop passes over: a dict whose level compares with 0 and
      is not above it. */
  predicate Inactive(w: Json)
  {
    w.Obj? && LevelByIsDigit(Get(w.fields, "DangerLevel")).Some? &&
    LevelByIsDigit(Get(w.fields, "DangerLevel")).value <= 0
  }

  /** The warning loop from index `j` on: the first warning above level 0, or
      a crash on a warning that is not a dict or whose level is not comparable. */
  function FirstActiveFrom(ws: seq<Json>, j: nat): (r: Step)
    requires j <= |ws|
    ensures r.ActiveAt? ==> (j <= r.index < |ws| && ws[r.index].Obj? &&
      Active(LevelByIsDigit(Get(ws[r.index].fields, "DangerLevel"))))
    ensures r.ActiveAt? ==> forall k :: j <= k < r.index ==> Inactive(ws[k])
    ensures r.NoneActive? <==> forall k :: j <= k < |ws| ==> Inactive(ws[k])
    decreases |ws| - j
  {
    if j == |ws| then NoneActive
    else if !ws[j].Obj? then StepCrash
    else
      match LevelByIsDigit(Get(ws[j].fields, "DangerLevel"))
      case None => StepCrash
      case Some(level) => if level > 0 then ActiveAt(j) else FirstActiveFrom(ws, j + 1)
  }

  /** Lines 37-41 with the `break` of line 59: stop at the first active warning. */
  method FindFirstActive(ws: seq<Json>) returns (r: Step)
    ensures r == FirstActiveFrom(ws, 0)
  {
    var j := 0;
    while j < |ws|
      invariant 0 <= j <= |ws|
      invariant FirstActiveFrom(ws, 0) == FirstActiveFrom(ws, j)
    {
      var w := ws[j];
      if !w.Obj? {
        return StepCrash;
      }
      var level := LevelByIsDigit(Get(w.fields, "DangerLevel"));
      if level.None? {
        return StepCrash;
      }
      if level.value > 0 {
        return ActiveAt(j);
      }
      j := j + 1;
    }
    return NoneActive;
  }

  // ---------------------------------------------------------------------
  // The detail check (lines 46-58).

  datatype Detail = DetailCrash | NoMatch | Match(warning: map<string, Json>)

  /** The municipality loop from index `k` on: matched, not matched, or a
      crash on an entry that is not a dict. It stops at the first match. */
  function MunicipalityFrom(ms: seq<Json>, k: nat): (r: Detail)
    requires k <= |ms|
    ensures r.NoMatch? <==> forall m :: k <= m < |ms| ==>
      ms[m].Obj? && !CountyMatches(Get(ms[m].fields, "CountyId"))
    decreases |ms| - k
  {
    if k == |ms| then NoMatch
    else if !ms[k].Obj? then DetailCrash
    else if CountyMatches(Get(ms[k].fields, "CountyId")) then Match(ms[k].fields)
    else MunicipalityFrom(ms, k + 1)
  }

  /** Whether a detail response makes its region relevant: status 200, a
      non-empty list, and a municipality of its first warning in county 46. */
  function DetailMatch(detail: Response): (r: Detail)
    ensures detail.status != 200 ==> r == NoMatch
    ensures !detail.body.Arr? || detail.body.items == [] ==> r == NoMatch
    ensures r.Match? ==> (detail.body.Arr? && |detail.body.items| > 0 &&
      detail.body.items[0] == Obj(r.warning))
  {
    if detail.status != 200 || !detail.body.Arr? || detail.body.items == [] then NoMatch
    else
      var first := detail.body.items[0];
      if !first.Obj? then DetailCrash
      else
        match Elements(GetOr(first.fields, "MunicipalityList", Arr([])))
        case None => DetailCrash
        case Some(ms) =>
          match MunicipalityFrom(ms, 0)
          case Match(_) => Match(first.fields)
          case other => other
  }

  /** A relevant region has a municipality whose CountyId is "46" or 46. */
  lemma MatchHasVestlandMunicipality(detail: Response)
    requires DetailMatch(detail).Match?
    ensures var w := DetailMatch(detail).warning;
      exists ms: seq<Json>, k :: (Elements(GetOr(w, "MunicipalityList", Arr([]))) == Some(ms) &&
        0 <= k < |ms| && ms[k].Obj? &&
        (Get(ms[k].fields, "CountyId") == Some(Str("46")) || Get(ms[k].fields, "CountyId") == Some(Int(46))))
  {
    var first := detail.body.items[0];
    var ms := Elements(GetOr(first.fields, "MunicipalityList", Arr([]))).value;
    var k := MunicipalityMatchAt(ms, 0);
    CountyMatchesExactly(Get(ms[k].fields, "CountyId"));
  }

  lemma {:induction false} MunicipalityMatchAt(ms: seq<Json>, k: nat) returns (m: nat)
    requires k <= |ms|
    requires MunicipalityFrom(ms, k).Match?
    ensures k <= m < |ms| && ms[m].Obj? && CountyMatches(Get(ms[m].fields, "CountyId"))
    ensures MunicipalityFrom(ms, k) == Match(ms[m].fields)
    decreases |ms| - k
  {
    if ms[k].Obj? && CountyMatches(Get(ms[k].fields, "CountyId")) {
      m := k;
    } else {
      m := MunicipalityMatchAt(ms, k + 1);
    }
  }

  /** Lines 53-56: the municipality loop, left at the first match. */
  method MatchMunicipality(ms: seq<Json>) returns (r: Detail)
    ensures r == MunicipalityFrom(ms, 0)
  {
    var k := 0;
    while k < |ms|
      invariant 0 <= k <= |ms|
      invariant MunicipalityFrom(ms, 0) == MunicipalityFrom(ms, k)
    {
      var muni := ms[k];
      if !muni.Obj? {
        return DetailCrash;
      }
      if CountyMatches(Get(muni.fields, "CountyId")) {
        return Match(muni.fields);
      }
      k := k + 1;
    }
    return NoMatch;
  }

  /** Lines 47-56: the checks on one detail response. */
  method CheckDetail(detail: Response) returns (r: Detail)
    ensures r == DetailMatch(detail)
  {
    if detail.status != 200 || !detail.body.Arr? || detail.body.items == [] {
      return NoMatch;
    }
    var first := detail.body.items[0];
    if !first.Obj? {
      return DetailCrash;
    }
    var municipalities := Elements(GetOr(first.fields, "MunicipalityList", Arr([])));
    if municipalities.None? {
      return DetailCrash;
    }
    r := MatchMunicipality(municipalities.value);
    if r.Match? {
      r := Match(first.fields);
    }
  }

  // ---------------------------------------------------------------------
  // The region loop (lines 34-61).

  datatype Outcome = SummaryHttpError(status: int) | NoSummary | Found(warning: map<string, Json>) | NotFound | Crash

  /** The outcome and the region ids whose detail was requested, in order. */
  datatype Probe = Probe(outcome: Outcome, requests: seq<Json>)

  /** `p` with the requests `before` made ahead of it. */
  function After(before: seq<Json>, p: Probe): Probe
  {
    Probe(p.outcome, before + p.requests)
  }

  /** What a probe's requests say about its outcome: a found warning is the
      match of the last request, and every request before it, or every
      request of a search that found nothing, fetched a detail with no
      Vestland municipality. */
  predicate Explained(p: Probe, fetch: Json -> Response)
  {
    && (p.outcome.Found? ==> (p.requests != [] &&
         DetailMatch(fetch(p.requests[|p.requests| - 1])) == Match(p.outcome.warning)))
    && (p.outcome.Found? || p.outcome == NotFound ==>
         forall k :: 0 <= k < |p.requests| - 1 ==> DetailMatch(fetch(p.requests[k])) == NoMatch)
    && (p.outcome == NotFound ==>
         forall k :: 0 <= k < |p.requests| ==> DetailMatch(fetch(p.requests[k])) == NoMatch)
  }

  /** Requests without a match ahead of an explained probe keep it explained. */
  lemma NoMatchAhead(ids: seq<Json>, p: Probe, fetch: Json -> Response)
    requires forall k :: 0 <= k < |ids| ==> DetailMatch(fetch(ids[k])) == NoMatch
    requires Explained(p, fetch)
    ensures Explained(After(ids, p), fetch)
  {
    var q := After(ids, p);
    assert forall k :: |ids| <= k < |q.requests| ==> q.requests[k] == p.requests[k - |ids|];
    assert forall k :: 0 <= k < |ids| ==> q.requests[k] == ids[k];
  }

  /** What one region does to the loop: end it with a probe, or let it go on
      after the requests it made. */
  datatype Visit = Stop(probe: Probe) | Next(requests: seq<Json>)

  /** A summary region with an active warning. */
  predicate HasActiveWarning(v: Json)
  {
    && v.Obj?
    && Elements(GetOr(v.fields, "AvalancheWarningList", Arr([]))).Some?
    && FirstActiveFrom(Elements(GetOr(v.fields, "AvalancheWarningList", Arr([]))).value, 0).ActiveAt?
  }

  /** Region `v` lets the loop go on: its warnings are read without raising,
      and if one is active, the region has an Id whose detail does not match. */
  predicate Passes(v: Json, fetch: Json -> Response)
  {
    && v.Obj?
    && Elements(GetOr(v.fields, "AvalancheWarningList", Arr([]))).Some?
    && !FirstActiveFrom(Elements(GetOr(v.fields, "AvalancheWarningList", Arr([]))).value, 0).StepCrash?
    && (HasActiveWarning(v) ==> "Id" in v.fields && DetailMatch(fetch(v.fields["Id"])) == NoMatch)
  }

  /** The requests a region makes, whether or not it ends the loop. */
  function VisitRequests(r: Visit): seq<Json>
  {
    if r.Stop? then r.probe.requests else r.requests
  }

  /** Lines 35-61 for one region: the warning loop, then the detail request
      of a region with an active warning. */
  function RegionVisit(v: Json, fetch: Json -> Response): (r: Visit)
    ensures r.Stop? ==> (
      && (r.probe.outcome == Crash || r.probe.outcome.Found?)
      && |r.probe.requests| <= 1
      && (r.probe.requests != [] ==> (HasActiveWarning(v) && "Id" in v.fields &&
            v.fields["Id"] == r.probe.requests[0])))
    ensures r.Next? ==> (
      && |r.requests| <= 1
      && (r.requests != [] ==> (HasActiveWarning(v) && "Id" in v.fields &&
            v.fields["Id"] == r.requests[0])))
  {
    if !v.Obj? then Stop(Probe(Crash, []))
    else
      match Elements(GetOr(v.fields, "AvalancheWarningList", Arr([])))
      case None => Stop(Probe(Crash, []))
      case Some(ws) =>
        match FirstActiveFrom(ws, 0)
        case StepCrash => Stop(Probe(Crash, []))
        case NoneActive => Next([])
        case ActiveAt(_) =>
          if "Id" !in v.fields then Stop(Probe(Crash, []))
          else
            var id := v.fields["Id"];
            match DetailMatch(fetch(id))
            case DetailCrash => Stop(Probe(Crash, [id]))
            case Match(w) => Stop(Probe(Found(w), [id]))
            case NoMatch => Next([id])
  }

  /** The converse of RegionVisit's contract: the loop goes on exactly past a
      region that passes, a region with an active warning and an Id is
      requested, and a found warning is that region's match. */
  lemma RegionVisitComplete(v: Json, fetch: Json -> Response)
    ensures RegionVisit(v, fetch).Next? <==> Passes(v, fetch)
    ensures HasActiveWarning(v) && "Id" in v.fields ==> VisitRequests(RegionVisit(v, fetch)) == [v.fields["Id"]]
    ensures !(HasActiveWarning(v) && "Id" in v.fields) ==> VisitRequests(RegionVisit(v, fetch)) == []
    ensures var r := RegionVisit(v, fetch);
      r.Stop? && r.probe.outcome.Found? ==> (HasActiveWarning(v) && "Id" in v.fields &&
        DetailMatch(fetch(v.fields["Id"])) == Match(r.probe.outcome.warning))
  {
  }

  /** The region loop from region `i` on. */
  function ScanFrom(rs: seq<Json>, i: nat, fetch: Json -> Response): (r: Probe)
    requires i <= |rs|
    ensures |r.requests| <= |rs| - i
    ensures r.outcome in {NotFound, Crash} || r.outcome.Found?
    decreases |rs| - i
  {
    if i == |rs| then Probe(NotFound, [])
    else
      match RegionVisit(rs[i], fetch)
      case Stop(p) => p
      case Next(ids) => After(ids, ScanFrom(rs, i + 1, fetch))
  }

  /** A region that ends the loop explains its probe; one that lets the loop
      go on fetched details without a match. */
  lemma VisitExplained(v: Json, fetch: Json -> Response)
    ensures RegionVisit(v, fetch).Stop? ==> Explained(RegionVisit(v, fetch).probe, fetch)
    ensures RegionVisit(v, fetch).Next? ==>
      forall k :: 0 <= k < |RegionVisit(v, fetch).requests| ==>
        DetailMatch(fetch(RegionVisit(v, fetch).requests[k])) == NoMatch
  {
  }

  /** The outcome of the region loop is explained by its requests. */
  lemma {:induction false} ScanExplained(rs: seq<Json>, i: nat, fetch: Json -> Response)
    requires i <= |rs|
    ensures Explained(ScanFrom(rs, i, fetch), fetch)
    decreases |rs| - i
  {
    if i < |rs| {
      VisitExplained(rs[i], fetch);
      match RegionVisit(rs[i], fetch)
      case Stop(p) =>
      case Next(ids) =>
        ScanExplained(rs, i + 1, fetch);
        NoMatchAhead(ids, ScanFrom(rs, i + 1, fetch), fetch);
    }
  }

  /** The Ids of the regions of `rs` that hold an active warning and an Id,
      in summary order. */
  function ActiveIds(rs: seq<Json>): seq<Json>
  {
    if rs == [] then []
    else
      (if HasActiveWarning(rs[0]) && "Id" in rs[0].fields then [rs[0].fields["Id"]] else [])
      + ActiveIds(rs[1..])
  }

  lemma ActiveIdsCons(rs: seq<Json>, i: nat, e: nat)
    requires i < e <= |rs|
    ensures ActiveIds(rs[i..e]) ==
      (if HasActiveWarning(rs[i]) && "Id" in rs[i].fields then [rs[i].fields["Id"]] else [])
      + ActiveIds(rs[i + 1..e])
  {
    assert rs[i..e][0] == rs[i];
    assert rs[i..e][1..] == rs[i + 1..e];
  }

  /** The scan passes regions i to n - 1 and stops at region n, or runs out
      when n is |rs|. It requests exactly the Ids of the active regions up to
      and including region n, in order: no active region before the stop is
      skipped. */
  lemma ScanRequestsActiveIds(rs: seq<Json>, i: nat, fetch: Json -> Response) returns (n: nat)
    requires i <= |rs|
    ensures i <= n <= |rs|
    ensures forall m :: i <= m < n ==> Passes(rs[m], fetch)
    ensures n < |rs| ==> !Passes(rs[n], fetch)
    ensures ScanFrom(rs, i, fetch).outcome == NotFound <==> n == |rs|
    ensures ScanFrom(rs, i, fetch).requests == ActiveIds(rs[i..if n < |rs| then n + 1 else n])
  {
    n := ScanStopsAt(rs, i, fetch);
    ScanRequestsUpTo(rs, i, n, fetch);
  }

  /** The region where the scan stops: the first one that does not pass. */
  lemma {:induction false} ScanStopsAt(rs: seq<Json>, i: nat, fetch: Json -> Response) returns (n: nat)
    requires i <= |rs|
    ensures i <= n <= |rs|
    ensures forall m :: i <= m < n ==> Passes(rs[m], fetch)
    ensures n < |rs| ==> !Passes(rs[n], fetch)
    ensures ScanFrom(rs, i, fetch).outcome == NotFound <==> n == |rs|
    decreases |rs| - i
  {
    if i == |rs| {
      n := i;
    } else {
      RegionVisitComplete(rs[i], fetch);
      if RegionVisit(rs[i], fetch).Stop? {
        n := i;
      } else {
        n := ScanStopsAt(rs, i + 1, fetch);
      }
    }
  }

  lemma {:induction false} ScanRequestsUpTo(rs: seq<Json>, i: nat, n: nat, fetch: Json -> Response)
    requires i <= n <= |rs|
    requires forall m :: i <= m < n ==> Passes(rs[m], fetch)
    requires n < |rs| ==> !Passes(rs[n], fetch)
    ensures ScanFrom(rs, i, fetch).requests == ActiveIds(rs[i..if n < |rs| then n + 1 else n])
    decreases |rs| - i
  {
    if i < |rs| {
      var v := RegionVisit(rs[i], fetch);
      RegionVisitComplete(rs[i], fetch);
      var head := if HasActiveWarning(rs[i]) && "Id" in rs[i].fields then [rs[i].fields["Id"]] else [];
      assert VisitRequests(v) == head;
      if v.Stop? {
        assert i == n;
        assert ScanFrom(rs, i, fetch) == v.probe;
        ActiveIdsCons(rs, i, i + 1);
        assert rs[i + 1..i + 1] == [];
      } else {
        var tail := ScanFrom(rs, i + 1, fetch);
        assert ScanFrom(rs, i, fetch) == After(head, tail);
        var e := if n < |rs| then n + 1 else n;
        assert i < n;
        ScanRequestsUpTo(rs, i + 1, n, fetch);
        ActiveIdsCons(rs, i, e);
      }
    }
  }

  /** Stop at the first match: a found warning is the match of an active
      region's detail, and every region before that one passed without a
      match. */
  lemma {:induction false} ScanFindsFirstMatch(rs: seq<Json>, i: nat, fetch: Json -> Response) returns (n: nat)
    requires i <= |rs|
    requires ScanFrom(rs, i, fetch).outcome.Found?
    ensures i <= n < |rs| && HasActiveWarning(rs[n]) && "Id" in rs[n].fields
    ensures DetailMatch(fetch(rs[n].fields["Id"])) == Match(ScanFrom(rs, i, fetch).outcome.warning)
    ensures forall m :: i <= m < n ==> Passes(rs[m], fetch)
    decreases |rs| - i
  {
    RegionVisitComplete(rs[i], fetch);
    if RegionVisit(rs[i], fetch).Stop? {
      n := i;
    } else {
      n := ScanFindsFirstMatch(rs, i + 1, fetch);
    }
  }

  /** The scan finds nothing exactly when every region passes. */
  lemma ScanNotFoundIff(rs: seq<Json>, fetch: Json -> Response)
    ensures ScanFrom(rs, 0, fetch).outcome == NotFound <==> forall m :: 0 <= m < |rs| ==> Passes(rs[m], fetch)
  {
    var n := ScanRequestsActiveIds(rs, 0, fetch);
  }

  /** The script from the summary response on. */
  function ProbeOf(summary: Response, fetch: Json -> Response): (r: Probe)
    ensures summary.status != 200 ==> r == Probe(SummaryHttpError(summary.status), [])
    ensures summary.status == 200 && !Truthy(summary.body) ==> r == Probe(NoSummary, [])
  {
    if summary.status != 200 then Probe(SummaryHttpError(summary.status), [])
    else if !Truthy(summary.body) then Probe(NoSummary, [])
    else if !summary.body.Arr? then Probe(Crash, [])
    else ScanFrom(summary.body.items, 0, fetch)
  }

  /** `After` of two request lists is `After` of their concatenation. */
  lemma AfterAfter(a: seq<Json>, b: seq<Json>, p: Probe)
    ensures After(a, After(b, p)) == After(a + b, p)
  {
    assert a + (b + p.requests) == (a + b) + p.requests;
  }

  /** Lines 35-61 for one region, step by step. */
  method VisitRegion(v: Json, fetch: Json -> Response) returns (r: Visit)
    ensures r == RegionVisit(v, fetch)
  {
    if !v.Obj? {
      return Stop(Probe(Crash, []));
    }
    var warnings := Elements(GetOr(v.fields, "AvalancheWarningList", Arr([])));
    if warnings.None? {
      return Stop(Probe(Crash, []));
    }
    var step := FindFirstActive(warnings.value);
    if step.StepCrash? {
      return Stop(Probe(Crash, []));
    }
    if step.NoneActive? {
      return Next([]);
    }
    if "Id" !in v.fields {
      return Stop(Probe(Crash, []));
    }
    var id := v.fields["Id"];
    var found := CheckDetail(fetch(id));
    match found
    case DetailCrash => r := Stop(Probe(Crash, [id]));
    case Match(w) => r := Stop(Probe(Found(w), [id]));
    case NoMatch => r := Next([id]);
  }

  /** Lines 21-61: the summary checks, then the region loop with its inner
      loops and breaks. */
  method Scan(summary: Response, fetch: Json -> Response) returns (outcome: Outcome, requests: seq<Json>)
    ensures Probe(outcome, requests) == ProbeOf(summary, fetch)
  {
    requests := [];
    if summary.status != 200 {
      return SummaryHttpError(summary.status), requests;
    }
    if !Truthy(summary.body) {
      return NoSummary, requests;
    }
    if !summary.body.Arr? {
      return Crash, requests;
    }
    var rs := summary.body.items;
    var i := 0;
    while i < |rs|
      invariant 0 <= i <= |rs|
      invariant ScanFrom(rs, 0, fetch) == After(requests, ScanFrom(rs, i, fetch))
    {
      var visit := VisitRegion(rs[i], fetch);
      if visit.Stop? {
        return visit.probe.outcome, requests + visit.probe.requests;
      }
      AfterAfter(requests, visit.requests, ScanFrom(rs, i + 1, fetch));
      requests := requests + visit.requests;
      i := i + 1;
    }
    return NotFound, requests;
  }

  /** Each requested id is the Id of a summary region that has an active
      warning; the k-th request comes from region i + k or later. */
  lemma {:induction false} RequestsFromActiveRegions(rs: seq<Json>, i: nat, fetch: Json -> Response, k: int)
      returns (n: nat)
    requires i <= |rs|
    requires 0 <= k < |ScanFrom(rs, i, fetch).requests|
    ensures i + k <= n < |rs| && HasActiveWarning(rs[n])
    ensures "Id" in rs[n].fields && rs[n].fields["Id"] == ScanFrom(rs, i, fetch).requests[k]
    decreases |rs| - i
  {
    var r := ScanFrom(rs, i, fetch);
    match RegionVisit(rs[i], fetch)
    case Stop(p) =>
      assert r == p && k == 0;
      n := i;
    case Next(ids) =>
      var tail := ScanFrom(rs, i + 1, fetch);
      assert r.requests == ids + tail.requests;
      if k < |ids| {
        assert k == 0 && r.requests[k] == ids[0];
        n := i;
      } else {
        assert r.requests[k] == tail.requests[k - |ids|];
        n := RequestsFromActiveRegions(rs, i + 1, fetch, k - |ids|);
      }
  }

  /** Requests come from distinct regions in summary order: the regions behind
      the k1-th and the k2-th request lie at least k2 - k1 apart, so no region
      is requested twice. */
  lemma {:induction false} RequestsInRegionOrder(rs: seq<Json>, i: nat, fetch: Json -> Response, k1: int, k2: int)
      returns (n1: nat, n2: nat)
    requires i <= |rs|
    requires 0 <= k1 <= k2 < |ScanFrom(rs, i, fetch).requests|
    ensures i <= n1 && n1 + (k2 - k1) <= n2 < |rs|
    ensures HasActiveWarning(rs[n1]) && HasActiveWarning(rs[n2])
    ensures "Id" in rs[n1].fields && rs[n1].fields["Id"] == ScanFrom(rs, i, fetch).requests[k1]
    ensures "Id" in rs[n2].fields && rs[n2].fields["Id"] == ScanFrom(rs, i, fetch).requests[k2]
    decreases |rs| - i
  {
    var r := ScanFrom(rs, i, fetch);
    match RegionVisit(rs[i], fetch)
    case Stop(p) =>
      assert r == p && k1 == 0 && k2 == 0;
      assert rs[i].fields["Id"] == p.requests[0];
      n1, n2 := i, i;
    case Next(ids) =>
      var tail := ScanFrom(rs, i + 1, fetch);
      assert r.requests == ids + tail.requests;
      if k2 < |ids| {
        assert k1 == 0 && k2 == 0 && r.requests[0] == ids[0];
        assert rs[i].fields["Id"] == ids[0];
        n1, n2 := i, i;
      } else if k1 < |ids| {
        assert k1 == 0 && r.requests[0] == ids[0];
        assert rs[i].fields["Id"] == ids[0];
        var t := k2 - |ids|;
        assert r.requests[k2] == tail.requests[t];
        n2 := RequestsFromActiveRegions(rs, i + 1, fetch, t);
        assert rs[n2].fields["Id"] == tail.requests[t];
        n1 := i;
      } else {
        var t1, t2 := k1 - |ids|, k2 - |ids|;
        assert r.requests[k1] == tail.requests[t1];
        assert r.requests[k2] == tail.requests[t2];
        n1, n2 := RequestsInRegionOrder(rs, i + 1, fetch, t1, t2);
        assert rs[n1].fields["Id"] == tail.requests[t1];
        assert rs[n2].fields["Id"] == tail.requests[t2];
      }
  }

  /** A region whose detail does not come back with status 200 is skipped and
      the scan goes on with the next region. */
  lemma NonOkDetailSkipped(rs: seq<Json>, i: nat, fetch: Json -> Response)
    requires i < |rs| && rs[i].Obj? && "Id" in rs[i].fields
    requires Elements(GetOr(rs[i].fields, "AvalancheWarningList", Arr([]))).Some?
    requires FirstActiveFrom(Elements(GetOr(rs[i].fields, "AvalancheWarningList", Arr([]))).value, 0).ActiveAt?
    requires fetch(rs[i].fields["Id"]).status != 200
    ensures ScanFrom(rs, i, fetch) == After([rs[i].fields["Id"]], ScanFrom(rs, i + 1, fetch))
  {
  }

  // ---------------------------------------------------------------------
  // The field display (lines 94-110).

  /** What one line of the display shows for a field. */
  datatype FieldLine = Empty | Text(sample: string) | Items(count: nat) | Keys(count: nat) | Plain(text: string)

  function ShowField(v: Option<Json>): (r: FieldLine)
    ensures r.Empty? <==> v.None? || !Truthy(v.value)
    ensures v.Some? && v.value.Str? && v.value.s != "" ==> (r.Text? &&
      (|v.value.s| <= 80 ==> r.sample == v.value.s) &&
      (|v.value.s| > 80 ==> IsPrefix(v.value.s[..80], r.sample) && r.sample[80..] == "..."))
  {
    match v
    case None => Empty
    case Some(x) =>
      if !Truthy(x) then Empty
      else
        match x
        case Str(s) => Text(Truncate(s, 80))
        case Arr(xs) => Items(|xs|)
        case Obj(m) => Keys(|m|)
        case Int(n) => Plain(IntToDecimal(n))
        case Bool(_) => Plain("True")
        case Null => Empty
  }

  /** A field this display shows is one the attribute analysis counts as
      available; the converse fails for an empty list. */
  lemma ShownIsAvailable(v: Option<Json>)
    ensures !ShowField(v).Empty? ==> AttributeAnalysis.Provided(v)
    ensures ShowField(Some(Arr([]))).Empty? && AttributeAnalysis.Provided(Some(Arr([])))
  {
  }
}
