/** check_avalanche_fields.py: pick the first summary region whose warning
    list is non-empty, work out its id and name from several possible keys,
    fetch its detail once, and list the fields of the first detailed warning.
    No danger level is consulted. Any exception reaching the outer handler
    is the outcome Crash. */
module FieldSurvey {
  import opened Json

  /** A value Python treats as true; a missing key (`.get` gives None) is false. */
  predicate Present(v: Option<Json>)
  {
    v.Some? && Truthy(v.value)
  }

  /** Python's `a or b or c`: the first truthy operand, or the last one. */
  function FirstTruthy(a: Option<Json>, b: Option<Json>, c: Option<Json>): (r: Option<Json>)
    ensures r == a || r == b || r == c
    ensures Present(a) ==> r == a
    ensures !Present(a) && Present(b) ==> r == b
    ensures Present(r) <==> Present(a) || Present(b) || Present(c)
    ensures !Present(a) && !Present(b) ==> r == c
  {
    if Present(a) then a else if Present(b) then b else c
  }

  /** Line 46: the region id from RegionId, Id or regionId. */
  function RegionIdOf(region: map<string, Json>): Option<Json>
  {
    FirstTruthy(Get(region, "RegionId"), Get(region, "Id"), Get(region, "regionId"))
  }

  /** Line 47: the region name from RegionName, Name or regionName. */
  function RegionNameOf(region: map<string, Json>): Option<Json>
  {
    FirstTruthy(Get(region, "RegionName"), Get(region, "Name"), Get(region, "regionName"))
  }

  /** The fallback on sample regions: a plain `Id` is found, a falsy
      `RegionId` of 0 gives way to `Id`, and when no key is truthy the result
      is whatever `regionId` holds, possibly nothing. */
  lemma RegionIdExamples()
    ensures RegionIdOf(map["Id" := Int(3011)]) == Some(Int(3011))
    ensures RegionIdOf(map["RegionId" := Int(0), "Id" := Int(5)]) == Some(Int(5))
    ensures RegionIdOf(map["RegionId" := Int(7), "Id" := Int(5)]) == Some(Int(7))
    ensures RegionIdOf(map["Id" := Str(""), "regionId" := Str("")]) == Some(Str(""))
    ensures RegionIdOf(map["Name" := Str("Voss")]) == None
    ensures RegionNameOf(map["Name" := Str("Voss")]) == Some(Str("Voss"))
  {
  }

  /** Where the region loop stops: at the first region with a truthy warning
      list, or at a region that is not a dict. */
  datatype Pick = PickCrash | NoneHasWarnings | PickAt(index: nat)

  function FirstWithWarningsFrom(rs: seq<Json>, i: nat): (r: Pick)
    requires i <= |rs|
    ensures r.PickAt? ==> (i <= r.index < |rs| && rs[r.index].Obj? &&
      Truthy(GetOr(rs[r.index].fields, "AvalancheWarningList", Arr([]))))
    ensures r.PickAt? ==> forall k :: i <= k < r.index ==> Quiet(rs[k])
    ensures r.NoneHasWarnings? <==> forall k :: i <= k < |rs| ==> Quiet(rs[k])
    decreases |rs| - i
  {
    if i == |rs| then NoneHasWarnings
    else if !rs[i].Obj? then PickCrash
    else if Truthy(GetOr(rs[i].fields, "AvalancheWarningList", Arr([]))) then PickAt(i)
    else FirstWithWarningsFrom(rs, i + 1)
  }

  /** A region the loop passes over: a dict with an empty or missing list. */
  predicate Quiet(v: Json)
  {
    v.Obj? && !Truthy(GetOr(v.fields, "AvalancheWarningList", Arr([])))
  }

  datatype Outcome =
    | HttpError(status: int)
    | NoWarnings
    | NoRegionWithWarnings
    | DetailUnavailable(regionId: Option<Json>, regionName: Option<Json>)
    | Examined(regionId: Option<Json>, regionName: Option<Json>, warning: map<string, Json>)
    | Crash

  /** The outcome and the region ids whose detail was requested. */
  datatype Survey = Survey(outcome: Outcome, requests: seq<Option<Json>>)

  /** Lines 63-85 for the chosen region. */
  function DetailOutcome(id: Option<Json>, name: Option<Json>, detail: Response): (r: Outcome)
    ensures detail.status != 200 ==> r == DetailUnavailable(id, name)
    ensures r.Examined? ==> (detail.body.Arr? && |detail.body.items| > 0 &&
      detail.body.items[0] == Obj(r.warning) && r.regionId == id && r.regionName == name)
  {
    if detail.status != 200 || !detail.body.Arr? || detail.body.items == [] then DetailUnavailable(id, name)
    else if !detail.body.items[0].Obj? then Crash
    else Examined(id, name, detail.body.items[0].fields)
  }

  /** The whole script (lines 22-94). */
  function SurveyOf(summary: Response, fetch: Option<Json> -> Response): (r: Survey)
    ensures |r.requests| <= 1
    ensures summary.status != 200 ==> r == Survey(HttpError(summary.status), [])
    ensures summary.status == 200 && !Truthy(summary.body) ==> r == Survey(NoWarnings, [])
    ensures r.outcome.Examined? || r.outcome.DetailUnavailable? ==> r.requests == [r.outcome.regionId]
  {
    if summary.status != 200 then Survey(HttpError(summary.status), [])
    else if !Truthy(summary.body) then Survey(NoWarnings, [])
    else if !summary.body.Arr? || !summary.body.items[0].Obj? then Survey(Crash, [])
    else
      var rs := summary.body.items;
      match FirstWithWarningsFrom(rs, 0)
      case PickCrash => Survey(Crash, [])
      case NoneHasWarnings => Survey(NoRegionWithWarnings, [])
      case PickAt(i) =>
        var region := rs[i].fields;
        var warnings := GetOr(region, "AvalancheWarningList", Arr([]));
        if !warnings.Arr? || !warnings.items[0].Obj? then Survey(Crash, [])
        else
          var id := RegionIdOf(region);
          Survey(DetailOutcome(id, RegionNameOf(region), fetch(id)), [id])
  }

  /** Lines 22-94 step by step: the region loop ends at the first region with
      warnings, whatever its detail request brings. */
  method Check(summary: Response, fetch: Option<Json> -> Response) returns (outcome: Outcome, requests: seq<Option<Json>>)
    ensures Survey(outcome, requests) == SurveyOf(summary, fetch)
  {
    requests := [];
    if summary.status != 200 {
      return HttpError(summary.status), requests;
    }
    if !Truthy(summary.body) {
      return NoWarnings, requests;
    }
    if !summary.body.Arr? || !summary.body.items[0].Obj? {
      return Crash, requests;
    }
    var rs := summary.body.items;
    var i := 0;
    while i < |rs|
      invariant 0 <= i <= |rs|
      invariant FirstWithWarningsFrom(rs, 0) == FirstWithWarningsFrom(rs, i)
    {
      if !rs[i].Obj? {
        return Crash, requests;
      }
      var region := rs[i].fields;
      var warnings := GetOr(region, "AvalancheWarningList", Arr([]));
      if Truthy(warnings) {
        if !warnings.Arr? || !warnings.items[0].Obj? {
          return Crash, requests;
        }
        var id := RegionIdOf(region);
        requests := [id];
        outcome := DetailOutcome(id, RegionNameOf(region), fetch(id));
        return;
      }
      i := i + 1;
    }
    return NoRegionWithWarnings, requests;
  }

  /** The region examined is the first one with warnings, and its id is the
      one requested. */
  lemma ExaminedIsFirstWithWarnings(summary: Response, fetch: Option<Json> -> Response)
    requires SurveyOf(summary, fetch).requests != []
    ensures summary.body.Arr? &&
      FirstWithWarningsFrom(summary.body.items, 0).PickAt? &&
      SurveyOf(summary, fetch).requests ==
        [RegionIdOf(summary.body.items[FirstWithWarningsFrom(summary.body.items, 0).index].fields)]
  {
  }
}
