/** validate_avalanche_changes.py: find the first active avalanche warning
    whose detail response has content, and report which of the old generic
    text fields it still carries and which avalanche-specific fields it fills.

    Unlike the other scripts, this one reads the summary without checking the
    HTTP status and never leaves the warning loop early: every active warning
    is fetched in turn until a detail response has a truthy body. Levels are
    read with `isdigit`. Any exception reaching the outer handler is the
    outcome Crash. */
module ChangeValidation {
  import opened Json
  import opened Text
  import opened DangerLevel

  /** Line 46: the generic fields the warning should no longer carry. */
  const OldFields: seq<string> := ["WarningText", "AdviceText", "ConsequenceText"]

  /** Lines 55-63: the avalanche-specific fields, in the dict's order. */
  const NewFields: seq<string> :=
    ["MainText", "AvalancheDanger", "AvalancheProblems", "AvalancheAdvices",
     "SnowSurface", "CurrentWeaklayers", "LatestObservations"]

  /** How one new field is shown (lines 66-76). */
  datatype FieldLine = Empty | Preview(text: string) | Items(count: nat) | TypeName(name: string)

  /** Python's `type(value).__name__` for a truthy value that is neither a
      string nor a list. */
  function TypeNameOf(v: Json): string
  {
    match v
    case Obj(_) => "dict"
    case Int(_) => "int"
    case Bool(_) => "bool"
    case Null => "NoneType"
    case Str(_) => "str"
    case Arr(_) => "list"
  }

  /** Lines 66-76: a truthy string is previewed to 50 characters, a truthy
      list by its length, any other truthy value by its type name. */
  function ShowNewField(v: Option<Json>): (r: FieldLine)
    ensures r.Empty? <==> v.None? || !Truthy(v.value)
    ensures r.Preview? ==> (v.Some? && v.value.Str? && |r.text| <= 53 &&
      (|v.value.s| <= 50 ==> r.text == v.value.s) &&
      (|v.value.s| > 50 ==> IsPrefix(v.value.s[..50], r.text) && r.text[50..] == "..."))
    ensures r.Items? ==> v.Some? && v.value.Arr? && r.count == |v.value.items| > 0
  {
    match v
    case None => Empty
    case Some(x) =>
      if !Truthy(x) then Empty
      else
        match x
        case Str(s) => Preview(Truncate(s, 50))
        case Arr(xs) => Items(|xs|)
        case _ => TypeName(TypeNameOf(x))
  }

  /** What the script prints about a warning detail. */
  datatype Report = Report(
    regionName: Json,
    dangerLevel: Option<Json>,
    oldPresent: seq<bool>,
    newLines: seq<FieldLine>)

  /** Lines 39-76 for a detail list with a dict first: the region's Name is
      required (line 40); old fields are judged by key presence, new ones by
      truthiness. */
  function ReportOf(region: map<string, Json>, detail: map<string, Json>): (r: Option<Report>)
    ensures r.Some? <==> "Name" in region
    ensures r.Some? ==> |r.value.oldPresent| == |OldFields| && |r.value.newLines| == |NewFields|
    ensures r.Some? ==> forall k :: 0 <= k < |OldFields| ==> (r.value.oldPresent[k] <==> OldFields[k] in detail)
    ensures r.Some? ==> forall k :: 0 <= k < |NewFields| ==>
      (r.value.newLines[k].Empty? <==> FieldEmpty(detail, NewFields[k]))
    ensures r.Some? ==> r.value.regionName == region["Name"] && r.value.dangerLevel == Get(detail, "DangerLevel")
    ensures r.Some? ==> forall k :: 0 <= k < |NewFields| ==>
      r.value.newLines[k] == ShowNewField(Get(detail, NewFields[k]))
  {
    if "Name" !in region then None
    else
      Some(Report(
        region["Name"],
        Get(detail, "DangerLevel"),
        seq(|OldFields|, k requires 0 <= k < |OldFields| => OldFields[k] in detail),
        seq(|NewFields|, k requires 0 <= k < |NewFields| => ShowNewField(Get(detail, NewFields[k])))))
  }

  /** A new field that the script reports as Empty: missing or falsy. */
  predicate FieldEmpty(detail: map<string, Json>, field: string)
  {
    field !in detail || !Truthy(detail[field])
  }

  datatype Outcome = Reported(report: Report) | NoActiveWarnings | Crash

  /** The outcome and the region ids whose detail was requested, in order. */
  datatype Validation = Validation(outcome: Outcome, requests: seq<Json>)

  function After(before: seq<Json>, v: Validation): Validation
  {
    Validation(v.outcome, before + v.requests)
  }

  /** Lines 38-83 for one detail body: nothing when it is falsy, a report when
      it is a list whose first element is a dict, a crash for anything else
      (indexing a dict, string or number by 0 fails or yields no `.get`). */
  function DetailStep(region: map<string, Json>, body: Json): (r: Option<Outcome>)
    ensures r.None? <==> !Truthy(body)
    ensures r.Some? && r.value.Reported? ==> body.Arr? && |body.items| > 0 && body.items[0].Obj?
    ensures r.Some? && r.value.Reported? ==> ReportOf(region, body.items[0].fields) == Some(r.value.report)
    ensures r.Some? ==> (r.value == Crash <==>
      !body.Arr? || !body.items[0].Obj? || ReportOf(region, body.items[0].fields).None?)
    ensures r.Some? ==> !r.value.NoActiveWarnings?
  {
    if !Truthy(body) then None
    else if !body.Arr? || !body.items[0].Obj? then Some(Crash)
    else
      match ReportOf(region, body.items[0].fields)
      case None => Some(Crash)
      case Some(rep) => Some(Reported(rep))
  }

  /** The warning loop of one region from index `j` on. NoActiveWarnings means
      the loop ran out and the region loop goes on. */
  function WarningsFrom(region: map<string, Json>, ws: seq<Json>, j: nat, fetch: Json -> Response): (r: Validation)
    requires j <= |ws|
    ensures |r.requests| <= |ws| - j
    ensures r.outcome.Reported? ==> (r.requests != [] &&
      Truthy(fetch(r.requests[|r.requests| - 1]).body))
    ensures !r.outcome.Crash? ==> forall k :: 0 <= k < |r.requests| - 1 ==> !Truthy(fetch(r.requests[k]).body)
    ensures r.outcome.NoActiveWarnings? ==> forall k :: 0 <= k < |r.requests| ==> !Truthy(fetch(r.requests[k]).body)
    ensures r.outcome.Reported? ==> ("Id" in region && r.requests[|r.requests| - 1] == region["Id"] &&
      DetailStep(region, fetch(region["Id"]).body) == Some(r.outcome))
    decreases |ws| - j
  {
    if j == |ws| then Validation(NoActiveWarnings, [])
    else if !ws[j].Obj? then Validation(Crash, [])
    else
      match LevelByIsDigit(Get(ws[j].fields, "DangerLevel"))
      case None => Validation(Crash, [])
      case Some(level) =>
        if level <= 0 then WarningsFrom(region, ws, j + 1, fetch)
        else if "Id" !in region then Validation(Crash, [])
        else
          var id := region["Id"];
          match DetailStep(region, fetch(id).body)
          case None => After([id], WarningsFrom(region, ws, j + 1, fetch))
          case Some(o) => Validation(o, [id])
  }

  /** The region loop from region `i` on. */
  function RegionsFrom(rs: seq<Json>, i: nat, fetch: Json -> Response): (r: Validation)
    requires i <= |rs|
    ensures r.outcome.Reported? ==> (r.requests != [] &&
      Truthy(fetch(r.requests[|r.requests| - 1]).body))
    ensures !r.outcome.Crash? ==> forall k :: 0 <= k < |r.requests| - 1 ==> !Truthy(fetch(r.requests[k]).body)
    ensures r.outcome.NoActiveWarnings? ==> forall k :: 0 <= k < |r.requests| ==> !Truthy(fetch(r.requests[k]).body)
    decreases |rs| - i
  {
    if i == |rs| then Validation(NoActiveWarnings, [])
    else if !rs[i].Obj? then Validation(Crash, [])
    else
      match Elements(GetOr(rs[i].fields, "AvalancheWarningList", Arr([])))
      case None => Validation(Crash, [])
      case Some(ws) =>
        var v := WarningsFrom(rs[i].fields, ws, 0, fetch);
        if v.outcome.NoActiveWarnings? then After(v.requests, RegionsFrom(rs, i + 1, fetch))
        else v
  }

  lemma AfterAfter(a: seq<Json>, b: seq<Json>, v: Validation)
    ensures After(a, After(b, v)) == After(a + b, v)
  {
    assert a + (b + v.requests) == (a + b) + v.requests;
  }

  /** The whole script: the summary body is iterated whatever the status. */
  function ValidationOf(summary: Response, fetch: Json -> Response): (r: Validation)
    ensures Elements(summary.body) == Some([]) ==> r == Validation(NoActiveWarnings, [])
    ensures Elements(summary.body).None? ==> r == Validation(Crash, [])
    ensures r.outcome.Reported? ==> (r.requests != [] &&
      Truthy(fetch(r.requests[|r.requests| - 1]).body))
  {
    match Elements(summary.body)
    case None => Validation(Crash, [])
    case Some(rs) => RegionsFrom(rs, 0, fetch)
  }

  /** Lines 26-83: the warning loop of one region. */
  method ScanWarnings(region: map<string, Json>, ws: seq<Json>, fetch: Json -> Response)
    returns (outcome: Outcome, requests: seq<Json>)
    ensures Validation(outcome, requests) == WarningsFrom(region, ws, 0, fetch)
  {
    requests := [];
    var j := 0;
    while j < |ws|
      invariant 0 <= j <= |ws|
      invariant WarningsFrom(region, ws, 0, fetch) == After(requests, WarningsFrom(region, ws, j, fetch))
    {
      var w := ws[j];
      if !w.Obj? {
        return Crash, requests;
      }
      var level := LevelByIsDigit(Get(w.fields, "DangerLevel"));
      if level.None? {
        return Crash, requests;
      }
      if level.value > 0 {
        if "Id" !in region {
          return Crash, requests;
        }
        var id := region["Id"];
        requests := requests + [id];
        var step := DetailStep(region, fetch(id).body);
        if step.Some? {
          return step.value, requests;
        }
      }
      j := j + 1;
    }
    return NoActiveWarnings, requests;
  }

  /** Lines 20-85: the region loop around the warning loop. */
  method Validate(summary: Response, fetch: Json -> Response) returns (outcome: Outcome, requests: seq<Json>)
    ensures Validation(outcome, requests) == ValidationOf(summary, fetch)
  {
    requests := [];
    var regions := Elements(summary.body);
    if regions.None? {
      return Crash, requests;
    }
    var rs := regions.value;
    var i := 0;
    while i < |rs|
      invariant 0 <= i <= |rs|
      invariant RegionsFrom(rs, 0, fetch) == After(requests, RegionsFrom(rs, i, fetch))
    {
      if !rs[i].Obj? {
        return Crash, requests;
      }
      var warnings := Elements(GetOr(rs[i].fields, "AvalancheWarningList", Arr([])));
      if warnings.None? {
        return Crash, requests;
      }
      var o, more := ScanWarnings(rs[i].fields, warnings.value, fetch);
      assert RegionsFrom(rs, i, fetch) ==
        if o.NoActiveWarnings? then After(more, RegionsFrom(rs, i + 1, fetch)) else Validation(o, more);
      if o.NoActiveWarnings? {
        AfterAfter(requests, more, RegionsFrom(rs, i + 1, fetch));
      }
      requests := requests + more;
      if !o.NoActiveWarnings? {
        return o, requests;
      }
      i := i + 1;
    }
    return NoActiveWarnings, requests;
  }

  /** Warning `j` of `ws` is active: a dict whose `isdigit` level is above 0. */
  predicate ActiveWarning(ws: seq<Json>, j: int)
  {
    && 0 <= j < |ws|
    && ws[j].Obj?
    && LevelByIsDigit(Get(ws[j].fields, "DangerLevel")).Some?
    && LevelByIsDigit(Get(ws[j].fields, "DangerLevel")).value > 0
  }

  /** `id` is the Id of summary region `n`, requested for its active warning `j`. */
  predicate RequestFor(rs: seq<Json>, n: int, j: int, id: Json)
  {
    && 0 <= n < |rs|
    && rs[n].Obj?
    && "Id" in rs[n].fields
    && rs[n].fields["Id"] == id
    && Elements(GetOr(rs[n].fields, "AvalancheWarningList", Arr([]))).Some?
    && ActiveWarning(Elements(GetOr(rs[n].fields, "AvalancheWarningList", Arr([]))).value, j)
  }

  /** Within one region, the k-th request is made for an active warning, and
      later requests for later warnings (WarningsRequestsUpTo gives the
      converse: every active warning before the stop is requested). */
  lemma {:induction false} WarningRequestsInOrder(region: map<string, Json>, ws: seq<Json>, j0: nat,
                                                  fetch: Json -> Response, k1: int, k2: int)
      returns (j1: nat, j2: nat)
    requires j0 <= |ws|
    requires 0 <= k1 <= k2 < |WarningsFrom(region, ws, j0, fetch).requests|
    ensures j0 + k1 <= j1 && j1 + (k2 - k1) <= j2 < |ws|
    ensures ActiveWarning(ws, j1) && ActiveWarning(ws, j2)
    ensures "Id" in region
    ensures WarningsFrom(region, ws, j0, fetch).requests[k1] == region["Id"]
    ensures WarningsFrom(region, ws, j0, fetch).requests[k2] == region["Id"]
    decreases |ws| - j0
  {
    var r := WarningsFrom(region, ws, j0, fetch);
    var level := LevelByIsDigit(Get(ws[j0].fields, "DangerLevel"));
    if level.value <= 0 {
      j1, j2 := WarningRequestsInOrder(region, ws, j0 + 1, fetch, k1, k2);
    } else {
      var id := region["Id"];
      if DetailStep(region, fetch(id).body).None? {
        var tail := WarningsFrom(region, ws, j0 + 1, fetch);
        assert r.requests == [id] + tail.requests;
        if k2 == 0 {
          j1, j2 := j0, j0;
        } else if k1 == 0 {
          var a, b := WarningRequestsInOrder(region, ws, j0 + 1, fetch, k2 - 1, k2 - 1);
          j1, j2 := j0, b;
        } else {
          j1, j2 := WarningRequestsInOrder(region, ws, j0 + 1, fetch, k1 - 1, k2 - 1);
        }
      } else {
        assert r.requests == [id];
        j1, j2 := j0, j0;
      }
    }
  }

  /** Every request is the Id of a summary region with an active warning, and
      requests follow the summary order, then the warning order: the region
      and warning positions of a later request are strictly greater. */
  lemma {:induction false} RequestsInOrder(rs: seq<Json>, i: nat, fetch: Json -> Response, k1: int, k2: int)
      returns (n1: nat, j1: nat, n2: nat, j2: nat)
    requires i <= |rs|
    requires 0 <= k1 <= k2 < |RegionsFrom(rs, i, fetch).requests|
    ensures i <= n1 <= n2
    ensures RequestFor(rs, n1, j1, RegionsFrom(rs, i, fetch).requests[k1])
    ensures RequestFor(rs, n2, j2, RegionsFrom(rs, i, fetch).requests[k2])
    ensures n1 == n2 ==> j1 + (k2 - k1) <= j2
    decreases |rs| - i
  {
    var r := RegionsFrom(rs, i, fetch);
    var ws := Elements(GetOr(rs[i].fields, "AvalancheWarningList", Arr([]))).value;
    var v := WarningsFrom(rs[i].fields, ws, 0, fetch);
    if v.outcome.NoActiveWarnings? {
      var tail := RegionsFrom(rs, i + 1, fetch);
      assert r.requests == v.requests + tail.requests;
      if k2 < |v.requests| {
        j1, j2 := WarningRequestsInOrder(rs[i].fields, ws, 0, fetch, k1, k2);
        n1, n2 := i, i;
      } else if k1 < |v.requests| {
        var a, b := WarningRequestsInOrder(rs[i].fields, ws, 0, fetch, k1, k1);
        var c, d, e, f := RequestsInOrder(rs, i + 1, fetch, k2 - |v.requests|, k2 - |v.requests|);
        n1, j1, n2, j2 := i, a, c, d;
      } else {
        n1, j1, n2, j2 := RequestsInOrder(rs, i + 1, fetch, k1 - |v.requests|, k2 - |v.requests|);
      }
    } else {
      assert r == v;
      j1, j2 := WarningRequestsInOrder(rs[i].fields, ws, 0, fetch, k1, k2);
      n1, n2 := i, i;
    }
  }

  /** A region keeps being scanned past an active warning whose detail came
      back empty: the request is made and the loop goes on with the next
      warning. The other scripts stop at the first active warning of a region. */
  lemma EmptyDetailContinues(region: map<string, Json>, ws: seq<Json>, j: nat, fetch: Json -> Response)
    requires ActiveWarning(ws, j) && "Id" in region
    requires !Truthy(fetch(region["Id"]).body)
    ensures WarningsFrom(region, ws, j, fetch) == After([region["Id"]], WarningsFrom(region, ws, j + 1, fetch))
  {
  }

  /** The two-warning case: both active warnings of the region are fetched
      when the first detail comes back empty. */
  lemma EmptyDetailExample(region: map<string, Json>, ws: seq<Json>, fetch: Json -> Response)
    requires |ws| == 2 && "Id" in region
    requires ws[0] == Obj(map["DangerLevel" := Str("3")]) && ws[1] == Obj(map["DangerLevel" := Int(2)])
    requires fetch(region["Id"]).body == Arr([])
    ensures WarningsFrom(region, ws, 0, fetch) == Validation(NoActiveWarnings, [region["Id"], region["Id"]])
  {
    assert LevelByIsDigit(Get(ws[0].fields, "DangerLevel")) == Some(3) by {
      ParseDigitsSingle('3');
    }
    assert LevelByIsDigit(Get(ws[1].fields, "DangerLevel")) == Some(2);
    var id := region["Id"];
    assert DetailStep(region, fetch(id).body).None?;
    assert WarningsFrom(region, ws, 2, fetch) == Validation(NoActiveWarnings, []);
    assert WarningsFrom(region, ws, 1, fetch) == After([id], WarningsFrom(region, ws, 2, fetch));
    assert WarningsFrom(region, ws, 0, fetch) == After([id], WarningsFrom(region, ws, 1, fetch));
  }

  /** Warning `w` of `region` lets the warning loop go on: a dict with a
      readable level, and when active, a region Id whose detail is falsy. */
  predicate WarningPasses(region: map<string, Json>, w: Json, fetch: Json -> Response)
  {
    && w.Obj?
    && LevelByIsDigit(Get(w.fields, "DangerLevel")).Some?
    && (LevelByIsDigit(Get(w.fields, "DangerLevel")).value > 0 ==>
         "Id" in region && !Truthy(fetch(region["Id"]).body))
  }

  /** Region `v` lets the region loop go on: its warning list iterates and
      every warning passes. */
  predicate RegionPasses(v: Json, fetch: Json -> Response)
  {
    && v.Obj?
    && Elements(GetOr(v.fields, "AvalancheWarningList", Arr([]))).Some?
    && forall j :: 0 <= j < |Elements(GetOr(v.fields, "AvalancheWarningList", Arr([]))).value| ==>
         WarningPasses(v.fields, Elements(GetOr(v.fields, "AvalancheWarningList", Arr([]))).value[j], fetch)
  }

  /** The region's Id once per active warning of `ws`, in order. */
  function IdsForActive(region: map<string, Json>, ws: seq<Json>): seq<Json>
  {
    if ws == [] then []
    else (if ActiveWarning(ws, 0) && "Id" in region then [region["Id"]] else []) + IdsForActive(region, ws[1..])
  }

  /** One Id per active warning over the regions of `rs`, in summary order
      and then warning order. */
  function AllIds(rs: seq<Json>): seq<Json>
  {
    if rs == [] then []
    else
      (if rs[0].Obj? && Elements(GetOr(rs[0].fields, "AvalancheWarningList", Arr([]))).Some?
       then IdsForActive(rs[0].fields, Elements(GetOr(rs[0].fields, "AvalancheWarningList", Arr([]))).value)
       else [])
      + AllIds(rs[1..])
  }

  lemma IdsForActiveCons(region: map<string, Json>, ws: seq<Json>, j: nat, e: nat)
    requires j < e <= |ws|
    ensures IdsForActive(region, ws[j..e]) ==
      (if ActiveWarning(ws, j) && "Id" in region then [region["Id"]] else []) + IdsForActive(region, ws[j + 1..e])
  {
    var t := ws[j..e];
    assert t[0] == ws[j];
    assert t[1..] == ws[j + 1..e];
    assert ActiveWarning(t, 0) <==> ActiveWarning(ws, j);
  }

  lemma AllIdsCons(rs: seq<Json>, i: nat, e: nat)
    requires i < e <= |rs|
    ensures AllIds(rs[i..e]) ==
      (if rs[i].Obj? && Elements(GetOr(rs[i].fields, "AvalancheWarningList", Arr([]))).Some?
       then IdsForActive(rs[i].fields, Elements(GetOr(rs[i].fields, "AvalancheWarningList", Arr([]))).value)
       else [])
      + AllIds(rs[i + 1..e])
  {
    assert rs[i..e][0] == rs[i];
    assert rs[i..e][1..] == rs[i + 1..e];
  }

  /** The warning loop passes warnings j to e - 1 and stops at warning e, or
      runs out (NoActiveWarnings) when e is |ws|. */
  lemma {:induction false} WarningsStopAt(region: map<string, Json>, ws: seq<Json>, j: nat, fetch: Json -> Response)
      returns (e: nat)
    requires j <= |ws|
    ensures j <= e <= |ws|
    ensures forall m :: j <= m < e ==> WarningPasses(region, ws[m], fetch)
    ensures e < |ws| ==> !WarningPasses(region, ws[e], fetch)
    ensures WarningsFrom(region, ws, j, fetch).outcome.NoActiveWarnings? <==> e == |ws|
    decreases |ws| - j
  {
    if j == |ws| || !WarningPasses(region, ws[j], fetch) {
      e := j;
    } else {
      e := WarningsStopAt(region, ws, j + 1, fetch);
    }
  }

  /** Up to the warning where the loop stops, every active warning is
      requested once, in order; that warning too when it is active. */
  lemma {:induction false} WarningsRequestsUpTo(region: map<string, Json>, ws: seq<Json>, j: nat, e: nat,
                                                fetch: Json -> Response)
    requires j <= e <= |ws|
    requires forall m :: j <= m < e ==> WarningPasses(region, ws[m], fetch)
    requires e < |ws| ==> !WarningPasses(region, ws[e], fetch)
    ensures WarningsFrom(region, ws, j, fetch).requests == IdsForActive(region, ws[j..if e < |ws| then e + 1 else e])
    decreases |ws| - j
  {
    if j < |ws| {
      var stop := if e < |ws| then e + 1 else e;
      IdsForActiveCons(region, ws, j, stop);
      if j < e {
        WarningsRequestsUpTo(region, ws, j + 1, e, fetch);
      } else {
        assert ws[j + 1..stop] == [];
      }
    }
  }

  /** A readable region passes exactly when its warning loop runs out, and
      then it requested its Id once per active warning. */
  lemma RegionPassesIff(v: Json, fetch: Json -> Response)
    requires v.Obj? && Elements(GetOr(v.fields, "AvalancheWarningList", Arr([]))).Some?
    ensures var ws := Elements(GetOr(v.fields, "AvalancheWarningList", Arr([]))).value;
      RegionPasses(v, fetch) <==> WarningsFrom(v.fields, ws, 0, fetch).outcome.NoActiveWarnings?
    ensures var ws := Elements(GetOr(v.fields, "AvalancheWarningList", Arr([]))).value;
      RegionPasses(v, fetch) ==> WarningsFrom(v.fields, ws, 0, fetch).requests == IdsForActive(v.fields, ws)
  {
    var ws := Elements(GetOr(v.fields, "AvalancheWarningList", Arr([]))).value;
    var e := WarningsStopAt(v.fields, ws, 0, fetch);
    WarningsRequestsUpTo(v.fields, ws, 0, e, fetch);
    assert ws[0..|ws|] == ws;
  }

  /** The region loop passes regions i to n - 1 and stops in region n, or
      runs out (NoActiveWarnings) when n is |rs|. */
  lemma {:induction false} RegionsStopAt(rs: seq<Json>, i: nat, fetch: Json -> Response) returns (n: nat)
    requires i <= |rs|
    ensures i <= n <= |rs|
    ensures forall m :: i <= m < n ==> RegionPasses(rs[m], fetch)
    ensures n < |rs| ==> !RegionPasses(rs[n], fetch)
    ensures RegionsFrom(rs, i, fetch).outcome.NoActiveWarnings? <==> n == |rs|
    decreases |rs| - i
  {
    if i == |rs| || !rs[i].Obj? || Elements(GetOr(rs[i].fields, "AvalancheWarningList", Arr([]))).None? {
      n := i;
    } else {
      RegionPassesIff(rs[i], fetch);
      if RegionPasses(rs[i], fetch) {
        n := RegionsStopAt(rs, i + 1, fetch);
      } else {
        n := i;
      }
    }
  }

  /** The requests made in region `n`, where the region loop stops. */
  function StopRequests(rs: seq<Json>, n: nat, fetch: Json -> Response): seq<Json>
    requires n <= |rs|
  {
    if n < |rs| && rs[n].Obj? && Elements(GetOr(rs[n].fields, "AvalancheWarningList", Arr([]))).Some?
    then WarningsFrom(rs[n].fields, Elements(GetOr(rs[n].fields, "AvalancheWarningList", Arr([]))).value, 0, fetch).requests
    else []
  }

  /** The requests of the region loop: one per active warning of every region
      it passes, in summary then warning order, followed by those of the
      region where it stops. */
  lemma {:induction false} RegionsRequestsUpTo(rs: seq<Json>, i: nat, n: nat, fetch: Json -> Response)
    requires i <= n <= |rs|
    requires forall m {:trigger RegionPasses(rs[m], fetch)} :: i <= m < n ==> RegionPasses(rs[m], fetch)
    requires n < |rs| ==> !RegionPasses(rs[n], fetch)
    ensures RegionsFrom(rs, i, fetch).requests == AllIds(rs[i..n]) + StopRequests(rs, n, fetch)
    decreases |rs| - i
  {
    if i < n {
      PassedRegionStep(rs, i, fetch);
      RegionsRequestsUpTo(rs, i + 1, n, fetch);
      AllIdsSplit(rs, i, n);
      AppendAssoc(AllIds(rs[i..i + 1]), AllIds(rs[i + 1..n]), StopRequests(rs, n, fetch));
    } else {
      assert rs[i..n] == [];
      StopRegionRequests(rs, n, fetch);
    }
  }

  lemma AppendAssoc(a: seq<Json>, b: seq<Json>, c: seq<Json>)
    ensures (a + b) + c == a + (b + c)
  {
  }

  /** The Ids of a run of regions: those of its first region, then the rest. */
  lemma AllIdsSplit(rs: seq<Json>, i: nat, n: nat)
    requires i < n <= |rs|
    ensures AllIds(rs[i..n]) == AllIds(rs[i..i + 1]) + AllIds(rs[i + 1..n])
  {
    AllIdsCons(rs, i, n);
    AllIdsCons(rs, i, i + 1);
    assert rs[i + 1..i + 1] == [];
  }

  /** A region that passes adds one request per active warning and hands
      over to the next region. */
  lemma PassedRegionStep(rs: seq<Json>, i: nat, fetch: Json -> Response)
    requires i < |rs| && RegionPasses(rs[i], fetch)
    ensures RegionsFrom(rs, i, fetch).requests == AllIds(rs[i..i + 1]) + RegionsFrom(rs, i + 1, fetch).requests
  {
    RegionPassesIff(rs[i], fetch);
    AllIdsCons(rs, i, i + 1);
    assert rs[i + 1..i + 1] == [];
  }

  /** In the region where the loop stops, the run's requests are those of
      that region's warning loop. */
  lemma StopRegionRequests(rs: seq<Json>, n: nat, fetch: Json -> Response)
    requires n <= |rs|
    requires n < |rs| ==> !RegionPasses(rs[n], fetch)
    ensures RegionsFrom(rs, n, fetch).requests == StopRequests(rs, n, fetch)
  {
    if n < |rs| && rs[n].Obj? && Elements(GetOr(rs[n].fields, "AvalancheWarningList", Arr([]))).Some? {
      RegionPassesIff(rs[n], fetch);
    }
  }

  /** The run ends with NoActiveWarnings exactly when no region crashes and no
      active warning has a truthy detail; it then requested one Id per active
      warning of the whole summary, in order. */
  lemma NoActiveWarningsIff(rs: seq<Json>, fetch: Json -> Response)
    ensures RegionsFrom(rs, 0, fetch).outcome.NoActiveWarnings? <==>
      forall m :: 0 <= m < |rs| ==> RegionPasses(rs[m], fetch)
    ensures RegionsFrom(rs, 0, fetch).outcome.NoActiveWarnings? ==> RegionsFrom(rs, 0, fetch).requests == AllIds(rs)
  {
    var n := RegionsStopAt(rs, 0, fetch);
    RegionsRequestsUpTo(rs, 0, n, fetch);
    assert rs[0..|rs|] == rs;
  }

  /** A reported run stopped in region n, the first that does not pass: its
      Id was the last request, and the outcome is that Id's detail step. */
  lemma {:induction false} ReportedAt(rs: seq<Json>, i: nat, fetch: Json -> Response) returns (n: nat)
    requires i <= |rs|
    requires RegionsFrom(rs, i, fetch).outcome.Reported?
    ensures i <= n < |rs| && rs[n].Obj? && "Id" in rs[n].fields
    ensures forall m :: i <= m < n ==> RegionPasses(rs[m], fetch)
    ensures var r := RegionsFrom(rs, i, fetch);
      r.requests[|r.requests| - 1] == rs[n].fields["Id"] &&
      DetailStep(rs[n].fields, fetch(rs[n].fields["Id"]).body) == Some(r.outcome)
    decreases |rs| - i
  {
    var ws := Elements(GetOr(rs[i].fields, "AvalancheWarningList", Arr([]))).value;
    var v := WarningsFrom(rs[i].fields, ws, 0, fetch);
    if v.outcome.NoActiveWarnings? {
      RegionPassesIff(rs[i], fetch);
      var tail := RegionsFrom(rs, i + 1, fetch);
      assert RegionsFrom(rs, i, fetch) == After(v.requests, tail);
      n := ReportedAt(rs, i + 1, fetch);
      var all := v.requests + tail.requests;
      assert all[|all| - 1] == tail.requests[|tail.requests| - 1];
    } else {
      assert RegionsFrom(rs, i, fetch) == v;
      n := i;
    }
  }

  /** The script's report is built from the detail of the last region it
      requested, from that list's first element only. */
  lemma ReportFromLastDetail(summary: Response, fetch: Json -> Response) returns (n: nat)
    requires ValidationOf(summary, fetch).outcome.Reported?
    ensures Elements(summary.body).Some?
    ensures var rs := Elements(summary.body).value;
      n < |rs| && rs[n].Obj? && "Id" in rs[n].fields &&
      (forall m :: 0 <= m < n ==> RegionPasses(rs[m], fetch))
    ensures var rs := Elements(summary.body).value;
      var r := ValidationOf(summary, fetch);
      var body := fetch(rs[n].fields["Id"]).body;
      r.requests[|r.requests| - 1] == rs[n].fields["Id"] &&
      body.Arr? && |body.items| > 0 && body.items[0].Obj? &&
      ReportOf(rs[n].fields, body.items[0].fields) == Some(r.outcome.report)
  {
    n := ReportedAt(Elements(summary.body).value, 0, fetch);
  }

  /** The report's old-field column: a warning without the generic fields
      shows all three as absent, and one that carries them, even empty, shows
      them as present. */
  lemma OldFieldsByPresence(region: map<string, Json>, detail: map<string, Json>)
    requires "Name" in region
    ensures "WarningText" !in detail && "AdviceText" !in detail && "ConsequenceText" !in detail ==>
      ReportOf(region, detail).value.oldPresent == [false, false, false]
    ensures detail == map["WarningText" := Str(""), "AdviceText" := Null, "ConsequenceText" := Str("x")] ==>
      ReportOf(region, detail).value.oldPresent == [true, true, true]
  {
  }
}
