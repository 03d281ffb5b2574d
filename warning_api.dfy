/** The warning adapters as their unit tests pin them down: the factory that
    turns a hazard tag into a configured adapter, the fail-soft fetch that
    tags every record with the adapter's hazard, and the MetAlerts helper that
    pulls the validity interval out of an alert title. */
module WarningApi {
  import opened Json
  import opened Text

  datatype HazardType = Landslide | Flood | Avalanche | MetAlerts

  /** The tag that names a hazard, in requests and in every record. */
  function Tag(h: HazardType): string
  {
    match h
    case Landslide => "landslide"
    case Flood => "flood"
    case Avalanche => "avalanche"
    case MetAlerts => "metalerts"
  }

  /** The hazard a tag names, if any. */
  function HazardOfTag(tag: string): (r: Option<HazardType>)
    ensures r.Some? ==> Tag(r.value) == tag
  {
    if tag == "landslide" then Some(Landslide)
    else if tag == "flood" then Some(Flood)
    else if tag == "avalanche" then Some(Avalanche)
    else if tag == "metalerts" then Some(MetAlerts)
    else None
  }

  /** Every hazard is named by its tag and by nothing else. */
  lemma TagRoundTrip(h: HazardType, tag: string)
    ensures HazardOfTag(Tag(h)) == Some(h)
    ensures HazardOfTag(tag) == Some(h) <==> tag == Tag(h)
  {
  }

  /** A latitude or longitude, carried as given: nothing computes with it. */
  datatype Coordinate = Coordinate(literal: string)

  /** Where warnings are wanted: a county (id and name), coordinates, or both,
      plus the language of the texts. */
  datatype Location = Location(
    countyId: Option<string>,
    countyName: Option<string>,
    latitude: Option<Coordinate>,
    longitude: Option<Coordinate>,
    lang: string)

  /** The four adapter classes; each carries the location it was built for. */
  datatype Adapter =
    | LandslideAPI(config: Location)
    | FloodAPI(config: Location)
    | AvalancheAPI(config: Location)
    | MetAlertsAPI(config: Location)

  function HazardOf(a: Adapter): HazardType
  {
    match a
    case LandslideAPI(_) => Landslide
    case FloodAPI(_) => Flood
    case AvalancheAPI(_) => Avalanche
    case MetAlertsAPI(_) => MetAlerts
  }

  /** The factory holds the location it was constructed with. */
  datatype WarningAPIFactory = WarningAPIFactory(location: Location)

  /** `get_api` raises ValueError("Unknown warning type ...") for any other tag. */
  datatype FactoryError = UnknownWarningType(requested: string)

  datatype Result<T> = Ok(value: T) | Err(error: FactoryError)

  /** `WarningAPIFactory.get_api`: the adapter class for a known tag, built with
      the factory's location unchanged; an error naming the tag otherwise. */
  function GetApi(factory: WarningAPIFactory, tag: string): (r: Result<Adapter>)
    ensures r.Ok? <==> tag in {"landslide", "flood", "avalanche", "metalerts"}
    ensures r.Ok? ==> Tag(HazardOf(r.value)) == tag
    ensures r.Ok? ==> r.value.config == factory.location
    ensures r.Err? ==> r.error == UnknownWarningType(tag)
  {
    match HazardOfTag(tag)
    case None => Err(UnknownWarningType(tag))
    case Some(h) =>
      var loc := factory.location;
      Ok(match h
         case Landslide => LandslideAPI(loc)
         case Flood => FloodAPI(loc)
         case Avalanche => AvalancheAPI(loc)
         case MetAlerts => MetAlertsAPI(loc))
  }

  /** The factory of the tests: county 46, Vestland, gives each adapter class
      for its tag, carrying county id "46"; built from coordinates it gives a
      MetAlerts adapter carrying latitude 60.39; "unknown" is refused. */
  lemma FactoryExamples(lang: string)
    ensures var f := WarningAPIFactory(Location(Some("46"), Some("Vestland"), None, None, lang));
      && GetApi(f, "landslide").Ok? && GetApi(f, "landslide").value.LandslideAPI?
      && GetApi(f, "landslide").value.config.countyId == Some("46")
      && GetApi(f, "flood").Ok? && GetApi(f, "flood").value.FloodAPI?
      && GetApi(f, "avalanche").Ok? && GetApi(f, "avalanche").value.AvalancheAPI?
      && GetApi(f, "metalerts").Ok? && GetApi(f, "metalerts").value.MetAlertsAPI?
      && GetApi(f, "metalerts").value.config.countyId == Some("46")
      && GetApi(f, "unknown") == Err(UnknownWarningType("unknown"))
    ensures var f := WarningAPIFactory(Location(None, None, Some(Coordinate("60.39")), Some(Coordinate("5.32")), lang));
      && GetApi(f, "metalerts").Ok? && GetApi(f, "metalerts").value.MetAlertsAPI?
      && GetApi(f, "metalerts").value.config.latitude == Some(Coordinate("60.39"))
  {
  }

  /** The key under which every fetched record carries its hazard tag. */
  const WarningTypeKey := "_warning_type"

  /** A declared content type of JSON, with or without parameters. */
  predicate IsJsonContentType(contentType: string)
  {
    contentType == "application/json" || IsPrefix("application/json;", contentType)
  }

  /** The response is one the adapter reads: status 200, JSON, a list of objects. */
  predicate Usable(resp: Response)
  {
    && resp.status == 200
    && IsJsonContentType(resp.contentType)
    && resp.body.Arr?
    && forall i :: 0 <= i < |resp.body.items| ==> resp.body.items[i].Obj?
  }

  /** `fetch_warnings` of the single-request adapters (landslide, flood,
      MetAlerts): the upstream list with each record tagged with the adapter's
      hazard; anything but a 200 JSON list of objects gives no warnings. */
  function FetchWarnings(a: Adapter, resp: Response): (r: seq<map<string, Json>>)
    requires !a.AvalancheAPI?
    ensures !Usable(resp) ==> r == []
    ensures resp.status != 200 ==> r == []
    ensures Usable(resp) ==> |r| == |resp.body.items|
    ensures forall i :: 0 <= i < |r| ==>
      WarningTypeKey in r[i] && r[i][WarningTypeKey] == Str(Tag(HazardOf(a)))
    ensures forall i, k :: 0 <= i < |r| && k != WarningTypeKey ==>
      (k in r[i] <==> k in resp.body.items[i].fields) &&
      (k in r[i] ==> r[i][k] == resp.body.items[i].fields[k])
  {
    if Usable(resp) then
      var xs := resp.body.items;
      seq(|xs|, i requires 0 <= i < |xs| => xs[i].fields[WarningTypeKey := Str(Tag(HazardOf(a)))])
    else []
  }

  /** The record the tests feed in passes through with its activity level
      and event, one record tagged "landslide", "flood" or "metalerts". */
  lemma FetchExample(a: Adapter, ct: string)
    requires !a.AvalancheAPI?
    requires IsJsonContentType(ct)
    ensures var rec := map["ActivityLevel" := Str("2"), "event" := Str("rain")];
      var r := FetchWarnings(a, Response(200, ct, Arr([Obj(rec)])));
      && |r| == 1
      && r[0][WarningTypeKey] == Str(Tag(HazardOf(a)))
      && r[0]["ActivityLevel"] == Str("2")
      && r[0]["event"] == Str("rain")
  {
  }

  /** An empty upstream list and a status 500 both give no warnings. */
  lemma FetchFailSoft(a: Adapter, ct: string, body: Json)
    requires !a.AvalancheAPI?
    ensures FetchWarnings(a, Response(200, ct, Arr([]))) == []
    ensures FetchWarnings(a, Response(500, ct, body)) == []
  {
  }

  // ---------------------------------------------------------------------
  // Timestamps in MetAlerts titles: the date-time production of RFC 3339,
  // section 5.6 (full-date "T" partial-time time-offset).

  predicate DigitAt(t: string, k: int)
  {
    0 <= k < |t| && IsDigit(t[k])
  }

  /** The end of a run of digits starting at `k`. */
  function DigitRunEnd(t: string, k: nat): (e: nat)
    requires k <= |t|
    ensures k <= e <= |t|
    ensures e < |t| ==> !IsDigit(t[e])
    ensures forall j :: k <= j < e ==> IsDigit(t[j])
    decreases |t| - k
  {
    if k < |t| && IsDigit(t[k]) then DigitRunEnd(t, k + 1) else k
  }

  /** Where the optional fraction of a second ("." and digits) ends. */
  function SecFracEnd(t: string, j: nat): (e: nat)
    requires j <= |t|
    ensures j <= e <= |t|
  {
    if j + 1 < |t| && t[j] == '.' && IsDigit(t[j + 1]) then DigitRunEnd(t, j + 1) else j
  }

  /** Where the time offset ("Z", or a sign and hours:minutes) ends. */
  function OffsetEnd(t: string, j: nat): (e: Option<nat>)
    ensures e.Some? ==> j < e.value <= |t|
  {
    if j < |t| && (t[j] == 'Z' || t[j] == 'z') then Some(j + 1)
    else if j + 6 <= |t| && (t[j] == '+' || t[j] == '-') && DigitAt(t, j + 1) && DigitAt(t, j + 2)
            && t[j + 3] == ':' && DigitAt(t, j + 4) && DigitAt(t, j + 5) then Some(j + 6)
    else None
  }

  /** full-date: YYYY-MM-DD at the start. */
  predicate FullDate(t: string)
  {
    && DigitAt(t, 0) && DigitAt(t, 1) && DigitAt(t, 2) && DigitAt(t, 3) && 4 < |t| && t[4] == '-'
    && DigitAt(t, 5) && DigitAt(t, 6) && 7 < |t| && t[7] == '-' && DigitAt(t, 8) && DigitAt(t, 9)
  }

  /** The HH:MM:SS of partial-time, after the "T" at position 10. */
  predicate WholeSeconds(t: string)
  {
    && DigitAt(t, 11) && DigitAt(t, 12) && 13 < |t| && t[13] == ':' && DigitAt(t, 14) && DigitAt(t, 15)
    && 16 < |t| && t[16] == ':' && DigitAt(t, 17) && DigitAt(t, 18)
  }

  /** The fixed-width part: YYYY-MM-DDTHH:MM:SS. */
  predicate DateAndTime(t: string)
  {
    |t| >= 19 && FullDate(t) && (t[10] == 'T' || t[10] == 't') && WholeSeconds(t)
  }

  /** The length of the date-time that `t` starts with, if it starts with one. */
  function DateTimeLen(t: string): (r: Option<nat>)
    ensures r.Some? ==> 20 <= r.value <= |t| && IsDigit(t[0])
  {
    if DateAndTime(t) then OffsetEnd(t, SecFracEnd(t, 19)) else None
  }

  /** A whole string that is one date-time. */
  predicate IsDateTime(t: string)
  {
    DateTimeLen(t) == Some(|t|)
  }

  /** What follows a complete date-time does not change where it ends. */
  lemma DateTimeLenPrefix(x: string, y: string)
    requires DateTimeLen(x).Some?
    ensures DateTimeLen(x + y) == DateTimeLen(x)
  {
    var t := x + y;
    assert forall k :: 0 <= k < |x| ==> t[k] == x[k];
    assert DateAndTime(t);
    var j := SecFracEnd(x, 19);
    assert OffsetEnd(x, j).Some?;
    if 20 < |x| && x[19] == '.' && IsDigit(x[20]) {
      DigitRunEndPrefix(x, y, 20);
    }
    assert SecFracEnd(t, 19) == j;
  }

  lemma {:induction false} DigitRunEndPrefix(x: string, y: string, k: nat)
    requires k <= |x|
    requires DigitRunEnd(x, k) < |x|
    ensures DigitRunEnd(x + y, k) == DigitRunEnd(x, k)
    decreases |x| - k
  {
    var t := x + y;
    assert t[k] == x[k];
    if IsDigit(x[k]) {
      DigitRunEndPrefix(x, y, k + 1);
    }
  }

  /** The first date-time that starts at or after `from`, as a span. */
  function FindDateTime(s: string, from: nat): (r: Option<(nat, nat)>)
    requires from <= |s|
    ensures r.Some? ==> from <= r.value.0 < r.value.1 <= |s|
    ensures r.Some? ==> DateTimeLen(s[r.value.0..]) == Some(r.value.1 - r.value.0)
    decreases |s| - from
  {
    var here := DateTimeLen(s[from..]);
    if here.Some? then Some((from, from + here.value))
    else if from == |s| then None
    else FindDateTime(s, from + 1)
  }

  /** The search finds the first date-time: none starts between `from` and
      the span found, and when nothing is found none starts anywhere after
      `from`. */
  lemma {:induction false} FindDateTimeIsFirst(s: string, from: nat)
    requires from <= |s|
    ensures var r := FindDateTime(s, from);
      (r.Some? ==> forall i :: from <= i < r.value.0 ==> DateTimeLen(s[i..]).None?) &&
      (r.None? ==> forall i :: from <= i <= |s| ==> DateTimeLen(s[i..]).None?)
    decreases |s| - from
  {
    if DateTimeLen(s[from..]).None? && from < |s| {
      FindDateTimeIsFirst(s, from + 1);
      assert FindDateTime(s, from) == FindDateTime(s, from + 1);
    }
  }

  /** The three results of `_extract_times_from_title`. */
  datatype TitleTimes = TitleTimes(cleanTitle: string, start: Option<string>, end: Option<string>)

  /** The start of a span widened over the ", " that separates it from the
      text before, when that separator lies at or after `low`. */
  function CutStart(s: string, low: nat, a: nat): (c: nat)
    requires low <= a <= |s|
    ensures low <= c <= a
  {
    if a >= low + 2 && s[a - 2..a] == ", " then a - 2 else a
  }

  /** `MetAlertsAPI._extract_times_from_title`: the first date-time in the title
      is the start of the warning, the next one its end; each is removed from
      the title together with the ", " before it. Without a date-time the
      title comes back as it is. */
  function ExtractTimesFromTitle(title: string): (r: TitleTimes)
    ensures FindDateTime(title, 0).None? ==> r == TitleTimes(title, None, None)
    ensures r.end.Some? ==> r.start.Some?
    ensures |r.cleanTitle| <= |title|
  {
    match FindDateTime(title, 0)
    case None => TitleTimes(title, None, None)
    case Some((a1, b1)) =>
      var c1 := CutStart(title, 0, a1);
      match FindDateTime(title, b1)
      case None =>
        TitleTimes(title[..c1] + title[b1..], Some(title[a1..b1]), None)
      case Some((a2, b2)) =>
        var c2 := CutStart(title, b1, a2);
        TitleTimes(title[..c1] + title[b1..c2] + title[b2..], Some(title[a1..b1]), Some(title[a2..b2]))
  }

  /** The times taken from a title are date-times that occur in it. */
  lemma ExtractedTimesOccur(title: string)
    ensures var r := ExtractTimesFromTitle(title);
      (r.start.Some? ==> IsDateTime(r.start.value) && Occurs(title, r.start.value)) &&
      (r.end.Some? ==> IsDateTime(r.end.value) && Occurs(title, r.end.value))
  {
    FoundIsDateTime(title, 0);
    var m1 := FindDateTime(title, 0);
    if m1.Some? {
      var (a1, b1) := m1.value;
      assert ExtractTimesFromTitle(title).start == Some(title[a1..b1]);
      FoundIsDateTime(title, b1);
      var m2 := FindDateTime(title, b1);
      if m2.Some? {
        var (a2, b2) := m2.value;
        assert ExtractTimesFromTitle(title).end == Some(title[a2..b2]);
      } else {
        assert ExtractTimesFromTitle(title).end.None?;
      }
    }
  }

  /** A span the search finds is a date-time that occurs in the text. */
  lemma FoundIsDateTime(s: string, from: nat)
    requires from <= |s|
    ensures var r := FindDateTime(s, from);
      r.Some? ==> IsDateTime(s[r.value.0..r.value.1]) && Occurs(s, s[r.value.0..r.value.1])
  {
    var r := FindDateTime(s, from);
    if r.Some? {
      SpanIsDateTime(s, r.value.0, r.value.1);
    }
  }

  lemma SpanIsDateTime(s: string, a: nat, b: nat)
    requires a < b <= |s|
    requires DateTimeLen(s[a..]) == Some(b - a)
    ensures IsDateTime(s[a..b]) && Occurs(s, s[a..b])
  {
    assert s[a..] == s[a..b] + s[b..];
    DateTimeLenPrefix(s[a..b], s[b..]);
    assert OccursAt(s, s[a..b], a);
  }

  /** A search that meets no date-time before `k` and one of length `n` at `k`
      finds exactly that one. */
  lemma {:induction false} FindDateTimeAt(s: string, from: nat, k: nat, n: nat)
    requires from <= k <= |s|
    requires forall i :: from <= i < k ==> DateTimeLen(s[i..]).None?
    requires DateTimeLen(s[k..]) == Some(n)
    ensures FindDateTime(s, from) == Some((k, k + n))
    decreases k - from
  {
    if from < k {
      FindDateTimeAt(s, from + 1, k, n);
    }
  }

  /** Text that does not start with a digit does not start with a date-time. */
  lemma NoDateTimeAtNonDigit(s: string, i: nat)
    requires i <= |s|
    requires i < |s| ==> !IsDigit(s[i])
    ensures DateTimeLen(s[i..]).None?
  {
    if i < |s| {
      assert s[i..][0] == s[i];
    }
  }

  /** When the two date-times of a title are each preceded by ", ", with
      nothing between the first and the second ", ", the result is the title
      without the two spans and their separators. */
  lemma ExtractAt(title: string, a1: nat, b1: nat, b2: nat)
    requires FindDateTime(title, 0) == Some((a1, b1))
    requires b1 <= |title|
    requires FindDateTime(title, b1) == Some((b1 + 2, b2))
    requires a1 >= 2 && title[a1 - 2..a1] == ", "
    requires title[b1..b1 + 2] == ", "
    ensures ExtractTimesFromTitle(title)
         == TitleTimes(title[..a1 - 2] + title[b2..], Some(title[a1..b1]), Some(title[b1 + 2..b2]))
  {
    assert CutStart(title, 0, a1) == a1 - 2;
    assert CutStart(title, b1, b1 + 2) == b1;
    assert title[..a1 - 2] + title[b1..b1] == title[..a1 - 2];
  }

  /** A search from the start of a text with no digit before position `a`
      and a date-time of length `n` at `a` finds that one. */
  lemma FindAfterNonDigits(title: string, a: nat, n: nat)
    requires a <= |title|
    requires forall i :: 0 <= i < a ==> !IsDigit(title[i])
    requires DateTimeLen(title[a..]) == Some(n)
    ensures FindDateTime(title, 0) == Some((a, a + n))
  {
    forall i | 0 <= i < a ensures DateTimeLen(title[i..]).None? {
      NoDateTimeAtNonDigit(title, i);
    }
    FindDateTimeAt(title, 0, a, n);
  }

  /** A search that starts on ", " followed by a date-time finds that one. */
  lemma FindAfterSeparator(title: string, from: nat, n: nat)
    requires from + 2 <= |title| && title[from..from + 2] == ", "
    requires DateTimeLen(title[from + 2..]) == Some(n)
    ensures FindDateTime(title, from) == Some((from + 2, from + 2 + n))
  {
    assert title[from] == ',' && title[from + 1] == ' ';
    NoDateTimeAtNonDigit(title, from);
    NoDateTimeAtNonDigit(title, from + 1);
    FindDateTimeAt(title, from, from + 2, n);
  }

  /** Where the pieces of "<heading>, <start>, <end>, <rest>" lie: `start`
      begins at `a1` and the ", " before `end` at `b1`. */
  lemma ShapeLayout(title: string, heading: string, start: string, end: string, rest: string, a1: nat, b1: nat)
    requires title == heading + ", " + start + ", " + end + ", " + rest
    requires NoDigits(heading)
    requires a1 == |heading| + 2 && b1 == a1 + |start|
    ensures a1 <= |title| && b1 + 2 + |end| <= |title|
    ensures forall i :: 0 <= i < a1 ==> !IsDigit(title[i])
    ensures title[a1..] == start + (", " + end + ", " + rest)
    ensures title[b1..b1 + 2] == ", " && title[b1 + 2..] == end + ", " + rest
    ensures title[a1 - 2..a1] == ", "
    ensures title[a1..b1] == start
    ensures title[b1 + 2..b1 + 2 + |end|] == end
    ensures title[..a1 - 2] + title[b1 + 2 + |end|..] == heading + ", " + rest
  {
    forall i | 0 <= i < a1 ensures !IsDigit(title[i]) {
      if i < |heading| {
        assert title[i] == heading[i];
      } else {
        assert title[i] == ", "[i - |heading|];
      }
    }
    assert title[..a1 - 2] == heading;
    assert title[b1 + 2 + |end|..] == ", " + rest;
  }

  /** A date-time right after ", " is what a search from the ", " finds. */
  lemma FindSeparatedDateTime(title: string, from: nat, dt: string, tail: string)
    requires from + 2 <= |title| && title[from..from + 2] == ", "
    requires title[from + 2..] == dt + tail
    requires IsDateTime(dt)
    ensures FindDateTime(title, from) == Some((from + 2, from + 2 + |dt|))
  {
    DateTimeLenPrefix(dt, tail);
    FindAfterSeparator(title, from, |dt|);
  }

  /** A date-time after digit-free text is what a search from the start finds. */
  lemma FindLeadingDateTime(title: string, a: nat, dt: string, tail: string)
    requires a <= |title|
    requires forall i :: 0 <= i < a ==> !IsDigit(title[i])
    requires title[a..] == dt + tail
    requires IsDateTime(dt)
    ensures FindDateTime(title, 0) == Some((a, a + |dt|))
  {
    DateTimeLenPrefix(dt, tail);
    FindAfterNonDigits(title, a, |dt|);
  }

  /** The two searches of a title laid out as "<digit-free text><date-time>,
      <date-time><tail>" find the two date-times. */
  lemma FindBothAt(title: string, a1: nat, start: string, b1: nat, end: string, tail: string)
    requires a1 <= |title| && b1 + 2 <= |title|
    requires forall i :: 0 <= i < a1 ==> !IsDigit(title[i])
    requires title[a1..] == start + (", " + end + tail)
    requires title[b1..b1 + 2] == ", " && title[b1 + 2..] == end + tail
    requires b1 == a1 + |start|
    requires IsDateTime(start) && IsDateTime(end)
    ensures FindDateTime(title, 0) == Some((a1, b1))
    ensures FindDateTime(title, b1) == Some((b1 + 2, b1 + 2 + |end|))
  {
    FindSeparatedDateTime(title, b1, end, tail);
    FindLeadingDateTime(title, a1, start, ", " + end + tail);
  }

  /** The extraction from a title whose date-times lie at `a1` and after the
      ", " at `b1`, with only digit-free text before the first. */
  lemma ExtractFromLayout(title: string, a1: nat, start: string, b1: nat, end: string, tail: string)
    requires a1 >= 2 && a1 <= |title| && b1 + 2 + |end| <= |title|
    requires forall i :: 0 <= i < a1 ==> !IsDigit(title[i])
    requires title[a1..] == start + (", " + end + tail)
    requires title[b1..b1 + 2] == ", " && title[b1 + 2..] == end + tail
    requires title[a1 - 2..a1] == ", "
    requires b1 == a1 + |start|
    requires IsDateTime(start) && IsDateTime(end)
    requires title[a1..b1] == start && title[b1 + 2..b1 + 2 + |end|] == end
    ensures ExtractTimesFromTitle(title)
         == TitleTimes(title[..a1 - 2] + title[b1 + 2 + |end|..], Some(start), Some(end))
  {
    FindBothAt(title, a1, start, b1, end, tail);
    ExtractAt(title, a1, b1, b1 + 2 + |end|);
  }

  /** A title shaped "<heading>, <start>, <end>, <rest>", whose heading has no
      digits, gives the two date-times in order and the title "<heading>, <rest>". */
  lemma ExtractFromShapedTitle(title: string, heading: string, start: string, end: string, rest: string)
    requires title == heading + ", " + start + ", " + end + ", " + rest
    requires NoDigits(heading)
    requires IsDateTime(start) && IsDateTime(end)
    ensures ExtractTimesFromTitle(title) == TitleTimes(heading + ", " + rest, Some(start), Some(end))
  {
    var a1 := |heading| + 2;
    var b1 := a1 + |start|;
    ShapeLayout(title, heading, start, end, rest, a1, b1);
    ExtractFromLayout(title, a1, start, b1, end, ", " + rest);
  }

  lemma TestStartIsDateTime()
    ensures IsDateTime("2024-01-01T12:00:00+01:00")
  {
    var t := "2024-01-01T12:00:00+01:00";
    TestStartDate();
    TestStartSeconds();
    assert SecFracEnd(t, 19) == 19;
    assert OffsetEnd(t, 19) == Some(25);
  }

  lemma TestStartDate()
    ensures FullDate("2024-01-01T12:00:00+01:00")
  {
  }

  lemma TestStartSeconds()
    ensures WholeSeconds("2024-01-01T12:00:00+01:00")
  {
  }

  lemma TestEndIsDateTime()
    ensures IsDateTime("2024-01-02T00:00:00+01:00")
  {
    var t := "2024-01-02T00:00:00+01:00";
    TestEndDate();
    TestEndSeconds();
    assert SecFracEnd(t, 19) == 19;
    assert OffsetEnd(t, 19) == Some(25);
  }

  lemma TestEndDate()
    ensures FullDate("2024-01-02T00:00:00+01:00")
  {
  }

  lemma TestEndSeconds()
    ensures WholeSeconds("2024-01-02T00:00:00+01:00")
  {
  }

  /** The test title is "<heading>, <start>, <end>, <rest>". */
  lemma TestTitleShape(title: string)
    requires title == "Orange level, " + "2024-01-01T12:00:00+01:00" + ", "
                      + "2024-01-02T00:00:00+01:00" + ", Vestland"
    ensures title == "Orange level" + ", " + "2024-01-01T12:00:00+01:00" + ", "
                     + "2024-01-02T00:00:00+01:00" + ", " + "Vestland"
    ensures "Orange level" + ", " + "Vestland" == "Orange level, Vestland"
    ensures NoDigits("Orange level")
  {
    assert "Orange level" + ", " == "Orange level, ";
    assert ", " + "Vestland" == ", Vestland";
  }

  /** The title of the MetAlerts test: start and end are the two timestamps,
      and the cleaned title is what remains around them. */
  lemma ExtractTestTitle(title: string)
    requires title == "Orange level, " + "2024-01-01T12:00:00+01:00" + ", "
                      + "2024-01-02T00:00:00+01:00" + ", Vestland"
    ensures ExtractTimesFromTitle(title).start == Some("2024-01-01T12:00:00+01:00")
    ensures ExtractTimesFromTitle(title).end == Some("2024-01-02T00:00:00+01:00")
    ensures ExtractTimesFromTitle(title).cleanTitle == "Orange level, Vestland"
  {
    TestStartIsDateTime();
    TestEndIsDateTime();
    TestTitleShape(title);
    ExtractFromShapedTitle(title, "Orange level", "2024-01-01T12:00:00+01:00",
                           "2024-01-02T00:00:00+01:00", "Vestland");
  }

  /** The cleaned test title keeps "Orange level" and "Vestland" and contains
      neither timestamp. */
  lemma TestCleanTitleContents(title: string)
    requires title == "Orange level, " + "2024-01-01T12:00:00+01:00" + ", "
                      + "2024-01-02T00:00:00+01:00" + ", Vestland"
    ensures Occurs(ExtractTimesFromTitle(title).cleanTitle, "Orange level")
    ensures Occurs(ExtractTimesFromTitle(title).cleanTitle, "Vestland")
    ensures !Occurs(ExtractTimesFromTitle(title).cleanTitle, "2024-01-01T12:00:00+01:00")
    ensures !Occurs(ExtractTimesFromTitle(title).cleanTitle, "2024-01-02T00:00:00+01:00")
  {
    ExtractTestTitle(title);
    CleanTextContents(ExtractTimesFromTitle(title).cleanTitle);
  }

  lemma CleanTextContents(clean: string)
    requires clean == "Orange level, Vestland"
    ensures Occurs(clean, "Orange level") && Occurs(clean, "Vestland")
    ensures !Occurs(clean, "2024-01-01T12:00:00+01:00") && !Occurs(clean, "2024-01-02T00:00:00+01:00")
  {
    assert OccursAt(clean, "Orange level", 0);
    assert OccursAt(clean, "Vestland", 14);
    assert NoDigits(clean);
    NoDigitsExcludes(clean, "2024-01-01T12:00:00+01:00");
    NoDigitsExcludes(clean, "2024-01-02T00:00:00+01:00");
  }
}
