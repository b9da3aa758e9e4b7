/**
 * The holiday lookup: a process-wide cache from calendar year to the set of
 * holiday dates of that year, filled on a miss from the public holiday
 * service and never evicted. The HTTP request and its JSON decoding are
 * outside the model: the decoded response is an input, `None` when the
 * request or the decoding rejected.
 */
module DateController {
  import opened Wrappers
  import opened Strings
  import opened JsValues

  /** The `date` fields read from a response; a JavaScript Set keyed by value. */
  type HolidaySet = set<JsValue>

  /** Why `fetchHolidays` rejects. `NotAnArray` carries the year its message names. */
  datatype FetchError = RequestFailed | NotAnArray(year: int) | ReadFailed(error: JsError)

  /** `date.toISOString().split("T")[0]`: the calendar-date part of an ISO timestamp. */
  function DatePrefix(iso: string): (d: string)
    ensures d <= iso
    ensures 'T' !in d
    ensures |d| == |iso| || iso[|d|] == 'T'
  {
    SplitFirst(iso, 'T');
    Split(iso, 'T')[0]
  }

  /** `holiday.date` for one element of the response. */
  function DateOf(holiday: JsValue): Result<JsValue, JsError>
  {
    Property(holiday, "date")
  }

  /**
   * `new Set(holidays.map(holiday => holiday.date))`: fails when an element is
   * `null` or `undefined`, otherwise yields exactly the `date` fields.
   */
  function ProjectDates(holidays: seq<JsValue>): (r: Result<HolidaySet, JsError>)
    ensures r.Failure? <==> exists i :: 0 <= i < |holidays| && Nullish(holidays[i])
    ensures r.Success? ==>
      forall d :: d in r.value <==> exists i :: 0 <= i < |holidays| && DateOf(holidays[i]) == Success(d)
    decreases |holidays|
  {
    if |holidays| == 0 then Success({})
    else
      match DateOf(holidays[0])
      case Failure(e) => Failure(e)
      case Success(d) =>
        match ProjectDates(holidays[1..])
        case Failure(e) => Failure(e)
        case Success(rest) => Success({d} + rest)
  }

  /** `fetchHolidays(year)` given the decoded response of the holiday service. */
  function FetchHolidays(year: int, response: Option<JsValue>): (r: Result<HolidaySet, FetchError>)
    ensures response.None? ==> r == Failure(RequestFailed)
    ensures response.Some? && !response.value.Arr? ==> r == Failure(NotAnArray(year))
    ensures r.Success? <==>
      response.Some? && response.value.Arr? &&
      forall i :: 0 <= i < |response.value.items| ==> !Nullish(response.value.items[i])
  {
    match response
    case None => Failure(RequestFailed)
    case Some(json) =>
      if !json.Arr? then Failure(NotAnArray(year))
      else
        match ProjectDates(json.items)
        case Failure(e) => Failure(ReadFailed(e))
        case Success(dates) => Success(dates)
  }

  /**
   * A date string is in the fetched set exactly when some element of the
   * response is an object whose `date` property is that string.
   */
  lemma FetchedDates(year: int, holidays: seq<JsValue>, date: string)
    requires FetchHolidays(year, Some(Arr(holidays))).Success?
    ensures Str(date) in FetchHolidays(year, Some(Arr(holidays))).value <==>
      exists i :: 0 <= i < |holidays| && holidays[i].Obj? && Get(holidays[i].props, "date") == Str(date)
  {
    var dates := FetchHolidays(year, Some(Arr(holidays))).value;
    if Str(date) in dates {
      var i :| 0 <= i < |holidays| && DateOf(holidays[i]) == Success(Str(date));
      assert holidays[i].Obj?;
    }
  }

  /** The fetched set ignores the order of the response and its repeated elements. */
  lemma FetchIgnoresOrderAndRepeats(year: int, a: seq<JsValue>, b: seq<JsValue>)
    requires forall h :: h in a <==> h in b
    ensures FetchHolidays(year, Some(Arr(a))) == FetchHolidays(year, Some(Arr(b)))
  {
    var ra, rb := ProjectDates(a), ProjectDates(b);
    if exists i :: 0 <= i < |a| && Nullish(a[i]) {
      var i :| 0 <= i < |a| && Nullish(a[i]);
      assert a[i] in b;
    }
    if exists i :: 0 <= i < |b| && Nullish(b[i]) {
      var i :| 0 <= i < |b| && Nullish(b[i]);
      assert b[i] in a;
    }
    if ra.Failure? {
      assert rb.Failure? && ra.error == rb.error == TypeError;
    } else {
      forall d
        ensures d in ra.value <==> d in rb.value
      {
        if d in ra.value {
          var i :| 0 <= i < |a| && DateOf(a[i]) == Success(d);
          assert a[i] in b;
        }
        if d in rb.value {
          var i :| 0 <= i < |b| && DateOf(b[i]) == Success(d);
          assert b[i] in a;
        }
      }
      assert ra.value == rb.value;
    }
  }

  /** The cache only grows: every year it held is still there with the same dates. */
  predicate Extends(before: map<int, HolidaySet>, after: map<int, HolidaySet>)
  {
    before.Keys <= after.Keys && forall y :: y in before ==> after[y] == before[y]
  }

  /** What one `isHoliday` call yields: its answer, the cache afterwards, and whether it fetched. */
  datatype Outcome = Outcome(answer: Result<bool, FetchError>, cache: map<int, HolidaySet>, fetched: bool)

  /**
   * One `isHoliday` call for the date whose local year is `year` and whose ISO
   * text is `iso`, with `response` the holiday service's answer were it asked.
   */
  function Lookup(cache: map<int, HolidaySet>, year: int, iso: string, response: Option<JsValue>): (o: Outcome)
    ensures o.fetched <==> year !in cache
    ensures Extends(cache, o.cache)
    ensures o.cache.Keys <= cache.Keys + {year}
    ensures o.answer.Success? <==> year in o.cache
    ensures o.answer.Success? ==> o.answer.value == (Str(DatePrefix(iso)) in o.cache[year])
    ensures o.answer.Failure? ==>
      o.cache == cache && FetchHolidays(year, response) == Failure(o.answer.error)
    ensures year !in cache && o.answer.Success? ==> FetchHolidays(year, response) == Success(o.cache[year])
  {
    var dateStr := DatePrefix(iso);
    if year in cache then Outcome(Success(Str(dateStr) in cache[year]), cache, false)
    else
      match FetchHolidays(year, response)
      case Failure(e) => Outcome(Failure(e), cache, true)
      case Success(holidays) => Outcome(Success(Str(dateStr) in holidays), cache[year := holidays], true)
  }

  /** A failed lookup caches nothing, so the next lookup for that year fetches again. */
  lemma FailedLookupRetries(cache: map<int, HolidaySet>, year: int, iso: string, response: Option<JsValue>,
                            iso': string, response': Option<JsValue>)
    requires Lookup(cache, year, iso, response).answer.Failure?
    ensures Lookup(Lookup(cache, year, iso, response).cache, year, iso', response').fetched
  {
  }

  /** One `isHoliday` call of a sequence of calls. */
  datatype Request = Request(year: int, iso: string, response: Option<JsValue>)

  /** Runs `requests` in order from `cache`; yields the final cache and the years fetched, in order. */
  function Run(cache: map<int, HolidaySet>, requests: seq<Request>): (map<int, HolidaySet>, seq<int>)
    decreases |requests|
  {
    if |requests| == 0 then (cache, [])
    else
      var r := requests[0];
      var o := Lookup(cache, r.year, r.iso, r.response);
      var (final, years) := Run(o.cache, requests[1..]);
      (final, (if o.fetched then [r.year] else []) + years)
  }

  /** However many calls run, cached years stay cached with the same dates. */
  lemma {:induction false} RunExtends(cache: map<int, HolidaySet>, requests: seq<Request>)
    ensures Extends(cache, Run(cache, requests).0)
    decreases |requests|
  {
    if |requests| > 0 {
      var r := requests[0];
      var o := Lookup(cache, r.year, r.iso, r.response);
      RunExtends(o.cache, requests[1..]);
    }
  }

  /** A year already cached is never fetched again, whatever calls follow. */
  lemma {:induction false} RunNeverRefetches(cache: map<int, HolidaySet>, requests: seq<Request>, year: int)
    requires year in cache
    ensures year !in Run(cache, requests).1
    decreases |requests|
  {
    if |requests| > 0 {
      var r := requests[0];
      var o := Lookup(cache, r.year, r.iso, r.response);
      RunNeverRefetches(o.cache, requests[1..], year);
    }
  }

  /** After one successful lookup for a year, that year is fetched at most once in the whole run, by that lookup. */
  lemma SuccessfulLookupIsMemoised(cache: map<int, HolidaySet>, first: Request, later: seq<Request>)
    requires Lookup(cache, first.year, first.iso, first.response).answer.Success?
    ensures multiset(Run(cache, [first] + later).1)[first.year] == if first.year in cache then 0 else 1
  {
    var o := Lookup(cache, first.year, first.iso, first.response);
    assert ([first] + later)[1..] == later;
    RunNeverRefetches(o.cache, later, first.year);
    var rest := Run(o.cache, later).1;
    assert multiset(rest)[first.year] == 0;
    assert Run(cache, [first] + later).1 == (if o.fetched then [first.year] else []) + rest;
  }

  /**
   * From an empty cache, two calls for the same year with a well-formed first
   * response fetch exactly once.
   */
  lemma SameYearFetchedOnce(year: int, iso: string, holidays: seq<JsValue>, iso': string, response': Option<JsValue>)
    requires forall i :: 0 <= i < |holidays| ==> !Nullish(holidays[i])
    ensures Run(map[], [Request(year, iso, Some(Arr(holidays))), Request(year, iso', response')]).1 == [year]
  {
    var requests := [Request(year, iso, Some(Arr(holidays))), Request(year, iso', response')];
    var o := Lookup(map[], year, iso, Some(Arr(holidays)));
    assert requests[1..] == [Request(year, iso', response')];
    assert Run(o.cache, requests[1..]).1 == [];
  }

  /** The module-level `feriados` map and the `isHoliday` operation over it. */
  class HolidayCache {
    var feriados: map<int, HolidaySet>

    constructor ()
      ensures feriados == map[]
    {
      feriados := map[];
    }

    /**
     * isHoliday: answers from the cache when the year is there; otherwise
     * fetches, caches the year's dates on success and answers from them.
     */
    method IsHoliday(year: int, iso: string, response: Option<JsValue>) returns (answer: Result<bool, FetchError>, fetched: bool)
      modifies this
      ensures Outcome(answer, feriados, fetched) == Lookup(old(feriados), year, iso, response)
      ensures Extends(old(feriados), feriados)
    {
      var dateStr := DatePrefix(iso);
      fetched := false;
      var holidays: HolidaySet;
      if year in feriados {
        holidays := feriados[year];
      } else {
        fetched := true;
        var result := FetchHolidays(year, response);
        if result.Failure? {
          answer := Failure(result.error);
          return;
        }
        holidays := result.value;
        feriados := feriados[year := holidays];
      }
      answer := Success(Str(dateStr) in holidays);
    }
  }
}
