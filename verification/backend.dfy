/**
 * The server's in-memory store, class UrlModel
 * (BackendTestSubmission/BackendTestSubmission/models/UrlModel.js): two maps
 * keyed by shortcode, `urls` with one record per short URL and `analytics`
 * with its click history. Dates are integer milliseconds from an injected
 * clock `now`; `new URL(...)` is an injected predicate `validUrl`; nanoid is an
 * injected stream `gen` of the codes successive calls would return.
 */
module Backend {
  import opened Wrappers
  import opened Shortcode

  datatype Error =
    | InvalidUrl
    | InvalidShortcodeFormat
    | ShortcodeTaken
    | NotFound
      /** The expiry falls outside the range of a Date, so rendering it as an ISO string throws. */
    | InvalidDate

  datatype UrlData = UrlData(
    shortcode: string,
    originalUrl: string,
    createdAt: int,
    expiresAt: int,
    validityMinutes: int,
    isActive: bool)

  /** What geoip reports for the client's address. */
  datatype GeoLocation = GeoLocation(country: string, region: string, city: string, timezone: string)

  /** The clickData the redirect route hands to recordClick. */
  datatype ClickData = ClickData(ip: string, userAgent: string, referer: string, location: Option<GeoLocation>)

  /** One stored click: the clickData with its timestamp in front. */
  datatype Click = Click(timestamp: int, data: ClickData)

  datatype Analytics = Analytics(totalClicks: int, clicks: seq<Click>)

  /** What createUrl returns. */
  datatype Created = Created(shortcode: string, originalUrl: string, createdAt: int, expiresAt: int)

  /** What getAnalytics returns. */
  datatype Report = Report(
    shortcode: string,
    originalUrl: string,
    createdAt: int,
    expiresAt: int,
    totalClicks: int,
    isActive: bool,
    clicks: seq<Click>)

  /** The create route accepts validities of 1 to 525600 minutes (one year). */
  const MaxValidityMinutes: int := 525600

  /** createUrl's validity defaults to 30 minutes only when the argument is left out altogether. */
  function ValidityOrDefault(validity: Option<int>): (v: int)
    ensures validity.Some? ==> v == validity.value
    ensures validity.None? ==> v == DefaultValidityMinutes
  {
    if validity.Some? then validity.value else DefaultValidityMinutes
  }

  /** getUrl treats a record as expired once the current time is strictly past its expiry. */
  predicate Expired(d: UrlData, now: int): (r: bool)
    ensures r <==> d.expiresAt < now
    ensures !r <==> now <= d.expiresAt
  {
    now > d.expiresAt
  }

  /** The codes cleanupExpiredUrls removes: those whose expiry lies before the current time. */
  function ExpiredCodes(m: map<string, UrlData>, now: int): (e: set<string>)
    ensures e <= m.Keys
    ensures forall c :: c in e <==> c in m && Expired(m[c], now)
  {
    set c | c in m && m[c].expiresAt < now
  }

  /** Removing the expired codes leaves exactly the live ones, and the sizes add up. */
  lemma SweepPartition<V>(m: map<string, V>, e: set<string>)
    requires e <= m.Keys
    ensures (m - e).Keys == m.Keys - e
    ensures |m - e| + |e| == |m|
  {
  }

  /** The codes a sweep has removed when only `pending` is left to visit. */
  ghost function Swept(m: map<string, UrlData>, pending: set<string>, now: int): (swept: set<string>) {
    set c | c in m && c !in pending && m[c].expiresAt < now
  }

  /** Visiting one more pending code adds it to the swept codes exactly when it has expired. */
  lemma SweptStep(m: map<string, UrlData>, pending: set<string>, now: int, c: string)
    requires c in pending
    ensures c !in Swept(m, pending, now)
    ensures Swept(m, pending - {c}, now) ==
            Swept(m, pending, now) + (if c in m && m[c].expiresAt < now then {c} else {})
  {
  }

  lemma SubtractStep<V>(m: map<string, V>, removed: set<string>, c: string)
    ensures (m - removed) - {c} == m - (removed + {c})
  {
  }

  /** A record as createUrl builds it: keyed by its own code, expiring validityMinutes after creation. */
  ghost predicate WellFormedRecord(c: string, d: UrlData) {
    && d.shortcode == c
    && d.expiresAt == d.createdAt + d.validityMinutes * MillisPerMinute
  }

  /**
   * A record created with a validity the route accepts resolves at every
   * instant from its creation to its expiry, and no sweep in that window
   * removes it.
   */
  lemma LiveUntilExpiry(d: UrlData, m: map<string, UrlData>, now: int)
    requires WellFormedRecord(d.shortcode, d)
    requires 1 <= d.validityMinutes
    requires d.shortcode in m && m[d.shortcode] == d
    requires d.createdAt <= now <= d.createdAt + d.validityMinutes * MillisPerMinute
    ensures !Expired(d, now)
    ensures d.shortcode !in ExpiredCodes(m, now)
    ensures d.createdAt < d.expiresAt
  {
  }

  /**
   * A validity the route accepts keeps the expiry inside the range of a
   * Date whenever the clock is at least a year away from the range's end,
   * so createUrl behind the route never fails with InvalidDate.
   */
  lemma RouteValidityFitsDate(now: int, validity: int)
    requires 1 <= validity <= MaxValidityMinutes
    requires InDateRange(now) && now + MaxValidityMinutes * MillisPerMinute <= MaxTimeMillis
    ensures InDateRange(now + ValidityOrDefault(Some(validity)) * MillisPerMinute)
    ensures now < now + validity * MillisPerMinute
  {
  }

  /**
   * The two maps have the same keys, every record is keyed by its own code
   * and expires validityMinutes after creation, and every click count is
   * the length of its click list.
   */
  ghost predicate Consistent(urls: map<string, UrlData>, analytics: map<string, Analytics>) {
    && urls.Keys == analytics.Keys
    && (forall c :: c in urls ==> WellFormedRecord(c, urls[c]))
    && (forall c :: c in analytics ==> analytics[c].totalClicks == |analytics[c].clicks|)
  }

  /** Removing the same codes from both maps keeps them consistent. */
  lemma RemoveKeepsConsistent(urls: map<string, UrlData>, analytics: map<string, Analytics>, e: set<string>)
    requires Consistent(urls, analytics)
    ensures Consistent(urls - e, analytics - e)
  {
  }

  /** Adding a well-formed record with an empty click history keeps the maps consistent. */
  lemma InsertKeepsConsistent(urls: map<string, UrlData>, analytics: map<string, Analytics>, d: UrlData)
    requires Consistent(urls, analytics) && WellFormedRecord(d.shortcode, d)
    ensures Consistent(urls[d.shortcode := d], analytics[d.shortcode := Analytics(0, [])])
  {
  }

  class UrlModel {
    var urls: map<string, UrlData>
    var analytics: map<string, Analytics>

    /** The store's invariant: its two maps are consistent. */
    ghost predicate Valid()
      reads this
    {
      Consistent(urls, analytics)
    }

    constructor ()
      ensures Valid()
      ensures urls == map[] && analytics == map[]
    {
      urls := map[];
      analytics := map[];
    }

    /**
     * createUrl: reject a bad URL, then a malformed custom code, then a taken
     * one; without a truthy custom code, draw codes until one is free. Insert
     * the record and an empty click history under the chosen code.
     */
    method CreateUrl(originalUrl: string, validityMinutes: Option<int>, customShortcode: Option<string>,
                     validUrl: string -> bool, gen: nat -> string, now: int)
      returns (r: Result<Created, Error>)
      requires Valid()
      requires validUrl(originalUrl) && !IsCustom(customShortcode) ==> exists k: nat :: gen(k) !in urls
      modifies this`urls, this`analytics
      ensures Valid()
      ensures !validUrl(originalUrl) ==> r == Err(InvalidUrl)
      ensures validUrl(originalUrl) && IsCustom(customShortcode) && !IsValidShortcode(customShortcode.value) ==>
                r == Err(InvalidShortcodeFormat)
      ensures (validUrl(originalUrl) && IsCustom(customShortcode) && IsValidShortcode(customShortcode.value)
               && customShortcode.value in old(urls)) ==> r == Err(ShortcodeTaken)
      ensures (validUrl(originalUrl) && (IsCustom(customShortcode) ==>
                 IsValidShortcode(customShortcode.value) && customShortcode.value !in old(urls))) ==>
                if InDateRange(now + ValidityOrDefault(validityMinutes) * MillisPerMinute) then r.Ok?
                else r == Err(InvalidDate)
      ensures r.Err? ==> urls == old(urls) && analytics == old(analytics)
      ensures r.Ok? ==>
        var c := r.value.shortcode;
        var v := ValidityOrDefault(validityMinutes);
        && c !in old(urls)
        && (IsCustom(customShortcode) ==> c == customShortcode.value)
        && (!IsCustom(customShortcode) ==>
              exists k: nat :: c == gen(k) && forall k': nat :: k' < k ==> gen(k') in old(urls))
        && urls == old(urls)[c := UrlData(c, originalUrl, now, now + v * MillisPerMinute, v, true)]
        && analytics == old(analytics)[c := Analytics(0, [])]
        && InDateRange(now + v * MillisPerMinute)
        && r.value == Created(c, originalUrl, now, now + v * MillisPerMinute)
    {
      if !validUrl(originalUrl) {
        return Err(InvalidUrl);
      }
      var shortcode: string;
      if IsCustom(customShortcode) {
        shortcode := customShortcode.value;
        if !IsValidShortcode(shortcode) {
          return Err(InvalidShortcodeFormat);
        }
        if shortcode in urls {
          return Err(ShortcodeTaken);
        }
      } else {
        // Draw at least once, and draw again for as long as the code is taken.
        ghost var free: nat :| gen(free) !in urls;
        var k: nat := 0;
        shortcode := gen(0);
        while shortcode in urls
          invariant k <= free
          invariant shortcode == gen(k)
          invariant forall k': nat :: k' < k ==> gen(k') in urls
          decreases free - k
        {
          k := k + 1;
          shortcode := gen(k);
        }
      }
      var v := ValidityOrDefault(validityMinutes);
      var expiresAt := now + v * MillisPerMinute;
      if !InDateRange(expiresAt) {
        return Err(InvalidDate);
      }
      var urlData := UrlData(shortcode, originalUrl, now, expiresAt, v, true);
      InsertKeepsConsistent(urls, analytics, urlData);
      urls := urls[shortcode := urlData];
      analytics := analytics[shortcode := Analytics(0, [])];
      r := Ok(Created(shortcode, originalUrl, now, expiresAt));
    }

    /**
     * getUrl: an unknown code resolves to nothing; an expired record resolves
     * to nothing and is marked inactive on the way; any other record resolves
     * as stored.
     */
    method GetUrl(shortcode: string, now: int) returns (r: Option<UrlData>)
      requires Valid()
      modifies this`urls
      ensures Valid()
      ensures shortcode !in old(urls) ==> r == None && urls == old(urls)
      ensures shortcode in old(urls) && Expired(old(urls)[shortcode], now) ==>
                r == None && urls == old(urls)[shortcode := old(urls)[shortcode].(isActive := false)]
      ensures shortcode in old(urls) && !Expired(old(urls)[shortcode], now) ==>
                r == Some(old(urls)[shortcode]) && urls == old(urls)
    {
      if shortcode !in urls {
        return None;
      }
      var urlData := urls[shortcode];
      if now > urlData.expiresAt {
        urls := urls[shortcode := urlData.(isActive := false)];
        return None;
      }
      r := Some(urlData);
    }

    /**
     * recordClick: on a known code, count one more click and append it,
     * stamped with the current time; on an unknown code, do nothing.
     */
    method RecordClick(shortcode: string, clickData: ClickData, now: int)
      requires Valid()
      modifies this`analytics
      ensures Valid()
      ensures shortcode !in old(analytics) ==> analytics == old(analytics)
      ensures shortcode in old(analytics) ==>
                var a := old(analytics)[shortcode];
                analytics == old(analytics)[shortcode := Analytics(a.totalClicks + 1, a.clicks + [Click(now, clickData)])]
    {
      if shortcode in analytics {
        var a := analytics[shortcode];
        analytics := analytics[shortcode := Analytics(a.totalClicks + 1, a.clicks + [Click(now, clickData)])];
      }
    }

    /**
     * getAnalytics: nothing unless the code is in both maps; otherwise the
     * record's fields with the stored isActive flag, which is not re-derived
     * from the clock, and the click count and list of its history.
     */
    function GetAnalytics(shortcode: string): (r: Option<Report>)
      reads this
      ensures r.None? <==> shortcode !in urls || shortcode !in analytics
      ensures r.Some? ==>
        && shortcode in urls && shortcode in analytics
        && r.value.shortcode == shortcode
        && r.value.originalUrl == urls[shortcode].originalUrl
        && r.value.createdAt == urls[shortcode].createdAt
        && r.value.expiresAt == urls[shortcode].expiresAt
        && r.value.isActive == urls[shortcode].isActive
        && r.value.totalClicks == analytics[shortcode].totalClicks
        && r.value.clicks == analytics[shortcode].clicks
    {
      if shortcode !in urls || shortcode !in analytics then None
      else
        var d := urls[shortcode];
        var a := analytics[shortcode];
        Some(Report(shortcode, d.originalUrl, d.createdAt, d.expiresAt, a.totalClicks, d.isActive, a.clicks))
    }

    /**
     * cleanupExpiredUrls: visit every entry once, removing from both maps
     * each code whose record expired before `now`, and count the removals.
     */
    method CleanupExpiredUrls(now: int) returns (cleaned: int)
      requires Valid()
      modifies this`urls, this`analytics
      ensures Valid()
      ensures urls == old(urls) - ExpiredCodes(old(urls), now)
      ensures analytics == old(analytics) - ExpiredCodes(old(urls), now)
      ensures cleaned == |ExpiredCodes(old(urls), now)|
      ensures |urls| + cleaned == |old(urls)|
    {
      cleaned := 0;
      var stored, counts := urls, analytics;
      var live, history := stored, counts;
      var pending := stored.Keys;
      ghost var removed: set<string> := {};
      while pending != {}
        invariant pending <= stored.Keys
        invariant removed == Swept(stored, pending, now)
        invariant live == stored - removed
        invariant history == counts - removed
        invariant cleaned == |removed|
        decreases pending
      {
        var c :| c in pending;
        SweptStep(stored, pending, now, c);
        if live[c].expiresAt < now {
          SubtractStep(stored, removed, c);
          SubtractStep(counts, removed, c);
          live := live - {c};
          history := history - {c};
          cleaned := cleaned + 1;
          removed := removed + {c};
        }
        pending := pending - {c};
      }
      assert removed == ExpiredCodes(stored, now);
      SweepPartition(stored, removed);
      RemoveKeepsConsistent(stored, counts, removed);
      urls, analytics := live, history;
    }

    /**
     * The redirect route over this store: reject a malformed code; resolve it
     * with getUrl; answer "not found" when nothing resolves or the record is
     * inactive; otherwise record one click, whose referer falls back to
     * 'Direct', and answer with the original URL.
     */
    method Redirect(shortcode: string, now: int, ip: string, userAgent: string, referer: string,
                    location: Option<GeoLocation>)
      returns (r: Result<string, Error>)
      requires Valid()
      modifies this`urls, this`analytics
      ensures Valid()
      ensures !IsValidShortcode(shortcode) ==>
                r == Err(InvalidShortcodeFormat) && urls == old(urls) && analytics == old(analytics)
      ensures IsValidShortcode(shortcode) && shortcode !in old(urls) ==>
                r == Err(NotFound) && urls == old(urls) && analytics == old(analytics)
      ensures IsValidShortcode(shortcode) && shortcode in old(urls) && Expired(old(urls)[shortcode], now) ==>
                && r == Err(NotFound)
                && urls == old(urls)[shortcode := old(urls)[shortcode].(isActive := false)]
                && analytics == old(analytics)
      ensures IsValidShortcode(shortcode) && shortcode in old(urls) && !Expired(old(urls)[shortcode], now) ==>
                var d := old(urls)[shortcode];
                var a := old(analytics)[shortcode];
                && urls == old(urls)
                && (!d.isActive ==> r == Err(NotFound) && analytics == old(analytics))
                && (d.isActive ==>
                      && r == Ok(d.originalUrl)
                      && analytics == old(analytics)[shortcode := Analytics(a.totalClicks + 1,
                           a.clicks + [Click(now, ClickData(ip, userAgent, ReferrerOrDirect(referer), location))])])
    {
      if !IsValidShortcode(shortcode) {
        return Err(InvalidShortcodeFormat);
      }
      var urlData := GetUrl(shortcode, now);
      if urlData.None? || !urlData.value.isActive {
        return Err(NotFound);
      }
      RecordClick(shortcode, ClickData(ip, userAgent, ReferrerOrDirect(referer), location), now);
      r := Ok(urlData.value.originalUrl);
    }
  }

  /** Under the store's invariant, a report's click count is the length of its click list. */
  lemma ReportCountsClicks(s: UrlModel, shortcode: string)
    requires s.Valid()
    ensures s.GetAnalytics(shortcode).Some? <==> shortcode in s.urls
    ensures s.GetAnalytics(shortcode).Some? ==>
              s.GetAnalytics(shortcode).value.totalClicks == |s.GetAnalytics(shortcode).value.clicks|
  {
  }
}
