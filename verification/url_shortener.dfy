/**
 * The client-side mock store, UrlShortenerService (src/services/urlShortener.ts
 * and its plain-JavaScript twin src/services/urlShortener.js, which behave
 * identically). The records that the service keeps in local storage under one
 * key are the field `urls`; reading the key is reading the field and saving the
 * list is assigning it. Timestamps are integer milliseconds from an injected
 * clock `now`; Math.random is an injected stream of reals in [0, 1); the URL
 * parser is an injected predicate `validUrl`.
 */
module UrlShortener {
  import opened Wrappers
  import opened Shortcode

  /** InvalidDate is the RangeError an out-of-range expiry raises when it is turned into an ISO string. */
  datatype Error = InvalidUrl | InvalidShortcodeFormat | ShortcodeTaken | InvalidDate | NotFound | Expired

  datatype ClickData = ClickData(timestamp: int, referrer: string, location: string, userAgent: string)

  datatype ShortUrl = ShortUrl(
    id: string,
    originalUrl: string,
    shortcode: string,
    shortLink: string,
    expiry: int,
    createdAt: int,
    clicks: seq<ClickData>,
    isActive: bool)

  datatype CreateShortUrlRequest = CreateShortUrlRequest(url: string, validity: Option<int>, shortcode: Option<string>)

  datatype CreateShortUrlResponse = CreateShortUrlResponse(shortLink: string, expiry: int)

  datatype ShortUrlStats = ShortUrlStats(
    shortcode: string,
    originalUrl: string,
    shortLink: string,
    totalClicks: int,
    createdAt: int,
    expiry: int,
    isActive: bool,
    clicks: seq<ClickData>)

  const ShortcodeLength: nat := 6

  /** The request's validity, or 30 minutes when it is absent or zero (both falsy in JavaScript). */
  function ValidityMinutes(validity: Option<int>): (v: int)
    ensures v != 0
    ensures validity.Some? && validity.value != 0 ==> v == validity.value
    ensures validity.None? || validity.value == 0 ==> v == DefaultValidityMinutes
  {
    if validity.Some? && validity.value != 0 then validity.value else DefaultValidityMinutes
  }

  /** isExpired: a record expires only once the clock has passed its expiry instant. */
  predicate IsExpired(expiry: int, now: int): (r: bool)
    ensures r <==> expiry < now
    ensures !r <==> now <= expiry
  {
    now > expiry
  }

  // ---------------------------------------------------------------------------
  // Randomness

  /** A stream of Math.random() results: every draw lies in [0, 1). */
  ghost predicate InUnitInterval(rand: nat -> real) {
    forall k :: 0.0 <= rand(k) < 1.0
  }

  /** The alphabet index a draw picks: the draw scaled by 62 and rounded down. */
  function AlphabetIndex(r: real): (k: nat)
    requires 0.0 <= r < 1.0
    ensures k < AlphabetSize
  {
    (r * 62.0).Floor
  }

  /** The first n characters generateShortcode appends, from the draws rand(from), …, rand(from + n - 1). */
  function DrawChars(rand: nat -> real, from: nat, n: nat): (code: string)
    requires InUnitInterval(rand)
    ensures |code| == n
    ensures forall i :: 0 <= i < n ==> code[i] == AlphabetChar(AlphabetIndex(rand(from + i)))
  {
    if n == 0 then [] else DrawChars(rand, from, n - 1) + [AlphabetChar(AlphabetIndex(rand(from + n - 1)))]
  }

  /**
   * The code generateShortcode returns: six characters, one per draw, so
   * every generated code passes isValidShortcode.
   */
  function Draw(rand: nat -> real, from: nat): (code: string)
    requires InUnitInterval(rand)
    ensures |code| == ShortcodeLength
    ensures IsValidShortcode(code)
  {
    DrawChars(rand, from, 6)
  }

  /** Attempt t of the do-while loop in createShortUrl consumes draws 6t … 6t + 5. */
  function Attempt(rand: nat -> real, t: nat): (code: string)
    requires InUnitInterval(rand)
  {
    Draw(rand, 6 * t)
  }

  /**
   * Every code in the stream of successive generateShortcode calls over one
   * source of draws is well formed, which is what createShortUrl needs of it.
   */
  lemma AttemptsAreValid(rand: nat -> real)
    requires InUnitInterval(rand)
    ensures forall t: nat :: IsValidShortcode(Attempt(rand, t))
  {
  }

  const Locations: seq<string> := ["New York, US", "London, UK", "Mumbai, IN", "Singapore, SG", "Sydney, AU"]

  /** getLocationFromUserAgent: one of five simulated locations picked by a draw r. */
  function LocationAt(r: real): (location: string)
    requires 0.0 <= r < 1.0
    ensures location in Locations
  {
    Locations[(r * 5.0).Floor]
  }

  // ---------------------------------------------------------------------------
  // Queries over the stored list

  /** Some stored record carries the code. */
  predicate Taken(urls: seq<ShortUrl>, shortcode: string): (r: bool)
    ensures r <==> exists u :: u in urls && u.shortcode == shortcode
  {
    exists i :: 0 <= i < |urls| && urls[i].shortcode == shortcode
  }

  /** The index of the first stored record that carries the code, as find reports it. */
  function Find(urls: seq<ShortUrl>, shortcode: string): (r: Option<nat>)
    ensures r.None? <==> !Taken(urls, shortcode)
    ensures r.Some? ==> r.value < |urls| && urls[r.value].shortcode == shortcode
    ensures r.Some? ==> forall j :: 0 <= j < r.value ==> urls[j].shortcode != shortcode
    decreases |urls|
  {
    if urls == [] then None
    else if urls[0].shortcode == shortcode then Some(0)
    else
      match Find(urls[1..], shortcode)
      case None =>
        assert forall i :: 0 < i < |urls| ==> urls[i] == urls[1..][i - 1];
        None
      case Some(k) => Some(k + 1)
  }

  /** Shortcodes in the list are pairwise distinct. */
  ghost predicate UniqueCodes(urls: seq<ShortUrl>) {
    forall i, j :: 0 <= i < j < |urls| ==> urls[i].shortcode != urls[j].shortcode
  }

  lemma FindUnique(urls: seq<ShortUrl>, k: nat)
    requires UniqueCodes(urls) && k < |urls|
    ensures Find(urls, urls[k].shortcode) == Some(k)
  {
  }

  /** The stored records that carry any other code, in order, as filter keeps them. */
  function Without(urls: seq<ShortUrl>, shortcode: string): (r: seq<ShortUrl>)
    ensures |r| <= |urls|
    ensures forall u :: u in r <==> u in urls && u.shortcode != shortcode
    decreases |urls|
  {
    if urls == [] then []
    else (if urls[0].shortcode == shortcode then [] else [urls[0]]) + Without(urls[1..], shortcode)
  }

  /** The filter removed nothing exactly when no record carries the code. */
  lemma {:induction false} WithoutLengthIff(urls: seq<ShortUrl>, shortcode: string)
    ensures |Without(urls, shortcode)| == |urls| <==> !Taken(urls, shortcode)
    ensures !Taken(urls, shortcode) ==> Without(urls, shortcode) == urls
    decreases |urls|
  {
    if urls != [] {
      WithoutLengthIff(urls[1..], shortcode);
      if urls[0].shortcode != shortcode {
        assert Taken(urls, shortcode) <==> Taken(urls[1..], shortcode) by {
          if Taken(urls, shortcode) {
            var i :| 0 <= i < |urls| && urls[i].shortcode == shortcode;
            assert urls[1..][i - 1] == urls[i];
          }
          if Taken(urls[1..], shortcode) {
            var i :| 0 <= i < |urls[1..]| && urls[1..][i].shortcode == shortcode;
            assert urls[i + 1] == urls[1..][i];
          }
        }
      } else {
        assert Taken(urls, shortcode);
      }
    }
  }

  /**
   * With distinct codes, deleting the record at index k leaves every other
   * record in place and in order.
   */
  lemma UniqueTail(urls: seq<ShortUrl>)
    requires UniqueCodes(urls) && urls != []
    ensures UniqueCodes(urls[1..])
    ensures forall i :: 0 <= i < |urls[1..]| ==> urls[1..][i].shortcode != urls[0].shortcode
  {
  }

  lemma {:induction false} WithoutSplice(urls: seq<ShortUrl>, k: nat)
    requires UniqueCodes(urls) && k < |urls|
    ensures Without(urls, urls[k].shortcode) == urls[..k] + urls[k + 1..]
    decreases |urls|
  {
    var c := urls[k].shortcode;
    var tail := urls[1..];
    UniqueTail(urls);
    if k == 0 {
      assert !Taken(tail, c);
      WithoutLengthIff(tail, c);
      assert Without(urls, c) == tail;
    } else {
      calc {
        Without(urls, c);
        { assert urls[0].shortcode != c by { assert tail[k - 1] == urls[k]; } }
        [urls[0]] + Without(tail, c);
        { assert tail[k - 1] == urls[k]; WithoutSplice(tail, k - 1); }
        [urls[0]] + (tail[..k - 1] + tail[k..]);
        { assert tail[..k - 1] == urls[1..k] && tail[k..] == urls[k + 1..]; }
        [urls[0]] + urls[1..k] + urls[k + 1..];
        { assert [urls[0]] + urls[1..k] == urls[..k]; }
        urls[..k] + urls[k + 1..];
      }
    }
  }

  /** Filtering never introduces a code: one no record had stays absent. */
  lemma WithoutAvoids(urls: seq<ShortUrl>, shortcode: string, other: string)
    requires forall i :: 0 <= i < |urls| ==> urls[i].shortcode != other
    ensures forall i :: 0 <= i < |Without(urls, shortcode)| ==> Without(urls, shortcode)[i].shortcode != other
  {
  }

  /** Keeping a subsequence keeps shortcodes distinct. */
  lemma {:induction false} WithoutKeepsUnique(urls: seq<ShortUrl>, shortcode: string)
    requires UniqueCodes(urls)
    ensures UniqueCodes(Without(urls, shortcode))
    decreases |urls|
  {
    if urls != [] {
      var tail := urls[1..];
      UniqueTail(urls);
      WithoutKeepsUnique(tail, shortcode);
      var rest := Without(tail, shortcode);
      if urls[0].shortcode != shortcode {
        WithoutAvoids(tail, shortcode, urls[0].shortcode);
        var r := [urls[0]] + rest;
        assert Without(urls, shortcode) == r;
        forall i, j | 0 <= i < j < |r| ensures r[i].shortcode != r[j].shortcode {
          assert r[j] == rest[j - 1];
          if i > 0 {
            assert r[i] == rest[i - 1];
          }
        }
      } else {
        assert Without(urls, shortcode) == rest;
      }
    }
  }

  /** The stats view `st` reports record u at `now`: clicks counted, flag re-derived, the rest copied. */
  ghost predicate StatsOf(u: ShortUrl, st: ShortUrlStats, now: int) {
    && st.shortcode == u.shortcode
    && st.totalClicks == |u.clicks| == |st.clicks|
    && st.clicks == u.clicks
    && (st.isActive <==> u.isActive && !IsExpired(u.expiry, now))
    && st.expiry == u.expiry && st.createdAt == u.createdAt
    && st.originalUrl == u.originalUrl && st.shortLink == u.shortLink
  }

  /** The record as createShortUrl stores it: a well-formed code, its link, and a set flag. */
  ghost predicate WellFormedRecord(u: ShortUrl, baseUrl: string) {
    && IsValidShortcode(u.shortcode)
    && u.shortLink == baseUrl + "/" + u.shortcode
    && u.isActive
  }

  ghost predicate WellFormed(urls: seq<ShortUrl>, baseUrl: string) {
    && UniqueCodes(urls)
    && (forall i :: 0 <= i < |urls| ==> WellFormedRecord(urls[i], baseUrl))
  }

  lemma AppendKeepsWellFormed(urls: seq<ShortUrl>, baseUrl: string, u: ShortUrl)
    requires WellFormed(urls, baseUrl) && WellFormedRecord(u, baseUrl) && !Taken(urls, u.shortcode)
    ensures WellFormed(urls + [u], baseUrl)
  {
  }

  // ---------------------------------------------------------------------------
  // The service

  class UrlShortenerService {
    /** window.location.origin, fixed when the service is built. */
    const baseUrl: string
    /** The list saved in local storage. */
    var urls: seq<ShortUrl>

    /**
     * Codes are distinct and well formed, each link is the base URL and the
     * code, and the stored flag is never cleared by this service.
     */
    ghost predicate Valid()
      reads this
    {
      WellFormed(urls, baseUrl)
    }

    /** The short link: the origin, a slash, then the code, which can be read back from it. */
    function ShortLink(shortcode: string): (link: string)
      reads this
      ensures |link| == |baseUrl| + 1 + |shortcode|
      ensures link[..|baseUrl|] == baseUrl && link[|baseUrl|] == '/' && link[|baseUrl| + 1..] == shortcode
    {
      baseUrl + "/" + shortcode
    }

    constructor (origin: string)
      ensures Valid() && baseUrl == origin && urls == []
    {
      baseUrl := origin;
      urls := [];
    }

    /** generateShortcode: six characters of the alphabet, one per draw. */
    static method GenerateShortcode(rand: nat -> real, from: nat) returns (code: string)
      requires InUnitInterval(rand)
      ensures code == Draw(rand, from)
      ensures |code| == ShortcodeLength && IsValidShortcode(code)
    {
      code := "";
      var i := 0;
      while i < 6
        invariant 0 <= i <= 6
        invariant code == DrawChars(rand, from, i)
      {
        code := code + [AlphabetChar(AlphabetIndex(rand(from + i)))];
        i := i + 1;
      }
    }

    /**
     * The do-while loop of createShortUrl: draw codes until one is not in
     * `stored`; draws(t) is the code the t-th call of generateShortcode
     * returns. The loop ends only because some draw is free.
     */
    static method GenerateUniqueShortcode(stored: seq<ShortUrl>, draws: nat -> string) returns (code: string)
      requires exists t: nat :: !Taken(stored, draws(t))
      ensures !Taken(stored, code)
      ensures exists t: nat :: code == draws(t) &&
                               forall t': nat :: t' < t ==> Taken(stored, draws(t'))
    {
      ghost var free: nat :| !Taken(stored, draws(free));
      var t: nat := 0;
      code := draws(t);
      while Taken(stored, code)
        invariant t <= free
        invariant code == draws(t)
        invariant forall t': nat :: t' < t ==> Taken(stored, draws(t'))
        decreases free - t
      {
        t := t + 1;
        code := draws(t);
      }
    }

    /**
     * createShortUrl: reject a bad URL, then a malformed custom code, then a
     * taken one; otherwise append one fresh record and save.
     */
    method CreateShortUrl(request: CreateShortUrlRequest, validUrl: string -> bool,
                          draws: nat -> string, id: string, now: int)
      returns (r: Result<CreateShortUrlResponse, Error>)
      requires Valid() && forall t :: IsValidShortcode(draws(t))
      requires validUrl(request.url) && !IsCustom(request.shortcode) ==>
                 exists t: nat :: !Taken(urls, draws(t))
      modifies this`urls
      ensures Valid()
      ensures !validUrl(request.url) ==> r == Err(InvalidUrl)
      ensures validUrl(request.url) && IsCustom(request.shortcode) && !IsValidShortcode(request.shortcode.value) ==>
                r == Err(InvalidShortcodeFormat)
      ensures (validUrl(request.url) && IsCustom(request.shortcode) && IsValidShortcode(request.shortcode.value)
               && Taken(old(urls), request.shortcode.value)) ==> r == Err(ShortcodeTaken)
      ensures (validUrl(request.url) && (IsCustom(request.shortcode) ==>
                 IsValidShortcode(request.shortcode.value) && !Taken(old(urls), request.shortcode.value))) ==>
                if InDateRange(now + ValidityMinutes(request.validity) * MillisPerMinute) then r.Ok?
                else r == Err(InvalidDate)
      ensures r.Err? ==> urls == old(urls)
      ensures r.Ok? ==>
        && |urls| == |old(urls)| + 1
        && urls[..|old(urls)|] == old(urls)
        && var u := urls[|old(urls)|];
        && !Taken(old(urls), u.shortcode)
        && (IsCustom(request.shortcode) ==> u.shortcode == request.shortcode.value)
        && (!IsCustom(request.shortcode) ==>
              exists t: nat :: u.shortcode == draws(t) &&
                               forall t': nat :: t' < t ==> Taken(old(urls), draws(t')))
        && u == ShortUrl(id, request.url, u.shortcode, ShortLink(u.shortcode),
                         now + ValidityMinutes(request.validity) * MillisPerMinute, now, [], true)
        && InDateRange(u.expiry)
        && r.value == CreateShortUrlResponse(u.shortLink, u.expiry)
    {
      if !validUrl(request.url) {
        return Err(InvalidUrl);
      }
      var stored := urls;
      var shortcode: string;
      if IsCustom(request.shortcode) {
        shortcode := request.shortcode.value;
        if !IsValidShortcode(shortcode) {
          return Err(InvalidShortcodeFormat);
        }
        if Taken(stored, shortcode) {
          return Err(ShortcodeTaken);
        }
      } else {
        shortcode := GenerateUniqueShortcode(stored, draws);
      }
      var expiry := now + ValidityMinutes(request.validity) * MillisPerMinute;
      if !InDateRange(expiry) {
        return Err(InvalidDate);
      }
      var shortUrl := ShortUrl(id, request.url, shortcode, ShortLink(shortcode), expiry, now, [], true);
      AppendKeepsWellFormed(stored, baseUrl, shortUrl);
      urls := stored + [shortUrl];
      r := Ok(CreateShortUrlResponse(shortUrl.shortLink, shortUrl.expiry));
    }

    /** getShortUrlStats: the first record with the code, its clicks counted and its flag re-derived. */
    function GetShortUrlStats(shortcode: string, now: int): (r: Result<ShortUrlStats, Error>)
      reads this
      ensures r.Err? <==> !Taken(urls, shortcode)
      ensures r.Err? ==> r.error == NotFound
      ensures r.Ok? ==> Find(urls, shortcode).Some? && StatsOf(urls[Find(urls, shortcode).value], r.value, now)
    {
      match Find(urls, shortcode)
      case None => Err(NotFound)
      case Some(i) =>
        var u := urls[i];
        Ok(ShortUrlStats(u.shortcode, u.originalUrl, u.shortLink, |u.clicks|, u.createdAt, u.expiry,
                         u.isActive && !IsExpired(u.expiry, now), u.clicks))
    }

    /**
     * redirectToOriginalUrl: an unknown code and an expired one are told apart;
     * otherwise one click is appended to that record only.
     */
    method RedirectToOriginalUrl(shortcode: string, now: int, referrer: string,
                                 userAgent: string, locationDraw: real)
      returns (r: Result<string, Error>)
      requires Valid() && 0.0 <= locationDraw < 1.0
      modifies this`urls
      ensures Valid()
      ensures !Taken(old(urls), shortcode) ==> r == Err(NotFound) && urls == old(urls)
      ensures Taken(old(urls), shortcode) ==>
        var i := Find(old(urls), shortcode).value;
        var u := old(urls)[i];
        if IsExpired(u.expiry, now) then
          r == Err(Expired) && urls == old(urls)
        else
          && r == Ok(u.originalUrl)
          && urls == old(urls)[i := u.(clicks := u.clicks +
               [ClickData(now, ReferrerOrDirect(referrer), LocationAt(locationDraw), userAgent)])]
    {
      var found := Find(urls, shortcode);
      if found.None? {
        return Err(NotFound);
      }
      var i := found.value;
      var shortUrl := urls[i];
      if IsExpired(shortUrl.expiry, now) {
        return Err(Expired);
      }
      var click := ClickData(now, ReferrerOrDirect(referrer), LocationAt(locationDraw), userAgent);
      urls := urls[i := shortUrl.(clicks := shortUrl.clicks + [click])];
      r := Ok(shortUrl.originalUrl);
    }

    /** getAllShortUrls: the stored list, in order, with each flag re-derived at `now`. */
    function GetAllShortUrls(now: int): (r: seq<ShortUrl>)
      reads this
      ensures |r| == |urls|
      ensures forall i :: 0 <= i < |r| ==>
                && (r[i].isActive <==> urls[i].isActive && !IsExpired(urls[i].expiry, now))
                && r[i].(isActive := urls[i].isActive) == urls[i]
    {
      seq(|urls|, i requires 0 <= i < |urls| reads this =>
        urls[i].(isActive := urls[i].isActive && !IsExpired(urls[i].expiry, now)))
    }

    /** deleteShortUrl: keep the records with other codes; fail when none was removed. */
    method DeleteShortUrl(shortcode: string) returns (r: Result<(), Error>)
      requires Valid()
      modifies this`urls
      ensures Valid()
      ensures r.Err? <==> !Taken(old(urls), shortcode)
      ensures r.Err? ==> r.error == NotFound && urls == old(urls)
      ensures r.Ok? ==> urls == Without(old(urls), shortcode)
      ensures !Taken(urls, shortcode)
    {
      var filtered := Without(urls, shortcode);
      WithoutLengthIff(urls, shortcode);
      if |urls| == |filtered| {
        return Err(NotFound);
      }
      WithoutKeepsUnique(urls, shortcode);
      urls := filtered;
      r := Ok(());
    }
  }

  // ---------------------------------------------------------------------------
  // Properties of the store

  /** In a valid store a record reads as active exactly until its expiry instant, inclusive. */
  lemma StatsActiveUntilExpiry(s: UrlShortenerService, k: nat, now: int)
    requires s.Valid() && k < |s.urls|
    ensures s.GetShortUrlStats(s.urls[k].shortcode, now).Ok?
    ensures s.GetShortUrlStats(s.urls[k].shortcode, now).value.isActive <==> now <= s.urls[k].expiry
  {
  }

  /** The list view and the per-code stats agree on each record's activity. */
  lemma ListAgreesWithStats(s: UrlShortenerService, k: nat, now: int)
    requires s.Valid() && k < |s.urls|
    ensures s.GetShortUrlStats(s.urls[k].shortcode, now).Ok?
    ensures s.GetAllShortUrls(now)[k].isActive == s.GetShortUrlStats(s.urls[k].shortcode, now).value.isActive
    ensures |s.GetAllShortUrls(now)[k].clicks| == s.GetShortUrlStats(s.urls[k].shortcode, now).value.totalClicks
  {
  }
}
