/**
 * What the server model and the client store share: the shortcode format,
 * the regular expression /^[a-zA-Z0-9]{3,20}$/; the truthiness tests both
 * apply to a custom code and to a referrer; the minute length, the default
 * validity and the range of a Date; and the 62-character alphabet the client
 * draws generated codes from.
 */
module Shortcode {
  import opened Wrappers

  /** One character of the class [a-zA-Z0-9]. */
  predicate IsAlnum(c: char) {
    ('a' <= c <= 'z') || ('A' <= c <= 'Z') || ('0' <= c <= '9')
  }

  predicate AllAlnum(s: string) {
    forall i :: 0 <= i < |s| ==> IsAlnum(s[i])
  }

  /**
   * Anchored match of s against [a-zA-Z0-9]{min,max}: consume one
   * character of the class per step, counting both bounds down.
   */
  function MatchRepeat(s: string, min: int, max: int): bool
    decreases |s|
  {
    if s == [] then min <= 0
    else 0 < max && IsAlnum(s[0]) && MatchRepeat(s[1..], min - 1, max - 1)
  }

  lemma {:induction false} MatchRepeatMeaning(s: string, min: int, max: int)
    requires 0 <= max
    ensures MatchRepeat(s, min, max) <==> min <= |s| <= max && AllAlnum(s)
    decreases |s|
  {
    if s != [] {
      assert AllAlnum(s) <==> IsAlnum(s[0]) && AllAlnum(s[1..]) by {
        if IsAlnum(s[0]) && AllAlnum(s[1..]) {
          forall i | 0 <= i < |s| ensures IsAlnum(s[i]) {
            if i > 0 { assert s[i] == s[1..][i - 1]; }
          }
        }
      }
      if 0 < max {
        MatchRepeatMeaning(s[1..], min - 1, max - 1);
      }
    }
  }

  /** isValidShortcode: the test of /^[a-zA-Z0-9]{3,20}$/ against s. */
  function IsValidShortcode(s: string): (r: bool)
    ensures r <==> 3 <= |s| <= 20 && AllAlnum(s)
  {
    MatchRepeatMeaning(s, 3, 20);
    MatchRepeat(s, 3, 20)
  }

  /**
   * A custom shortcode is used only when it is truthy: JavaScript treats an
   * absent code and the empty string alike as false.
   */
  predicate IsCustom(shortcode: Option<string>): (r: bool)
    ensures r <==> shortcode != None && shortcode != Some("")
  {
    shortcode.Some? && shortcode.value != ""
  }

  /**
   * The referrer recorded with a click: the client's document referrer and
   * the server route's Referer header both fall back to 'Direct' when empty
   * or absent.
   */
  function ReferrerOrDirect(referrer: string): (r: string)
    ensures r != ""
    ensures referrer != "" ==> r == referrer
    ensures referrer == "" ==> r == "Direct"
  {
    if referrer == "" then "Direct" else referrer
  }

  // ---------------------------------------------------------------------------
  // Time

  const MillisPerMinute: int := 60 * 1000
  /** Both stores fall back to a validity of 30 minutes. */
  const DefaultValidityMinutes: int := 30

  /**
   * The largest distance from the epoch, in milliseconds, that an ECMAScript
   * Date can hold (100 000 000 days either side). A Date built outside this
   * range is invalid, and converting it to an ISO string raises a RangeError.
   */
  const MaxTimeMillis: int := 8_640_000_000_000_000

  predicate InDateRange(t: int) {
    -MaxTimeMillis <= t <= MaxTimeMillis
  }

  /** Size of the client generator's alphabet "abc…xyzABC…XYZ0123456789". */
  const AlphabetSize: nat := 62

  /** The k-th character of the client's alphabet: lower case, then upper case, then digits. */
  function AlphabetChar(k: nat): (c: char)
    requires k < AlphabetSize
    ensures IsAlnum(c)
  {
    if k < 26 then ('a' as int + k) as char
    else if k < 52 then ('A' as int + (k - 26)) as char
    else ('0' as int + (k - 52)) as char
  }

  /** Every character the shortcode format admits is in the alphabet, exactly once. */
  lemma AlphabetCoversAlnum(c: char)
    requires IsAlnum(c)
    ensures exists k :: 0 <= k < AlphabetSize && AlphabetChar(k) == c
    ensures forall k, k' :: 0 <= k < k' < AlphabetSize ==> AlphabetChar(k) != AlphabetChar(k')
  {
    var k := if 'a' <= c <= 'z' then c as int - 'a' as int
             else if 'A' <= c <= 'Z' then c as int - 'A' as int + 26
             else c as int - '0' as int + 52;
    assert AlphabetChar(k) == c;
  }
}
