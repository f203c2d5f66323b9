/**
 * The pure helpers of src/lib/utils.ts: the relative-time phrase `timeAgo`,
 * the ordinal suffix `daySuffix` used inside `prettyTimeStamp`, and the
 * origin `baseUrl` assembled from the forwarding headers.
 */
module Utils {
  import opened Wrappers

  // ------------------------------------------------ integers printed as text

  function DigitChar(d: nat): (c: char)
    requires d < 10
    ensures '0' <= c <= '9'
  {
    (48 + d) as char
  }

  predicate IsDigits(s: string) {
    forall i :: 0 <= i < |s| ==> '0' <= s[i] <= '9'
  }

  /** Decimal digits of `n`, as a template literal prints a non-negative integer. */
  function NatText(n: nat): (s: string)
    ensures |s| >= 1 && IsDigits(s)
  {
    if n < 10 then [DigitChar(n)] else NatText(n / 10) + [DigitChar(n % 10)]
  }

  /** An integer as a template literal prints it: a leading '-' when negative. */
  function IntText(n: int): string {
    if n < 0 then "-" + NatText(-n) else NatText(n)
  }

  /** The number a string of decimal digits denotes. */
  function DigitsValue(s: string): nat
    requires IsDigits(s)
  {
    if s == [] then 0 else DigitsValue(s[..|s| - 1]) * 10 + (s[|s| - 1] as int - 48)
  }

  lemma {:induction false} NatTextRoundTrip(n: nat)
    ensures DigitsValue(NatText(n)) == n
  {
    if n >= 10 {
      var s := NatText(n);
      assert s[..|s| - 1] == NatText(n / 10);
      NatTextRoundTrip(n / 10);
    }
  }

  // ------------------------------------------------ timeAgo

  datatype Unit = Second | Minute | Hour | Day | Month | Year

  /** A count and the unit it is counted in. */
  datatype Span = Span(count: int, unit: Unit)

  function UnitName(u: Unit): string {
    match u
    case Second => "second"
    case Minute => "minute"
    case Hour => "hour"
    case Day => "day"
    case Month => "month"
    case Year => "year"
  }

  /** Whole seconds from `createdMs` to `nowMs` (milliseconds since the epoch),
      rounded down as `Math.floor` does; Dafny's `/` by a positive divisor
      also rounds down, negative dividends included. */
  function ElapsedSeconds(createdMs: int, nowMs: int): (s: int)
    ensures 1000 * s <= nowMs - createdMs < 1000 * s + 1000
  {
    (nowMs - createdMs) / 1000
  }

  /** The unit chosen by the first test that holds, and its count. */
  function Bucket(seconds: int): Span {
    var minutes := seconds / 60;
    var hours := seconds / 3600;
    var days := seconds / 86400;
    var months := days / 30;
    var years := days / 365;
    if seconds < 60 then Span(seconds, Second)
    else if minutes < 60 then Span(minutes, Minute)
    else if hours < 24 then Span(hours, Hour)
    else if days < 30 then Span(days, Day)
    else if months < 12 then Span(months, Month)
    else Span(years, Year)
  }

  function Phrase(seconds: int): string {
    var b := Bucket(seconds);
    IntText(b.count) + " " + UnitName(b.unit) + (if b.count == 1 then "" else "s") + " ago"
  }

  /** `timeAgo`, with the current time as a parameter and the date already parsed. */
  function TimeAgo(createdMs: int, nowMs: int): (r: string)
    ensures |r| > 4 && r[|r| - 4..] == " ago"
    ensures r[0] == '-' <==> nowMs < createdMs
  {
    var s := ElapsedSeconds(createdMs, nowMs);
    CountSign(s);
    Phrase(s)
  }

  /** The count is negative exactly when the elapsed seconds are. */
  lemma CountSign(s: int)
    ensures var p := Phrase(s); |p| > 4 && p[|p| - 4..] == " ago" && (p[0] == '-' <==> s < 0)
  {
  }

  /** Seconds per unit: a month is 30 days and a year 365 days. */
  function Divisor(u: Unit): (d: int)
    ensures d > 0
  {
    match u
    case Second => 1
    case Minute => 60
    case Hour => 3600
    case Day => 86400
    case Month => 2592000
    case Year => 31536000
  }

  /** The thresholds in seconds at which each unit is chosen. */
  lemma BucketUnit(s: int)
    ensures Bucket(s).unit == Second <==> s < 60
    ensures Bucket(s).unit == Minute <==> 60 <= s < 3600
    ensures Bucket(s).unit == Hour <==> 3600 <= s < 86400
    ensures Bucket(s).unit == Day <==> 86400 <= s < 2592000
    ensures Bucket(s).unit == Month <==> 2592000 <= s < 31104000
    ensures Bucket(s).unit == Year <==> 31104000 <= s
  {
    var days := s / 86400;
    if s >= 86400 {
      assert days < 30 <==> s < 2592000;
      assert days / 30 < 12 <==> days < 360;
      assert days < 360 <==> s < 31104000;
    }
  }

  /** Dividing by 86400 and then by `k` is dividing by `86400 * k`. */
  lemma DaysDiv(s: int, k: int)
    requires k == 30 || k == 365
    ensures s / 86400 / k == s / (86400 * k)
  {
    var d := s / 86400;
    var q := d / k;
    assert s == 86400 * d + s % 86400;
    assert d == k * q + d % k;
    assert s == (86400 * k) * q + (86400 * (d % k) + s % 86400);
    assert 0 <= 86400 * (d % k) + s % 86400 < 86400 * k;
  }

  /** Every count is the elapsed seconds divided, rounding down, by its unit's length. */
  lemma BucketCount(s: int)
    ensures Bucket(s).count == s / Divisor(Bucket(s).unit)
  {
    DaysDiv(s, 30);
    DaysDiv(s, 365);
  }

  /** The plural "s" is missing exactly when the count is 1. */
  lemma PluralRule(s: int)
    ensures var p := Phrase(s); |p| >= 5 && (p[|p| - 5] == 's' <==> Bucket(s).count != 1)
  {
    var b := Bucket(s);
    var name := UnitName(b.unit);
    var head := IntText(b.count) + " " + name;
    var p := Phrase(s);
    if b.count == 1 {
      assert p == head + " ago";
      assert p[|p| - 5] == name[|name| - 1];
    } else {
      assert p == head + "s" + " ago";
    }
  }

  /** From 360 to 364 days the month count is already 12 while the year count
      is still 0. */
  lemma ZeroYears(s: int)
    requires 31104000 <= s < 31536000
    ensures Phrase(s) == "0 years ago"
  {
    assert Bucket(s) == Span(0, Year);
  }

  /** A timestamp in the future takes the seconds branch and prints a
      negative count. */
  lemma FutureSeconds(s: int)
    requires s < 0
    ensures Bucket(s) == Span(s, Second)
    ensures Phrase(s)[0] == '-'
  {
  }

  // ------------------------------------------------ daySuffix

  /** JavaScript's `%`: the remainder has the sign of the dividend. */
  function JsRem(a: int, b: int): (r: int)
    requires b > 0
    ensures a >= 0 ==> r == a % b
    ensures a < 0 ==> -b < r <= 0
  {
    if a >= 0 then a % b else -((-a) % b)
  }

  /** Truncating remainder is odd in the dividend: `(-a) % b == -(a % b)`. */
  lemma JsRemNegate(a: int, b: int)
    requires b > 0
    ensures JsRem(-a, b) == -JsRem(a, b)
  {
  }

  function DaySuffix(day: int): (r: string)
    ensures r == "st" || r == "nd" || r == "rd" || r == "th"
  {
    if JsRem(day, 10) == 1 && JsRem(day, 100) != 11 then "st"
    else if JsRem(day, 10) == 2 && JsRem(day, 100) != 12 then "nd"
    else if JsRem(day, 10) == 3 && JsRem(day, 100) != 13 then "rd"
    else "th"
  }

  /** The suffixes of the days of a month. */
  lemma DaySuffixOfDate(day: int)
    requires 1 <= day <= 31
    ensures DaySuffix(day) ==
      if day == 1 || day == 21 || day == 31 then "st"
      else if day == 2 || day == 22 then "nd"
      else if day == 3 || day == 23 then "rd"
      else "th"
  {
  }

  /** Only the last two digits matter. */
  lemma DaySuffixPeriodic(day: int)
    requires day >= 0
    ensures DaySuffix(day) == DaySuffix(day % 100)
  {
    LastDigits(day);
  }

  lemma LastDigits(day: int)
    requires day >= 0
    ensures JsRem(day % 100, 10) == JsRem(day, 10)
    ensures JsRem(day % 100, 100) == JsRem(day, 100)
  {
    var d := day % 100;
    Mod10(day, 10 * (day / 100) + d / 10, d % 10);
  }

  lemma Mod10(a: int, k: int, r: int)
    requires a == 10 * k + r && 0 <= r < 10
    ensures a % 10 == r
  {
  }

  /** A negative day has a non-positive remainder and always gets "th". */
  lemma NegativeDayTh(day: int)
    requires day < 0
    ensures DaySuffix(day) == "th"
  {
  }

  // ------------------------------------------------ baseUrl

  /** A header value in a template literal: an absent header prints "null". */
  function HeaderText(h: Option<string>): string {
    if h.Some? then h.value else "null"
  }

  /** The protocol header comes back as the URL's scheme and the host header
      as everything after "://"; an absent header reads "null". */
  function BaseUrl(proto: Option<string>, host: Option<string>): (r: string)
    ensures ':' !in HeaderText(proto) ==> SchemeOf(r) == HeaderText(proto)
    ensures |r| >= |HeaderText(proto)| + 3
    ensures r[..|HeaderText(proto)|] == HeaderText(proto) && r[|HeaderText(proto)|..|HeaderText(proto)| + 3] == "://"
    ensures r[|HeaderText(proto)| + 3..] == HeaderText(host)
  {
    var rest := "://" + HeaderText(host);
    SchemeOfPrefix(HeaderText(proto), rest);
    HeaderText(proto) + rest
  }

  /** The characters before the first ':'. */
  function SchemeOf(url: string): (r: string)
    ensures |r| <= |url| && r == url[..|r|] && ':' !in r
  {
    if url == [] || url[0] == ':' then [] else [url[0]] + SchemeOf(url[1..])
  }

  lemma {:induction false} SchemeOfPrefix(scheme: string, rest: string)
    requires rest != [] && rest[0] == ':'
    ensures ':' !in scheme ==> SchemeOf(scheme + rest) == scheme
  {
    if scheme != [] && ':' !in scheme {
      assert (scheme + rest)[1..] == scheme[1..] + rest;
      SchemeOfPrefix(scheme[1..], rest);
    }
  }

}
