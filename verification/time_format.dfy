/**
 * The relative timestamps of the post list and the post page
 * (`formatTime`). The clock and date parsing are parameters: `parse` gives
 * the epoch milliseconds of a date string, or nothing for an invalid date.
 */
module TimeFormat {
  import opened Wrappers

  /** What `formatTime` renders: `Just now`, `<h>h ago`, `<d>d ago`, the
      locale date (`Invalid Date` for an invalid one) or `Unknown time`. */
  datatype Label = JustNow | HoursAgo(hours: int) | DaysAgo(days: int) | LocaleDate | UnknownTime

  const MsPerHour := 1000 * 60 * 60

  /** `now - new Date(s)`: an absent or unparsable date is `NaN`. */
  function Elapsed(created: Option<string>, now: int, parse: string -> Option<int>): Option<int>
  {
    match created
    case None => None
    case Some(s) => match parse(s)
      case None => None
      case Some(t) => Some(now - t)
  }

  /** The buckets, on whole hours and days rounded down. Every comparison
      with `NaN` is false, so an invalid date falls through to the locale
      date. Division by a positive constant rounds down in Dafny as
      `Math.floor` does, negative values included. */
  function Bucket(elapsed: Option<int>): Label
  {
    match elapsed
    case None => LocaleDate
    case Some(e) =>
      var hours := e / MsPerHour;
      if hours < 1 then JustNow
      else if hours < 24 then HoursAgo(hours)
      else
        var days := hours / 24;
        if days < 7 then DaysAgo(days) else LocaleDate
  }

  /** The post list's `formatTime`. */
  function FormatTime(created: Option<string>, now: int, parse: string -> Option<int>): Label
  {
    Bucket(Elapsed(created, now, parse))
  }

  /** The post page's `formatTime`: a falsy date string is `Unknown time`. */
  function FormatTimeOrUnknown(created: Option<string>, now: int, parse: string -> Option<int>): Label
  {
    if !Truthy(created) then UnknownTime else FormatTime(created, now, parse)
  }

  // ---------------------------------------------------------------------
  // Properties
  // ---------------------------------------------------------------------

  /** Rounding down to hours and then to days is rounding down to days. */
  lemma HoursThenDays(e: int)
    ensures (e / MsPerHour) / 24 == e / (24 * MsPerHour)
  {
    var h := e / MsPerHour;
    var d := h / 24;
    assert e == MsPerHour * h + e % MsPerHour;
    assert h == 24 * d + h % 24;
    assert e == (24 * MsPerHour) * d + (MsPerHour * (h % 24) + e % MsPerHour);
    assert 0 <= MsPerHour * (h % 24) + e % MsPerHour < 24 * MsPerHour;
  }

  /** The buckets in milliseconds: under an hour (a date in the future
      included) is `Just now`; then whole hours up to 23; then whole days
      up to 6; from a week on, the date. */
  lemma BucketBounds(e: int)
    ensures Bucket(Some(e)) == JustNow <==> e < 3600000
    ensures Bucket(Some(e)).HoursAgo? <==> 3600000 <= e < 86400000
    ensures Bucket(Some(e)).DaysAgo? <==> 86400000 <= e < 604800000
    ensures Bucket(Some(e)) == LocaleDate <==> 604800000 <= e
    ensures Bucket(Some(e)).HoursAgo? ==> Bucket(Some(e)).hours == e / 3600000 && 1 <= Bucket(Some(e)).hours <= 23
    ensures Bucket(Some(e)).DaysAgo? ==> Bucket(Some(e)).days == e / 86400000 && 1 <= Bucket(Some(e)).days <= 6
  {
    HoursThenDays(e);
  }

  /** Only the post page says `Unknown time`, and only for a falsy date;
      otherwise the two agree. */
  lemma PagesAgree(created: Option<string>, now: int, parse: string -> Option<int>)
    ensures FormatTime(created, now, parse) != UnknownTime
    ensures FormatTimeOrUnknown(created, now, parse) == UnknownTime <==> !Truthy(created)
    ensures Truthy(created) ==> FormatTimeOrUnknown(created, now, parse) == FormatTime(created, now, parse)
  {
  }

  /** The post list renders a missing or unparsable date as a date. */
  lemma InvalidDateIsLocaleDate(created: Option<string>, now: int, parse: string -> Option<int>)
    requires created.None? || parse(created.value).None?
    ensures FormatTime(created, now, parse) == LocaleDate
  {
  }
}
