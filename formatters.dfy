/** Display helpers of the web client: relative-time labels and text
    truncation. The current time is a parameter (milliseconds since the
    epoch, as `Date.getTime()` gives it). */
module Formatters {
  import opened Wrappers
  import Numbers

  /** What `formatTimeAgo` receives once its argument has been converted
      to a date: nothing usable (`null`, `undefined`, `''`), a date whose
      time is NaN, or an instant in milliseconds. */
  datatype DateInput = Missing | InvalidDate | At(ms: int)

  /** The label chosen, before it is rendered as text. */
  datatype TimeAgo =
    | Unknown
    | Invalid
    | YearsAgo(years: int)
    | MonthsAgo(months: int)
    | DaysAgo(days: int)
    | HoursAgo(hours: int)
    | MinutesAgo(minutes: int)
    | JustNow

  /** Elapsed whole seconds, rounded down as `Math.floor` does. */
  function ElapsedSeconds(now: int, at: int): int {
    Numbers.FloorDiv(now - at, 1000)
  }

  /** The first non-zero unit among years (365-day), months (30-day), days,
      hours and minutes, each computed by successive flooring divisions. */
  function Bucket(input: DateInput, now: int): (r: TimeAgo)
    ensures input.Missing? <==> r == Unknown
    ensures input.InvalidDate? <==> r == Invalid
  {
    match input
    case Missing => Unknown
    case InvalidDate => Invalid
    case At(at) =>
      var seconds := ElapsedSeconds(now, at);
      var minutes := Numbers.FloorDiv(seconds, 60);
      var hours := Numbers.FloorDiv(minutes, 60);
      var days := Numbers.FloorDiv(hours, 24);
      var months := Numbers.FloorDiv(days, 30);
      var years := Numbers.FloorDiv(days, 365);
      if years > 0 then YearsAgo(years)
      else if months > 0 then MonthsAgo(months)
      else if days > 0 then DaysAgo(days)
      else if hours > 0 then HoursAgo(hours)
      else if minutes > 0 then MinutesAgo(minutes)
      else JustNow
  }

  function Render(t: TimeAgo): string {
    match t
    case Unknown => "未知时间"
    case Invalid => "无效日期"
    case YearsAgo(n) => Numbers.IntToString(n) + " 年前"
    case MonthsAgo(n) => Numbers.IntToString(n) + " 个月前"
    case DaysAgo(n) => Numbers.IntToString(n) + " 天前"
    case HoursAgo(n) => Numbers.IntToString(n) + " 小时前"
    case MinutesAgo(n) => Numbers.IntToString(n) + " 分钟前"
    case JustNow => "刚刚"
  }

  /** `formatTimeAgo(date)` evaluated at instant `now`. */
  function FormatTimeAgo(input: DateInput, now: int): (r: string)
    ensures input.Missing? ==> r == "未知时间"
    ensures input.InvalidDate? ==> r == "无效日期"
    ensures input.At? ==> r == Render(Bucket(input, now))
  {
    Render(Bucket(input, now))
  }

  /** A date in the future, or less than a minute ago, reads "刚刚". */
  lemma FutureOrRecentIsJustNow(at: int, now: int)
    requires now - at < 60000
    ensures Bucket(At(at), now) == JustNow
    ensures FormatTimeAgo(At(at), now) == "刚刚"
  {
    var seconds := ElapsedSeconds(now, at);
    assert seconds < 60;
    assert Numbers.FloorDiv(seconds, 60) <= 0;
  }

  /** Each label's number lies in the range its unit implies, and the
      elapsed time lies in that unit's interval:
      minutes 1..59, hours 1..23, days 1..29, months 1..12, years >= 1. */
  lemma BucketRanges(at: int, now: int)
    ensures var s := ElapsedSeconds(now, at);
      match Bucket(At(at), now)
      case MinutesAgo(n) => 1 <= n < 60 && n * 60 <= s < (n + 1) * 60
      case HoursAgo(n) => 1 <= n < 24 && n * 3600 <= s < (n + 1) * 3600
      case DaysAgo(n) => 1 <= n < 30 && n * 86400 <= s < (n + 1) * 86400
      case MonthsAgo(n) => 1 <= n <= 12 && n * 30 * 86400 <= s < 365 * 86400 && s < (n + 1) * 30 * 86400
      case YearsAgo(n) => n >= 1 && n * 365 * 86400 <= s < (n + 1) * 365 * 86400
      case JustNow => s < 60
      case _ => false
  {
    var s := ElapsedSeconds(now, at);
    var minutes := Numbers.FloorDiv(s, 60);
    var hours := Numbers.FloorDiv(minutes, 60);
    var days := Numbers.FloorDiv(hours, 24);
    assert hours * 60 <= minutes < hours * 60 + 60;
    assert days * 24 <= hours < days * 24 + 24;
    assert minutes * 60 <= s < minutes * 60 + 60;
    assert hours * 3600 <= s < hours * 3600 + 3600;
    assert days * 86400 <= s < days * 86400 + 86400;
    var months := Numbers.FloorDiv(days, 30);
    assert months * 30 <= days < months * 30 + 30;
    assert days * 86400 < (months + 1) * 30 * 86400;
  }

  /** `truncateText(text, maxLength)`; `None` is `null`/`undefined`.
      `substring(0, n)` clamps a negative `n` to 0. */
  function TruncateText(text: Option<string>, maxLength: int): (r: string)
    ensures text.None? || text.value == "" ==> r == ""
    ensures text.Some? && text.value != "" && |text.value| <= maxLength ==> r == text.value
    ensures text.Some? && text.value != "" && |text.value| > maxLength ==>
      var keep := if maxLength < 0 then 0 else maxLength;
      |r| == keep + 3 && r[..keep] == text.value[..keep] && r[keep..] == "..."
  {
    match text
    case None => ""
    case Some(t) =>
      if t == "" then ""
      else if |t| <= maxLength then t
      else t[..if maxLength < 0 then 0 else maxLength] + "..."
  }

  /** Truncation never yields more than `maxLength + 3` characters, so a
      truncated text fits the widened bound `maxLength + 3` and is left
      alone by a second truncation to it (no second ellipsis). */
  lemma TruncateTwice(t: string, maxLength: nat)
    ensures |TruncateText(Some(t), maxLength)| <= maxLength + 3
    ensures TruncateText(Some(TruncateText(Some(t), maxLength)), maxLength + 3)
      == TruncateText(Some(t), maxLength)
  {
  }
}
