/**
 * `formatRelativeTime`, which the web client (frontend/src/utils/dateUtils.js) and the desktop
 * client (`dateUtils` in desktop/renderer/js/components.js) implement with the same code. Times
 * are integer milliseconds; an unparsable date is `None`; the current time is a parameter.
 */
module RelativeTime {
  import opened Wrappers
  import Text

  /** What is shown: a fixed label, or the locale's date of the instant (left to the platform). */
  datatype Relative = Label(text: string) | LocaleDate(ms: int)

  const MinuteMs := 60_000
  const HourMs := 3_600_000
  const DayMs := 86_400_000
  const WeekMs := 604_800_000

  /** Flooring seconds, then minutes, then hours is flooring the milliseconds once per unit. */
  lemma NestedFloors(ms: int)
    ensures ms / 1000 / 60 == ms / MinuteMs
    ensures ms / 1000 / 60 / 60 == ms / HourMs
    ensures ms / 1000 / 60 / 60 / 24 == ms / DayMs
  {
  }

  /**
   * The buckets: under a minute (also any future date) "Just now", then whole minutes below an
   * hour, whole hours below a day, whole days below a week, and the locale date beyond that.
   */
  function FormatRelativeTime(date: Option<int>, now: int): (r: Relative)
    ensures date.None? ==> r == Label("Invalid date")
    ensures date.Some? && now - date.value < MinuteMs ==> r == Label("Just now")
    ensures date.Some? && MinuteMs <= now - date.value < HourMs ==>
      1 <= (now - date.value) / MinuteMs < 60 && r == Label(Text.NatToString((now - date.value) / MinuteMs) + "m")
    ensures date.Some? && HourMs <= now - date.value < DayMs ==>
      1 <= (now - date.value) / HourMs < 24 && r == Label(Text.NatToString((now - date.value) / HourMs) + "h")
    ensures date.Some? && DayMs <= now - date.value < WeekMs ==>
      1 <= (now - date.value) / DayMs < 7 && r == Label(Text.NatToString((now - date.value) / DayMs) + "d")
    ensures date.Some? && now - date.value >= WeekMs ==> r == LocaleDate(date.value)
  {
    match date
    case None => Label("Invalid date")
    case Some(d) =>
      NestedFloors(now - d);
      var seconds := (now - d) / 1000;
      if seconds < 60 then Label("Just now")
      else
        var minutes := seconds / 60;
        if minutes < 60 then Label(Text.NatToString(minutes) + "m")
        else
          var hours := minutes / 60;
          if hours < 24 then Label(Text.NatToString(hours) + "h")
          else
            var days := hours / 24;
            if days < 7 then Label(Text.NatToString(days) + "d")
            else LocaleDate(d)
  }
}
