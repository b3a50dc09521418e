/**
 * The bucketing of src/utils/dateUtils.js. Each formatter compares the current time with
 * a parsed date; here the caller supplies that difference in milliseconds, or `None`
 * when the date string does not parse and the difference is `NaN`, so that every
 * comparison is false. Locale rendering is named, not performed.
 */
module DateUtils {
  import opened Wrappers
  import opened Decimal

  const SecondMs := 1000
  const MinuteMs := 60 * SecondMs
  const HourMs := 60 * MinuteMs
  const DayMs := 24 * HourMs
  const WeekMs := 7 * DayMs

  /** What a formatter returns: a text, or a date rendered by the locale. */
  datatype Label =
    | Text(text: string)
    | MonthDay      // `toLocaleDateString([], { month: 'short', day: 'numeric' })`
    | Weekday       // `toLocaleDateString([], { weekday: 'long' })`

  /** The branch `formatRelativeTime` takes, with the number it prints. */
  datatype Relative = JustNow | Minutes(n: nat) | Hours(n: nat) | Days(n: nat) | Calendar

  /** The branch chosen for `now - date`, through the code's chain of floored divisions. */
  function Bucket(elapsed: Option<int>): (b: Relative)
    ensures b == JustNow <==> elapsed.Some? && elapsed.value < MinuteMs
    ensures b.Minutes? <==> elapsed.Some? && MinuteMs <= elapsed.value < HourMs
    ensures b.Hours? <==> elapsed.Some? && HourMs <= elapsed.value < DayMs
    ensures b.Days? <==> elapsed.Some? && DayMs <= elapsed.value < WeekMs
    ensures b == Calendar <==> elapsed.None? || elapsed.value >= WeekMs
    ensures b.Minutes? ==> b.n == elapsed.value / MinuteMs && 1 <= b.n <= 59
    ensures b.Hours? ==> b.n == elapsed.value / HourMs && 1 <= b.n <= 23
    ensures b.Days? ==> b.n == elapsed.value / DayMs && 1 <= b.n <= 6
  {
    if elapsed.None? then Calendar
    else
      var diffSeconds := elapsed.value / 1000;
      if diffSeconds < 60 then JustNow
      else
        var diffMinutes := diffSeconds / 60;
        if diffMinutes < 60 then Minutes(diffMinutes)
        else
          var diffHours := diffMinutes / 60;
          if diffHours < 24 then Hours(diffHours)
          else
            var diffDays := diffHours / 24;
            if diffDays < 7 then Days(diffDays) else Calendar
  }

  function Plural(n: nat): string {
    if n > 1 then "s" else ""
  }

  /** The returned value for each branch. */
  function Render(b: Relative): (r: Label)
    ensures r == MonthDay <==> b == Calendar
    ensures r != Weekday
  {
    match b
    case JustNow => Text("just now")
    case Minutes(n) => Text(Show(n) + " min ago")
    case Hours(n) => Text(Show(n) + " hour" + Plural(n) + " ago")
    case Days(n) => Text(Show(n) + " day" + Plural(n) + " ago")
    case Calendar => MonthDay
  }

  /** `formatRelativeTime`, on `now - date`. */
  function FormatRelativeTime(elapsed: Option<int>): (r: Label)
    ensures r == Text("just now") <==> elapsed.Some? && elapsed.value < MinuteMs
    ensures elapsed.Some? && MinuteMs <= elapsed.value < HourMs ==>
      r == Text(Show(elapsed.value / MinuteMs) + " min ago")
    ensures elapsed.Some? && HourMs <= elapsed.value < DayMs ==>
      var n := elapsed.value / HourMs;
      r == Text(Show(n) + if n > 1 then " hours ago" else " hour ago")
    ensures elapsed.Some? && DayMs <= elapsed.value < WeekMs ==>
      var n := elapsed.value / DayMs;
      r == Text(Show(n) + if n > 1 then " days ago" else " day ago")
    ensures r == MonthDay <==> elapsed.None? || elapsed.value >= WeekMs
    ensures r != Weekday
  {
    var b := Bucket(elapsed);
    RenderSpelled(b);
    Render(b)
  }

  /** The text of an hours or days branch, with the unit and its plural spelled out. */
  lemma RenderSpelled(b: Relative)
    ensures b.Hours? ==> Render(b) == Text(Show(b.n) + if b.n > 1 then " hours ago" else " hour ago")
    ensures b.Days? ==> Render(b) == Text(Show(b.n) + if b.n > 1 then " days ago" else " day ago")
  {
    if b.Hours? || b.Days? {
      var unit := if b.Hours? then " hour" else " day";
      assert Show(b.n) + unit + Plural(b.n) + " ago" == Show(b.n) + (unit + Plural(b.n) + " ago");
    }
  }

  /** The digits before the first space read back as the bucket's count. */
  lemma RenderedCount(b: Relative)
    requires b.Minutes? || b.Hours? || b.Days?
    ensures var t := Render(b).text;
      var k := |Show(b.n)|;
      k < |t| && t[k] == ' ' && Read(t[..k]) == b.n
  {
    var t := Render(b).text;
    var k := |Show(b.n)|;
    assert t[..k] == Show(b.n);
    ReadShow(b.n);
  }

  /** The rank of a branch: finer units first. */
  function Rank(b: Relative): nat {
    match b
    case JustNow => 0
    case Minutes(_) => 1
    case Hours(_) => 2
    case Days(_) => 3
    case Calendar => 4
  }

  /**
   * A longer elapsed time never lands in a finer unit, and within one unit never prints
   * a smaller number.
   */
  lemma BucketMonotone(d1: int, d2: int)
    requires d1 <= d2
    ensures Rank(Bucket(Some(d1))) <= Rank(Bucket(Some(d2)))
    ensures Rank(Bucket(Some(d1))) == Rank(Bucket(Some(d2))) && !Bucket(Some(d1)).JustNow? && !Bucket(Some(d1)).Calendar? ==>
      Bucket(Some(d1)).n <= Bucket(Some(d2)).n
  {
    var b1, b2 := Bucket(Some(d1)), Bucket(Some(d2));
    if b1.Minutes? && b2.Minutes? {
      assert d1 / MinuteMs <= d2 / MinuteMs;
    } else if b1.Hours? && b2.Hours? {
      assert d1 / HourMs <= d2 / HourMs;
    } else if b1.Days? && b2.Days? {
      assert d1 / DayMs <= d2 / DayMs;
    }
  }

  /** `formatGroupDate`, on `today - date`, floored to whole days. */
  function FormatGroupDate(elapsed: Option<int>): (r: Label)
    ensures r == Text("Today") <==> elapsed.Some? && 0 <= elapsed.value < DayMs
    ensures r == Text("Yesterday") <==> elapsed.Some? && DayMs <= elapsed.value < 2 * DayMs
    ensures r == Weekday <==> elapsed.Some? && (elapsed.value < 0 || 2 * DayMs <= elapsed.value < WeekMs)
    ensures r == MonthDay <==> elapsed.None? || elapsed.value >= WeekMs
  {
    if elapsed.None? then MonthDay
    else
      var diffDays := elapsed.value / (1000 * 60 * 60 * 24);
      if diffDays == 0 then Text("Today")
      else if diffDays == 1 then Text("Yesterday")
      else if diffDays < 7 then Weekday
      else MonthDay
  }
}
