/**
 * The text logic of src/screens/ParticipantScreen.js: the status line and its
 * `formatLastSeen`, which buckets `now - lastSeen` by whole minutes. As in DateUtils, the
 * caller supplies that difference, `None` standing for the `NaN` of an unparsable date.
 */
module ParticipantScreen {
  import opened Wrappers
  import opened Decimal
  import opened ChatTypes
  import DateUtils

  const DefaultAvatar := "https://i.imgur.com/abc123.jpg"

  /** `formatLastSeen`, on `now - lastSeen`. */
  function FormatLastSeen(elapsed: Option<int>): (r: string)
    ensures r == "just now" <==> elapsed.Some? && elapsed.value < 60000
    ensures elapsed.Some? && 60000 <= elapsed.value < 3600000 ==>
      var n := elapsed.value / 60000;
      1 <= n <= 59 && r == Show(n) + " minutes ago"
    ensures elapsed.Some? && 3600000 <= elapsed.value < 86400000 ==>
      var n := elapsed.value / 3600000;
      1 <= n <= 23 && r == Show(n) + " hours ago"
    ensures elapsed.Some? && elapsed.value >= 86400000 ==>
      var n := elapsed.value / 86400000;
      n >= 1 && r == Show(n) + " days ago"
    ensures elapsed.None? ==> r == "NaN days ago"
  {
    if elapsed.None? then "NaN days ago"
    else
      var diffMinutes := elapsed.value / (1000 * 60);
      MinuteUnits(elapsed.value);
      if diffMinutes < 1 then "just now"
      else if diffMinutes < 60 then Counted(diffMinutes, " minutes ago")
      else if diffMinutes < 1440 then Counted(diffMinutes / 60, " hours ago")
      else Counted(diffMinutes / 1440, " days ago")
  }

  /** A count followed by its unit; never the text "just now", which starts with a letter. */
  function Counted(n: nat, unit: string): (r: string)
    ensures r == Show(n) + unit && r != "just now"
  {
    var text := Show(n) + unit;
    assert text[0] == Show(n)[0];
    assert IsDigit(text[0]) && !IsDigit("just now"[0]);
    text
  }

  /** Whole minutes, then hours and days taken from the minutes, are the floored quotients of the milliseconds. */
  lemma MinuteUnits(e: int)
    ensures (e / 60000 < 1 <==> e < 60000) && (e / 60000 < 60 <==> e < 3600000) && (e / 60000 < 1440 <==> e < 86400000)
    ensures e / 60000 / 60 == e / 3600000 && e / 60000 / 1440 == e / 86400000
  {
  }

  /**
   * Below a week the status line and `formatRelativeTime` pick the same unit and the same
   * number; they differ only in spelling.
   */
  lemma SameBucketsAsRelativeTime(e: int)
    requires e < DateUtils.WeekMs
    ensures var b, t := DateUtils.Bucket(Some(e)), FormatLastSeen(Some(e));
      && (b == DateUtils.JustNow <==> t == "just now")
      && (b.Minutes? ==> t == Show(b.n) + " minutes ago")
      && (b.Hours? ==> t == Show(b.n) + " hours ago")
      && (b.Days? ==> t == Show(b.n) + " days ago")
  {
  }

  /** The status line: 'Online' unless `lastSeen` is a non-empty string. */
  function Status(participant: ChatParticipant, elapsed: Option<int>): (r: string)
    ensures r == "Online" <==> participant.lastSeen.None? || participant.lastSeen.value == ""
    ensures r != "Online" ==> r == "Last seen " + FormatLastSeen(elapsed)
  {
    var lastSeen := participant.lastSeen;
    if lastSeen.Some? && lastSeen.value != "" then
      var line := "Last seen " + FormatLastSeen(elapsed);
      assert line[0] != "Online"[0];
      line
    else "Online"
  }

  /** The avatar source: the participant's own when it is a non-empty string, the placeholder otherwise. */
  function AvatarUri(participant: ChatParticipant): (r: string)
    ensures r != ""
    ensures r == DefaultAvatar <==> participant.avatar.None? || participant.avatar.value in {"", DefaultAvatar}
  {
    var avatar := participant.avatar;
    if avatar.Some? && avatar.value != "" then avatar.value else DefaultAvatar
  }
}
