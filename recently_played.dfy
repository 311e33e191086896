/** The recently-played list: the response check that guards the track
    list, and the relative "played … ago" label shown beside each track. */
module RecentlyPlayed {
  import opened Wrappers
  import opened Text

  /** One entry of the recently-played payload. */
  datatype Track = Track(
    id: int,
    documentId: string,
    artist: string,
    song: string,
    artworkUrl: Option<string>,
    playedAt: string,
    likes: int)

  /** The `data` member of the reply: an array of tracks or anything else. */
  datatype TracksField = TrackArray(tracks: seq<Track>) | NotAnArray

  /** What the GET on `/api/recently-played` produced: an error (network,
      timeout, HTTP status), or a body with its `success` flag and `data`. */
  datatype RecentReply = RequestFailed | Body(success: bool, data: TracksField)

  /** `getRecentlyPlayed`: the payload's tracks, unchanged and in order,
      exactly when the reply succeeded and carries an array; the empty list
      in every other case, errors included. */
  function GetRecentlyPlayed(reply: RecentReply): (r: seq<Track>)
    ensures reply.Body? && reply.success && reply.data.TrackArray? ==> r == reply.data.tracks
    ensures !(reply.Body? && reply.success && reply.data.TrackArray?) ==> r == []
  {
    match reply
    case Body(true, TrackArray(tracks)) => tracks
    case _ => []
  }

  // Relative played time

  /** `now.getTime() - played.getTime()`: a whole number of milliseconds, or
      `NaN` when the ISO timestamp does not parse. */
  datatype Elapsed = Millis(ms: int) | NotANumber

  /** `Math.floor(diffMs / 60000)`; the divisor is positive, so flooring
      division is exact integer division rounding down. */
  function WholeMinutes(ms: int): (m: int)
    ensures 60000 * m <= ms < 60000 * (m + 1)
  {
    ms / 60000
  }

  /** The label for a whole number of elapsed minutes, following the
      early returns of `formatPlayedTime`. */
  function FormatMinutes(mins: int): string {
    if mins < 1 then "Just now"
    else if mins == 1 then "1 min ago"
    else if mins < 60 then NatToString(mins) + " min ago"
    else
      var hours := mins / 60;
      if hours == 1 then "1 hour ago"
      else if hours < 24 then NatToString(hours) + " hours ago"
      else
        var days := hours / 24;
        if days == 1 then "1 day ago"
        else NatToString(days) + " days ago"
  }

  /** `formatPlayedTime`. With an unparsable timestamp every comparison
      with `NaN` is false, so the last return prints `NaN days ago`. */
  function FormatPlayedTime(diff: Elapsed): (r: string)
    ensures diff.NotANumber? ==> r == "NaN days ago"
    ensures diff.Millis? && diff.ms < 60000 ==> r == "Just now"
  {
    match diff
    case NotANumber => "NaN days ago"
    case Millis(ms) => FormatMinutes(WholeMinutes(ms))
  }

  /** Whole hours of milliseconds, through whole minutes. */
  lemma HoursFromMillis(x: int)
    ensures x / 60000 / 60 == x / 3600000
  {
    var d := x / 60000 / 60;
    assert 3600000 * d <= x < 3600000 * d + 3600000;
  }

  /** Whole days of minutes, through whole hours. */
  lemma DaysFromMinutes(x: int)
    ensures x / 60 / 24 == x / 1440
  {
    var d := x / 60 / 24;
    assert 1440 * d <= x < 1440 * d + 1440;
  }

  /** Whole days of milliseconds, through whole minutes. */
  lemma DaysFromMillis(x: int)
    ensures x / 60000 / 1440 == x / 86400000
  {
    var d := x / 60000 / 1440;
    assert 86400000 * d <= x < 86400000 * d + 86400000;
  }

  /** The label as a function of the elapsed milliseconds: under a minute
      (a future timestamp included) is "Just now", then whole minutes up to
      an hour, whole hours up to a day, and whole days after that, with the
      singular wording for exactly one unit. */
  lemma {:induction false} FormatPlayedTimeBuckets(ms: int)
    ensures var r := FormatPlayedTime(Millis(ms));
      && (ms < 60000 ==> r == "Just now")
      && (60000 <= ms < 120000 ==> r == "1 min ago")
      && (120000 <= ms < 3600000 ==> r == NatToString(ms / 60000) + " min ago")
      && (3600000 <= ms < 7200000 ==> r == "1 hour ago")
      && (7200000 <= ms < 86400000 ==> r == NatToString(ms / 3600000) + " hours ago")
      && (86400000 <= ms < 172800000 ==> r == "1 day ago")
      && (172800000 <= ms ==> r == NatToString(ms / 86400000) + " days ago")
  {
    HoursFromMillis(ms);
    DaysFromMinutes(ms / 60000);
    DaysFromMillis(ms);
  }

  lemma MinAgoChars(p: string)
    ensures var s := p + " min ago"; |s| >= 8 && s[|s| - 5] == 'n'
  {
  }

  lemma HoursAgoChars(p: string)
    ensures var s := p + " hours ago"; |s| >= 10 && s[|s| - 5] == 's' && s[|s| - 6] == 'r'
  {
  }

  lemma DaysAgoChars(p: string)
    ensures var s := p + " days ago"; |s| >= 9 && s[|s| - 5] == 's' && s[|s| - 6] == 'y'
  {
  }

  lemma CancelSuffix(a: string, b: string, u: string)
    requires a + u == b + u
    ensures a == b
  {
    assert a == (a + u)[..|a|];
    assert b == (b + u)[..|b|];
  }

  /** The number printed in a label is the count of whole units elapsed:
      reading it back from a minutes, hours or days label recovers the
      elapsed minutes to within that unit. */
  lemma {:induction false} ShownCountIsWholeUnits(m: int, n: nat)
    ensures FormatMinutes(m) == NatToString(n) + " min ago" ==> 1 <= n < 60 && m == n
    ensures FormatMinutes(m) == NatToString(n) + " hours ago" ==> 2 <= n < 24 && 60 * n <= m < 60 * (n + 1)
    ensures FormatMinutes(m) == NatToString(n) + " days ago" ==> 2 <= n && 1440 * n <= m < 1440 * (n + 1)
  {
    var shown := NatToString(n);
    if FormatMinutes(m) == shown + " min ago" {
      MinutesShown(m, n);
    }
    if FormatMinutes(m) == shown + " hours ago" {
      HoursShown(m, n);
    }
    if FormatMinutes(m) == shown + " days ago" {
      DaysShown(m, n);
    }
  }

  lemma MinutesShown(m: int, n: nat)
    requires FormatMinutes(m) == NatToString(n) + " min ago"
    ensures 1 <= n < 60 && m == n
  {
    var shown := NatToString(n);
    var h, d := m / 60, m / 60 / 24;
    MinAgoChars(shown);
    if m == 1 {
      CancelSuffix("1", shown, " min ago");
      assert "1" == NatToString(1);
      NatToStringInjective(1, n);
    } else if 1 < m < 60 {
      CancelSuffix(NatToString(m), shown, " min ago");
      NatToStringInjective(m, n);
    } else if 60 <= m && h != 1 && h < 24 {
      HoursAgoChars(NatToString(h));
    } else if 60 <= m && 24 <= h && d != 1 {
      DaysAgoChars(NatToString(d));
    }
  }

  lemma HoursShown(m: int, n: nat)
    requires FormatMinutes(m) == NatToString(n) + " hours ago"
    ensures 2 <= n < 24 && 60 * n <= m < 60 * (n + 1)
  {
    var shown := NatToString(n);
    var h, d := m / 60, m / 60 / 24;
    HoursAgoChars(shown);
    if 1 < m < 60 {
      MinAgoChars(NatToString(m));
    } else if 60 <= m && h != 1 && h < 24 {
      CancelSuffix(NatToString(h), shown, " hours ago");
      NatToStringInjective(h, n);
    } else if 60 <= m && 24 <= h && d != 1 {
      DaysAgoChars(NatToString(d));
    }
  }

  lemma DaysShown(m: int, n: nat)
    requires FormatMinutes(m) == NatToString(n) + " days ago"
    ensures 2 <= n && 1440 * n <= m < 1440 * (n + 1)
  {
    var shown := NatToString(n);
    var h, d := m / 60, m / 60 / 24;
    DaysAgoChars(shown);
    DaysFromMinutes(m);
    if 1 < m < 60 {
      MinAgoChars(NatToString(m));
    } else if 60 <= m && h != 1 && h < 24 {
      HoursAgoChars(NatToString(h));
    } else if 60 <= m && 24 <= h && d != 1 {
      CancelSuffix(NatToString(d), shown, " days ago");
      NatToStringInjective(d, n);
    }
  }
}
