/**
 * `formatTimeAgo` of src/state/mockStore.ts: how long ago a bus left its
 * last stop, in whole minutes below an hour and whole hours above.
 *
 * The clock and the date parser are parameters: `now` is `Date.now()` and
 * `departedAt` is `new Date(iso).getTime()`, both in milliseconds, with
 * `None` for a text the parser rejects (JavaScript's NaN).
 */
module TimeAgo {
  import opened Wrappers

  const MillisPerMinute: int := 60000
  const MinutesPerHour: int := 60

  function DigitChar(d: int): (c: char)
    requires 0 <= d < 10
    ensures c as int - '0' as int == d
  {
    "0123456789"[d]
  }

  /** JavaScript's text for a non-negative integer: decimal, no leading zero. */
  function Decimal(n: nat): (r: string)
    ensures |r| >= 1
    ensures forall i :: 0 <= i < |r| ==> '0' <= r[i] <= '9'
    ensures r[0] == '0' ==> n == 0
  {
    if n < 10 then [DigitChar(n)] else Decimal(n / 10) + [DigitChar(n % 10)]
  }

  /** The number a string of decimal digits denotes. */
  function ValueOf(s: string): nat
    requires forall i :: 0 <= i < |s| ==> '0' <= s[i] <= '9'
  {
    if s == [] then 0 else ValueOf(s[..|s| - 1]) * 10 + (s[|s| - 1] as int - '0' as int)
  }

  /** Reading the digits back gives the number that was written. */
  lemma {:induction false} DecimalRoundTrip(n: nat)
    ensures ValueOf(Decimal(n)) == n
  {
    var r := Decimal(n);
    if n < 10 {
      assert r[..|r| - 1] == [];
    } else {
      DecimalRoundTrip(n / 10);
      assert r[..|r| - 1] == Decimal(n / 10);
      assert r[|r| - 1] as int - '0' as int == n % 10;
    }
  }

  /** `formatTimeAgo(iso)`. */
  function FormatTimeAgo(iso: Option<string>, departedAt: Option<int>, now: int): (r: string)
    ensures r == "Never" <==> iso.None? || iso.value == ""
  {
    if iso.None? || iso.value == "" then "Never"
    else if departedAt.None? then "NaNh ago"
    else
      var mins := (now - departedAt.value) / MillisPerMinute;  // Math.floor: the divisor is positive
      if mins < 1 then "Just now"
      else
        var count := if mins < MinutesPerHour then Decimal(mins) else Decimal(mins / MinutesPerHour);
        var r := count + (if mins < MinutesPerHour then "m ago" else "h ago");
        assert r[0] == count[0] && '0' <= r[0] <= '9';
        r
  }

  /**
   * The buckets by elapsed time alone: under a minute (or in the future) is
   * "Just now"; from one minute to under an hour, the whole minutes m with
   * m minutes <= elapsed < m + 1 minutes; from an hour on, the whole hours
   * h with h hours <= elapsed < h + 1 hours.
   */
  lemma {:induction false} FormatTimeAgoBuckets(iso: string, departedAt: int, now: int)
    requires iso != ""
    ensures var elapsed := now - departedAt;
      var text := FormatTimeAgo(Some(iso), Some(departedAt), now);
      && (elapsed < 60000 ==> text == "Just now")
      && (60000 <= elapsed < 3600000 ==>
            exists m :: 1 <= m < 60 && m * 60000 <= elapsed < (m + 1) * 60000 && text == Decimal(m) + "m ago")
      && (elapsed >= 3600000 ==>
            exists h :: h >= 1 && h * 3600000 <= elapsed < (h + 1) * 3600000 && text == Decimal(h) + "h ago")
  {
    var elapsed := now - departedAt;
    var text := FormatTimeAgo(Some(iso), Some(departedAt), now);
    var mins := elapsed / 60000;
    assert mins * 60000 <= elapsed < (mins + 1) * 60000;
    if 60000 <= elapsed < 3600000 {
      assert 1 <= mins < 60;
      assert text == Decimal(mins) + "m ago";
    }
    if elapsed >= 3600000 {
      assert mins >= 60;
      var h := mins / 60;
      assert h * 60 <= mins < (h + 1) * 60;
      HoursBounds(elapsed, mins, h);
      assert text == Decimal(h) + "h ago";
    }
  }

  /** Whole hours from whole minutes: flooring twice is flooring once by the hour. */
  lemma {:induction false} HoursBounds(elapsed: int, mins: int, h: int)
    requires mins * 60000 <= elapsed < (mins + 1) * 60000
    requires h * 60 <= mins < (h + 1) * 60
    ensures h * 3600000 <= elapsed < (h + 1) * 3600000
  {
    assert h * 3600000 == (h * 60) * 60000;
    assert (h + 1) * 3600000 == ((h + 1) * 60) * 60000;
    assert (h * 60) * 60000 <= mins * 60000;
    assert (mins + 1) * 60000 <= ((h + 1) * 60) * 60000;
  }

  /** Without a usable time there is no duration: "Never" for no text, JavaScript's NaN for bad text. */
  lemma {:induction false} FormatTimeAgoNoTime(iso: Option<string>, now: int)
    ensures FormatTimeAgo(None, None, now) == "Never"
    ensures FormatTimeAgo(Some(""), None, now) == "Never"
    ensures iso.Some? && iso.value != "" ==> FormatTimeAgo(iso, None, now) == "NaNh ago"
  {
  }
}
