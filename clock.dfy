/** The caption time stamp: `HH:MM:SS,000` for a number of seconds counted
    from the start of the recording. */
module Clock {
  import opened Wrappers
  import opened Digits

  const SecondsPerDay := 86400

  /** Two zero-padded digits. */
  function Pad2(n: nat): (r: string)
    requires n < 100
    ensures |r| == 2 && AllDigits(r) && Value(r) == n
  {
    var r := [DigitChar(n / 10), DigitChar(n % 10)];
    assert r[..1][..0] == [];
    assert Value(r[..1]) == n / 10;
    assert r[..|r| - 1] == r[..1];
    r
  }

  /** formatTime: the time of day reached `seconds` seconds after midnight,
      zero padded, with the milliseconds always `000`. Only the time of day
      survives, so the hour wraps modulo 24. */
  function FormatTime(seconds: int): (r: string)
    ensures |r| == 12
    ensures r[2] == ':' && r[5] == ':' && r[8..] == ",000"
    ensures AllDigits(r[0..2]) && AllDigits(r[3..5]) && AllDigits(r[6..8])
    ensures Value(r[0..2]) == (seconds / 3600) % 24
    ensures Value(r[3..5]) == (seconds / 60) % 60
    ensures Value(r[6..8]) == seconds % 60
  {
    var hh, mm, ss := Pad2((seconds / 3600) % 24), Pad2((seconds / 60) % 60), Pad2(seconds % 60);
    var r := hh + ":" + mm + ":" + ss + ",000";
    assert r[0..2] == hh && r[3..5] == mm && r[6..8] == ss;
    r
  }

  /** Reads a stamp of the form FormatTime produces back into the second of
      the day it names; anything else is refused. */
  function ParseTime(t: string): (r: Option<nat>)
    ensures r.Some? ==> r.value < SecondsPerDay
  {
    if |t| == 12 && t[2] == ':' && t[5] == ':' && t[8..] == ",000"
       && AllDigits(t[0..2]) && AllDigits(t[3..5]) && AllDigits(t[6..8])
       && Value(t[0..2]) < 24 && Value(t[3..5]) < 60 && Value(t[6..8]) < 60
    then Some(Value(t[0..2]) * 3600 + Value(t[3..5]) * 60 + Value(t[6..8]))
    else None
  }

  /** The three fields of a stamp together name the second of the day. */
  lemma TimeOfDaySplit(s: int)
    ensures ((s / 3600) % 24) * 3600 + ((s / 60) % 60) * 60 + s % 60 == s % SecondsPerDay
  {
    var q, sec := s / 60, s % 60;
    assert s == 60 * q + sec;
    var p, m := q / 60, q % 60;
    assert q == 60 * p + m;
    assert s == 3600 * p + (60 * m + sec);
    assert s / 3600 == p;
    var t, h := p / 24, p % 24;
    assert p == 24 * t + h;
    assert s == SecondsPerDay * t + (3600 * h + 60 * m + sec);
  }

  /** Parsing a stamp gives back the time of day it was made from. */
  lemma FormatTimeRoundTrip(s: int)
    ensures ParseTime(FormatTime(s)) == Some(s % SecondsPerDay)
  {
    TimeOfDaySplit(s);
  }

  /** Within the first day the stamp shows the elapsed hours, minutes and
      seconds themselves. */
  lemma FormatTimeWithinDay(s: int)
    requires 0 <= s < SecondsPerDay
    ensures var r := FormatTime(s);
      Value(r[0..2]) == s / 3600 && Value(r[3..5]) == (s / 60) % 60 && Value(r[6..8]) == s % 60
  {
  }

  /** Two stamps agree exactly when the two times fall on the same second of
      the day: past one day the stamp wraps around. */
  lemma FormatTimeEqualIff(a: int, b: int)
    ensures FormatTime(a) == FormatTime(b) <==> a % SecondsPerDay == b % SecondsPerDay
  {
    FormatTimeRoundTrip(a);
    FormatTimeRoundTrip(b);
    if a % SecondsPerDay == b % SecondsPerDay {
      SameTimeOfDay(a, b);
    }
  }

  lemma SameTimeOfDay(a: int, b: int)
    requires a % SecondsPerDay == b % SecondsPerDay
    ensures FormatTime(a) == FormatTime(b)
  {
    var ra, rb := FormatTime(a), FormatTime(b);
    FieldsOfDay(a);
    FieldsOfDay(b);
    TwoDigitsEqual(ra[0..2], rb[0..2]);
    TwoDigitsEqual(ra[3..5], rb[3..5]);
    TwoDigitsEqual(ra[6..8], rb[6..8]);
    assert ra == ra[0..2] + ":" + ra[3..5] + ":" + ra[6..8] + ",000";
    assert rb == rb[0..2] + ":" + rb[3..5] + ":" + rb[6..8] + ",000";
  }

  /** Each field of a stamp depends only on the second of the day. */
  lemma FieldsOfDay(s: int)
    ensures (s / 3600) % 24 == (s % SecondsPerDay) / 3600
    ensures (s / 60) % 60 == ((s % SecondsPerDay) / 60) % 60
    ensures s % 60 == (s % SecondsPerDay) % 60
  {
    var d, r := s / SecondsPerDay, s % SecondsPerDay;
    assert s == SecondsPerDay * d + r;
    assert s / 3600 == 24 * d + r / 3600;
    assert s / 60 == 1440 * d + r / 60;
  }

  lemma TwoDigitsEqual(x: string, y: string)
    requires |x| == 2 && |y| == 2 && AllDigits(x) && AllDigits(y) && Value(x) == Value(y)
    ensures x == y
  {
    assert x[..1][..0] == [] && y[..1][..0] == [];
  }
}
