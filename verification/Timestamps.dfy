/**
The repository compares expiry times as strings. This module shows that for four-digit years the
string order of "YYYY-MM-DD HH:MM:SS" is the order of the instants, which is how the lease protocol,
whose times are seconds, reads the comparison.
*/
module Timestamps {
  import opened Prelude
  import opened LeaseTable

  datatype Stamp = Stamp(year: nat, month: nat, day: nat, hour: nat, minute: nat, second: nat)

  predicate Leap(year: nat) {
    year % 4 == 0 && (year % 100 != 0 || year % 400 == 0)
  }

  function DaysInMonth(year: nat, month: nat): nat {
    if month == 2 then (if Leap(year) then 29 else 28)
    else if month in {4, 6, 9, 11} then 30
    else 31
  }

  predicate Valid(t: Stamp) {
    t.year <= 9999 && 1 <= t.month <= 12 && 1 <= t.day <= DaysInMonth(t.year, t.month) &&
    t.hour <= 23 && t.minute <= 59 && t.second <= 59
  }

  // ----- instants -----

  function DaysBeforeMonth(year: nat, month: nat): nat {
    if month <= 1 then 0 else DaysBeforeMonth(year, month - 1) + DaysInMonth(year, month - 1)
  }

  function DaysBeforeYear(year: nat): nat {
    if year == 0 then 0 else DaysBeforeYear(year - 1) + DaysBeforeMonth(year - 1, 13)
  }

  function Days(t: Stamp): int {
    DaysBeforeYear(t.year) + DaysBeforeMonth(t.year, t.month) + t.day
  }

  /** Seconds since the start of year 0. */
  function Seconds(t: Stamp): int {
    ((Days(t) * 24 + t.hour) * 60 + t.minute) * 60 + t.second
  }

  lemma {:induction false} MonthsAdvance(year: nat, m: nat, n: nat)
    requires 1 <= m < n
    ensures DaysBeforeMonth(year, m) + DaysInMonth(year, m) <= DaysBeforeMonth(year, n)
  {
    if m < n - 1 {
      MonthsAdvance(year, m, n - 1);
    }
  }

  lemma {:induction false} YearsAdvance(y: nat, z: nat)
    requires y < z
    ensures DaysBeforeYear(y) + DaysBeforeMonth(y, 13) <= DaysBeforeYear(z)
  {
    if y < z - 1 {
      YearsAdvance(y, z - 1);
    }
  }

  lemma LaterDate(a: Stamp, b: Stamp)
    requires Valid(a) && Valid(b)
    requires a.year < b.year || (a.year == b.year && (a.month < b.month || (a.month == b.month && a.day < b.day)))
    ensures Days(a) < Days(b)
  {
    if a.year < b.year {
      YearsAdvance(a.year, b.year);
      MonthsAdvance(a.year, a.month, 13);
    } else if a.month < b.month {
      MonthsAdvance(a.year, a.month, b.month);
    }
  }

  // ----- text -----

  /** The order of < on strings. */
  predicate LexLess(s: string, t: string) {
    t != "" && (s == "" || s[0] < t[0] || (s[0] == t[0] && LexLess(s[1..], t[1..])))
  }

  predicate LexLe(s: string, t: string) {
    s == t || LexLess(s, t)
  }

  function Digit(n: nat): char
    requires n < 10
  {
    '0' + n as char
  }

  function Pad2(n: nat): (r: string)
    requires n < 100
    ensures |r| == 2
  {
    [Digit(n / 10), Digit(n % 10)]
  }

  /** toISOString().slice(0, 19) with a space for the T */
  function Format(t: Stamp): (r: string)
    requires Valid(t)
  {
    Pad2(t.year / 100) + (Pad2(t.year % 100) + ("-" + (Pad2(t.month) + ("-" + (Pad2(t.day) +
    (" " + (Pad2(t.hour) + (":" + (Pad2(t.minute) + (":" + Pad2(t.second)))))))))))
  }

  lemma PadOrder(a: nat, b: nat, s: string, t: string)
    requires a < 100 && b < 100
    ensures LexLess(Pad2(a) + s, Pad2(b) + t) <==> a < b || (a == b && LexLess(s, t))
    ensures Pad2(a) + s == Pad2(b) + t <==> a == b && s == t
  {
    var x, y := Pad2(a) + s, Pad2(b) + t;
    assert x[1..][1..] == s && y[1..][1..] == t;
    assert x == [x[0], x[1]] + x[1..][1..] && y == [y[0], y[1]] + y[1..][1..];
    assert Digit(a / 10) == Digit(b / 10) <==> a / 10 == b / 10;
  }

  lemma SeparatorOrder(c: char, s: string, t: string)
    ensures LexLess([c] + s, [c] + t) <==> LexLess(s, t)
    ensures [c] + s == [c] + t <==> s == t
  {
    assert ([c] + s)[1..] == s && ([c] + t)[1..] == t;
  }

  lemma TimeOrder(a: Stamp, b: Stamp)
    requires Valid(a) && Valid(b)
    ensures var s, t := TimeText(a), TimeText(b);
            var m, n := (a.hour * 60 + a.minute) * 60 + a.second, (b.hour * 60 + b.minute) * 60 + b.second;
            (LexLess(s, t) <==> m < n) && (s == t <==> m == n)
  {
    PadOrder(a.second, b.second, "", "");
    assert Pad2(a.second) + "" == Pad2(a.second) && Pad2(b.second) + "" == Pad2(b.second);
    SeparatorOrder(':', Pad2(a.second), Pad2(b.second));
    PadOrder(a.minute, b.minute, ":" + Pad2(a.second), ":" + Pad2(b.second));
    SeparatorOrder(':', Pad2(a.minute) + (":" + Pad2(a.second)), Pad2(b.minute) + (":" + Pad2(b.second)));
    PadOrder(a.hour, b.hour, ":" + (Pad2(a.minute) + (":" + Pad2(a.second))),
             ":" + (Pad2(b.minute) + (":" + Pad2(b.second))));
  }

  function TimeText(t: Stamp): string
    requires Valid(t)
  {
    Pad2(t.hour) + (":" + (Pad2(t.minute) + (":" + Pad2(t.second))))
  }

  /** Sorting the texts is sorting the instants. */
  lemma TextOrderIsTimeOrder(a: Stamp, b: Stamp)
    requires Valid(a) && Valid(b)
    ensures LexLe(Format(a), Format(b)) <==> Seconds(a) <= Seconds(b)
    ensures Format(a) == Format(b) <==> a == b
  {
    TimeOrder(a, b);
    var s, t := TimeText(a), TimeText(b);
    SeparatorOrder(' ', s, t);
    PadOrder(a.day, b.day, " " + s, " " + t);
    SeparatorOrder('-', Pad2(a.day) + (" " + s), Pad2(b.day) + (" " + t));
    var s1, t1 := "-" + (Pad2(a.day) + (" " + s)), "-" + (Pad2(b.day) + (" " + t));
    PadOrder(a.month, b.month, s1, t1);
    SeparatorOrder('-', Pad2(a.month) + s1, Pad2(b.month) + t1);
    var s2, t2 := "-" + (Pad2(a.month) + s1), "-" + (Pad2(b.month) + t1);
    PadOrder(a.year % 100, b.year % 100, s2, t2);
    PadOrder(a.year / 100, b.year / 100, Pad2(a.year % 100) + s2, Pad2(b.year % 100) + t2);
    if a.year != b.year || a.month != b.month || a.day != b.day {
      if a.year < b.year || (a.year == b.year && (a.month < b.month || (a.month == b.month && a.day < b.day))) {
        LaterDate(a, b);
      } else {
        LaterDate(b, a);
      }
    }
  }

  /** isExpiredPendingReservation, on the texts it really compares. */
  predicate TextExpired(expiresAt: Option<string>, now: string) {
    expiresAt.None? || LexLe(expiresAt.value, now)
  }

  /** The text comparison and the comparison of seconds in the protocol agree. */
  lemma TextExpiryIsExpiry(expiresAt: Stamp, now: Stamp)
    requires Valid(expiresAt) && Valid(now)
    ensures TextExpired(Some(Format(expiresAt)), Format(now)) <==>
            (Seconds(expiresAt) >= 0 && Seconds(now) >= 0 && Expired(Some(Seconds(expiresAt)), Seconds(now)))
  {
    TextOrderIsTimeOrder(expiresAt, now);
  }
}
