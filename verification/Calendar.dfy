/**
 UTC date and time as cabin writes them into columns, and why comparing the text
 is comparing the time (ca/certs.py, `_iso`).
 */
module Calendar {

  // ----- the Gregorian calendar, second by second -----------------------------------

  datatype Civil = Civil(year: nat, month: nat, day: nat, hour: nat, minute: nat, second: nat)

  predicate IsLeap(year: nat)
  {
    year % 4 == 0 && (year % 100 != 0 || year % 400 == 0)
  }

  function DaysIn(year: nat, month: nat): nat
  {
    if month == 2 then (if IsLeap(year) then 29 else 28)
    else if month in {4, 6, 9, 11} then 30
    else 31
  }

  predicate Proper(c: Civil)
  {
    && 1 <= c.month <= 12 && 1 <= c.day <= DaysIn(c.year, c.month)
    && c.hour < 24 && c.minute < 60 && c.second < 60
  }

  function NextSecond(c: Civil): Civil
  {
    if c.second < 59 then c.(second := c.second + 1)
    else if c.minute < 59 then c.(minute := c.minute + 1, second := 0)
    else if c.hour < 23 then c.(hour := c.hour + 1, minute := 0, second := 0)
    else if c.day < DaysIn(c.year, c.month) then c.(day := c.day + 1, hour := 0, minute := 0, second := 0)
    else if c.month < 12 then c.(month := c.month + 1, day := 1, hour := 0, minute := 0, second := 0)
    else Civil(c.year + 1, 1, 1, 0, 0, 0)
  }

  /** The date and time `n` seconds after the start of the year 1. */
  function CivilAt(n: nat): Civil
  {
    if n == 0 then Civil(1, 1, 1, 0, 0, 0) else NextSecond(CivilAt(n - 1))
  }

  predicate Before(a: Civil, b: Civil)
  {
    a.year < b.year || (a.year == b.year && (
    a.month < b.month || (a.month == b.month && (
    a.day < b.day || (a.day == b.day && (
    a.hour < b.hour || (a.hour == b.hour && (
    a.minute < b.minute || (a.minute == b.minute && a.second < b.second)))))))))
  }

  lemma {:induction false} CivilIsProper(n: nat)
    ensures Proper(CivilAt(n))
  {
    if n > 0 {
      CivilIsProper(n - 1);
    }
  }

  lemma {:induction false} LaterIsLater(m: nat, n: nat)
    requires m < n
    ensures Before(CivilAt(m), CivilAt(n))
  {
    CivilIsProper(n - 1);
    if m < n - 1 {
      LaterIsLater(m, n - 1);
    }
  }

  // ----- the text ---------------------------------------------------------------------

  function Digit(n: nat): char
    requires n < 10
  {
    ('0' as int + n) as char
  }

  function Two(n: nat): string
    requires n < 100
  {
    [Digit(n / 10), Digit(n % 10)]
  }

  function Four(n: nat): string
    requires n < 10000
  {
    Two(n / 100) + Two(n % 100)
  }

  /** The layout of `isoformat` for a UTC time in whole seconds. */
  function Iso(c: Civil): string
    requires Proper(c) && c.year < 10000
  {
    Four(c.year) + ("-" + (Two(c.month) + ("-" + (Two(c.day) + ("T" +
    (Two(c.hour) + (":" + (Two(c.minute) + (":" + (Two(c.second) + "+00:00"))))))))))
  }

  /** How a database orders two texts of these characters. */
  predicate Less(a: string, b: string)
  {
    b != "" && (a == "" || a[0] < b[0] || (a[0] == b[0] && Less(a[1..], b[1..])))
  }

  lemma LessAfterChar(x: char, y: char, s: string, t: string)
    ensures Less([x] + s, [y] + t) <==> x < y || (x == y && Less(s, t))
  {
    assert ([x] + s)[1..] == s && ([y] + t)[1..] == t;
  }

  lemma LessAfterSame(x: string, s: string, t: string)
    requires |x| == 1
    ensures Less(x + s, x + t) <==> Less(s, t)
  {
    assert x == [x[0]];
    LessAfterChar(x[0], x[0], s, t);
  }

  lemma LessAfterTwo(m: nat, n: nat, s: string, t: string)
    requires m < 100 && n < 100
    ensures Less(Two(m) + s, Two(n) + t) <==> m < n || (m == n && Less(s, t))
  {
    assert Two(m) + s == [Digit(m / 10)] + ([Digit(m % 10)] + s);
    assert Two(n) + t == [Digit(n / 10)] + ([Digit(n % 10)] + t);
    LessAfterChar(Digit(m % 10), Digit(n % 10), s, t);
    LessAfterChar(Digit(m / 10), Digit(n / 10), [Digit(m % 10)] + s, [Digit(n % 10)] + t);
  }

  lemma LessAfterFour(m: nat, n: nat, s: string, t: string)
    requires m < 10000 && n < 10000
    ensures Less(Four(m) + s, Four(n) + t) <==> m < n || (m == n && Less(s, t))
  {
    hide Less, Two;
    assert Four(m) + s == Two(m / 100) + (Two(m % 100) + s);
    assert Four(n) + t == Two(n / 100) + (Two(n % 100) + t);
    LessAfterTwo(m % 100, n % 100, s, t);
    LessAfterTwo(m / 100, n / 100, Two(m % 100) + s, Two(n % 100) + t);
  }

  lemma {:induction false} NotLessThanItself(s: string)
    ensures !Less(s, s)
  {
    if s != "" {
      NotLessThanItself(s[1..]);
    }
  }

  function Clock(c: Civil): string
    requires Proper(c)
  {
    "T" + (Two(c.hour) + (":" + (Two(c.minute) + (":" + (Two(c.second) + "+00:00")))))
  }

  lemma ClockOrder(a: Civil, b: Civil)
    requires Proper(a) && Proper(b)
    ensures Less(Clock(a), Clock(b))
       <==> a.hour < b.hour || (a.hour == b.hour && (a.minute < b.minute || (a.minute == b.minute && a.second < b.second)))
  {
    hide Less, Two;
    var sa, sb := Two(a.second) + "+00:00", Two(b.second) + "+00:00";
    var ma, mb := Two(a.minute) + (":" + sa), Two(b.minute) + (":" + sb);
    var ha, hb := Two(a.hour) + (":" + ma), Two(b.hour) + (":" + mb);
    NotLessThanItself("+00:00");
    LessAfterTwo(a.second, b.second, "+00:00", "+00:00");
    LessAfterSame(":", sa, sb);
    LessAfterTwo(a.minute, b.minute, ":" + sa, ":" + sb);
    LessAfterSame(":", ma, mb);
    LessAfterTwo(a.hour, b.hour, ":" + ma, ":" + mb);
    LessAfterSame("T", ha, hb);
  }

  lemma IsoOrder(a: Civil, b: Civil)
    requires Proper(a) && Proper(b) && a.year < 10000 && b.year < 10000
    ensures Less(Iso(a), Iso(b)) <==> Before(a, b)
  {
    hide Less, Two, Four, Clock;
    var ca, cb := Clock(a), Clock(b);
    IsoEndsInClock(a);
    IsoEndsInClock(b);
    var da, db := Two(a.day) + ca, Two(b.day) + cb;
    var ma, mb := Two(a.month) + ("-" + da), Two(b.month) + ("-" + db);
    ClockOrder(a, b);
    LessAfterTwo(a.day, b.day, ca, cb);
    LessAfterSame("-", da, db);
    LessAfterTwo(a.month, b.month, "-" + da, "-" + db);
    LessAfterSame("-", ma, mb);
    LessAfterFour(a.year, b.year, "-" + ma, "-" + mb);
  }

  lemma IsoEndsInClock(c: Civil)
    requires Proper(c) && c.year < 10000
    ensures Iso(c) == Four(c.year) + ("-" + (Two(c.month) + ("-" + (Two(c.day) + Clock(c)))))
  {
  }

  // ----- instants ----------------------------------------------------------------------

  /** The column value for a time in whole seconds. */
  function IsoAt(n: nat): string
    requires CivilAt(n).year < 10000
  {
    CivilIsProper(n);
    Iso(CivilAt(n))
  }

  /** Text order is time order, for every two times a column can hold. */
  lemma TextOrderIsTimeOrder(m: nat, n: nat)
    requires CivilAt(m).year < 10000 && CivilAt(n).year < 10000
    ensures Less(IsoAt(m), IsoAt(n)) <==> m < n
  {
    hide Iso, Less;
    CivilIsProper(m);
    CivilIsProper(n);
    IsoOrder(CivilAt(m), CivilAt(n));
    if m < n {
      LaterIsLater(m, n);
    } else if n < m {
      LaterIsLater(n, m);
    }
  }
}
