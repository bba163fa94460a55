/**
 * The proleptic Gregorian calendar as Python's `datetime.date` and
 * `calendar.monthrange` see it, the month walk shared by the CSV generator and
 * the CSV query server, and the canonical `YYYY-MM-DD` text form.
 */
module Calendar {

  import opened Wrappers
  import opened Text

  datatype Date = Date(year: int, month: int, day: int)

  predicate IsLeap(y: int) {
    y % 4 == 0 && (y % 100 != 0 || y % 400 == 0)
  }

  /** `calendar.monthrange(y, m)[1]`. */
  function DaysInMonth(y: int, m: int): (n: nat)
    requires 1 <= m <= 12
    ensures 28 <= n <= 31
    ensures n == 29 <==> m == 2 && IsLeap(y)
  {
    if m == 2 then (if IsLeap(y) then 29 else 28)
    else if m == 4 || m == 6 || m == 9 || m == 11 then 30
    else 31
  }

  /** A value `datetime.date` accepts. */
  predicate ValidDate(d: Date) {
    && 1 <= d.year <= 9999
    && 1 <= d.month <= 12
    && 1 <= d.day <= DaysInMonth(d.year, d.month)
  }

  /** Chronological order on dates. */
  predicate DateLt(a: Date, b: Date) {
    a.year < b.year
    || (a.year == b.year && (a.month < b.month || (a.month == b.month && a.day < b.day)))
  }

  // ---------------------------------------------------------------------------
  // Month walk
  // ---------------------------------------------------------------------------

  /** Months counted from year 0: consecutive months have consecutive indices. */
  function MonthIndex(y: int, m: int): int {
    12 * y + (m - 1)
  }

  /** The (year, month) with the given index. */
  function MonthAt(k: int): (ym: (int, int))
    ensures 1 <= ym.1 <= 12
    ensures MonthIndex(ym.0, ym.1) == k
  {
    (k / 12, k % 12 + 1)
  }

  lemma MonthAtIndex(y: int, m: int)
    requires 1 <= m <= 12
    ensures MonthAt(MonthIndex(y, m)) == (y, m)
  {
    var k := MonthIndex(y, m);
    assert k == 12 * y + (m - 1) && 0 <= m - 1 < 12;
    assert k / 12 == y && k % 12 == m - 1;
  }

  /** The step both loops take: December rolls over to January. */
  function NextMonth(y: int, m: int): (int, int) {
    if m == 12 then (y + 1, 1) else (y, m + 1)
  }

  /**
   * Every (year, month) from the start month to the end month inclusive, in
   * ascending order; nothing when the start is after the end. Written as the
   * source's loop: emit while (y, m) is not past the end, then step.
   */
  function MonthsRange(sy: int, sm: int, ey: int, em: int): (r: seq<(int, int)>)
    requires 1 <= sm <= 12 && 1 <= em <= 12
    ensures |r| == if MonthIndex(ey, em) >= MonthIndex(sy, sm)
                   then MonthIndex(ey, em) - MonthIndex(sy, sm) + 1 else 0
    ensures forall k :: 0 <= k < |r| ==> r[k] == MonthAt(MonthIndex(sy, sm) + k)
    decreases MonthIndex(ey, em) - MonthIndex(sy, sm) + 1
  {
    if sy < ey || (sy == ey && sm <= em) then
      var next := NextMonth(sy, sm);
      var rest := MonthsRange(next.0, next.1, ey, em);
      MonthAtIndex(sy, sm);
      [(sy, sm)] + rest
    else
      []
  }

  // ---------------------------------------------------------------------------
  // YYYY-MM-DD
  // ---------------------------------------------------------------------------

  /** `date.isoformat()`. */
  function IsoDate(d: Date): (s: string)
    requires ValidDate(d)
    ensures |s| == 10
  {
    ZeroPadExact(d.year, 4);
    ZeroPadExact(d.month, 2);
    ZeroPadExact(d.day, 2);
    ZeroPad(d.year, 4) + "-" + ZeroPad(d.month, 2) + "-" + ZeroPad(d.day, 2)
  }

  lemma NatToStringShort(n: nat)
    ensures n < 100 ==> |NatToString(n)| <= 2
    ensures n < 10000 ==> |NatToString(n)| <= 4
  {
    if n >= 10 {
      NatToStringShort(n / 10);
    }
  }

  /** A number of at most `w` digits pads to exactly `w` characters. */
  lemma ZeroPadExact(n: nat, w: nat)
    requires (w == 2 && n < 100) || (w == 4 && n < 10000)
    ensures |ZeroPad(n, w)| == w
  {
    NatToStringShort(n);
  }

  /** A digit string of width `w` is the zero-padded rendering of its value. */
  lemma {:induction false} ZeroPadOfDigits(s: string, w: nat)
    requires |s| == w >= 1 && AllDigits(s)
    ensures ZeroPad(DigitsValue(s), w) == s
    decreases w
  {
    if w >= 2 && s[0] == '0' {
      var t := s[1..];
      assert s == ['0'] + t;
      LeadingZeroValue(t);
      ZeroPadOfDigits(t, w - 1);
      var v := DigitsValue(t);
      var d := NatToString(v);
      assert |d| <= w - 1;
      assert ZeroesThen(w - 1 - |d|, d) == t;
      assert ZeroPad(v, w) == ZeroesThen(w - |d|, d) == ['0'] + ZeroesThen(w - 1 - |d|, d);
    } else {
      CanonicalDigits(s);
    }
  }

  /** `datetime.strptime(s, "%Y-%m-%d").date()` on canonical input: four,
      two and two digits separated by hyphens, naming an existing day. */
  function ParseIsoDate(s: string): (r: Option<Date>)
    ensures r.Some? ==> ValidDate(r.value)
  {
    if |s| == 10 && s[4] == '-' && s[7] == '-'
       && AllDigits(s[..4]) && AllDigits(s[5..7]) && AllDigits(s[8..])
    then
      var d := Date(DigitsValue(s[..4]), DigitsValue(s[5..7]), DigitsValue(s[8..]));
      if ValidDate(d) then Some(d) else None
    else None
  }

  /** Formatting then parsing gives the date back. */
  lemma ParseIsoOfFormat(d: Date)
    requires ValidDate(d)
    ensures ParseIsoDate(IsoDate(d)) == Some(d)
  {
    var s := IsoDate(d);
    assert s[..4] == ZeroPad(d.year, 4);
    assert s[5..7] == ZeroPad(d.month, 2);
    assert s[8..] == ZeroPad(d.day, 2);
  }

  /** Parsing succeeds only on the canonical rendering of the parsed date. */
  lemma FormatOfParseIso(s: string)
    requires ParseIsoDate(s).Some?
    ensures IsoDate(ParseIsoDate(s).value) == s
  {
    ZeroPadOfDigits(s[..4], 4);
    ZeroPadOfDigits(s[5..7], 2);
    ZeroPadOfDigits(s[8..], 2);
    assert s == s[..4] + "-" + s[5..7] + "-" + s[8..];
  }

  /** Comparing two canonical ISO dates as text compares them in time:
      the text of the earlier-or-equal date is the smaller-or-equal text. */
  lemma IsoTextOrder(s: string, t: string)
    requires ParseIsoDate(s).Some? && ParseIsoDate(t).Some?
    ensures StrLe(s, t) <==> !DateLt(ParseIsoDate(t).value, ParseIsoDate(s).value)
  {
    var ys, yt := s[..4], t[..4];
    var ms, mt := s[5..7], t[5..7];
    var ds, dt := s[8..], t[8..];
    // year
    assert s == ys + s[4..] && t == yt + t[4..];
    StrLeConcat(ys, yt, s[4..], t[4..]);
    DigitsOrder(ys, yt);
    DigitsEqual(ys, yt);
    // hyphen and month
    assert s[4..] == s[4..7] + s[7..] && t[4..] == t[4..7] + t[7..];
    StrLeConcat(s[4..7], t[4..7], s[7..], t[7..]);
    assert s[4..7] == "-" + ms && t[4..7] == "-" + mt;
    StrLeConcat("-", "-", ms, mt);
    DigitsOrder(ms, mt);
    DigitsEqual(ms, mt);
    // hyphen and day
    assert s[7..] == "-" + ds && t[7..] == "-" + dt;
    StrLeConcat("-", "-", ds, dt);
    DigitsOrder(ds, dt);
  }
}
