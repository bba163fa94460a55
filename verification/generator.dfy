/**
 * The dummy data generator of `dummy/generate_kpi_csvs.py`: the month walk,
 * `clamp`, the evenly spaced sample times of a day and the layout of the
 * rows each monthly CSV file holds. The generated values themselves (sine
 * waves, random noise, rounding) are not modelled; a row's value is a
 * parameter of its rendering.
 */
module Generator {

  import opened Wrappers
  import opened Text
  import opened Calendar
  import KpiServer

  // ---------------------------------------------------------------------------
  // Configuration
  // ---------------------------------------------------------------------------

  /** One entry of the KPI catalogue. */
  datatype Kpi = Kpi(name: string, unit: string, frequency: string, threshold: string)

  const ClientId: nat := 2

  /** The client id as the CSV writer renders the integer. */
  const ClientIdText: string := "2"

  lemma ClientIdRendered()
    ensures NatToString(ClientId) == ClientIdText
  {
  }

  /** The catalogue, in the order the rows of a day list it. */
  const Catalogue: seq<Kpi> := [
    Kpi("on_time_performance", "%", "Daily", "68958470d97275e03c78ebc0"),
    Kpi("flight_cancellation_rate", "%", "Daily", "6895848ad97275e03c78ebc1"),
    Kpi("passenger_load_factor", "%", "Daily", "689584bbd97275e03c78ebc4"),
    Kpi("baggage_mishandling_rate", "Count", "Daily", "689584c6d97275e03c78ebc5"),
    Kpi("aircraft_utilization_rate", "Hours", "Daily", "68958562d97275e03c78ebcd"),
    Kpi("average_delay_per_flight", "Minutes", "Daily", "689584dfd97275e03c78ebc7"),
    Kpi("check_in_counter_wait_time", "Minutes", "Daily", "6895854fd97275e03c78ebcc"),
    Kpi("revenue_per_available_seat_kilometer_rask", "USD", "Monthly", "689584a2d97275e03c78ebc2"),
    Kpi("cost_per_available_seat_kilometer_cask", "USD", "Monthly", "689584b0d97275e03c78ebc3"),
    Kpi("net_promoter_score_nps", "Score", "Monthly", "689584d2d97275e03c78ebc6"),
    Kpi("employee_cost_ratio", "%", "Monthly", "689584f3d97275e03c78ebc8"),
    Kpi("fuel_cost_per_kilometer", "USD", "Monthly", "68958503d97275e03c78ebc9"),
    Kpi("customer_complaint_rate", "Count", "Monthly", "68958515d97275e03c78ebca"),
    Kpi("return_on_aircraft_assets", "%", "Quarterly", "68958532d97275e03c78ebcb")
  ]

  const StartYear: int := 2024
  const StartMonth: int := 8
  const EndYear: int := 2025
  const EndMonth: int := 8

  /** The columns of every file, in order. */
  const Header: seq<string> :=
    ["date", "kpi_name", "logged_value", "unit", "frequency", "kpi_threshold", "client_id", "logged_at"]

  /** Samples per KPI per day. */
  const SamplesPerDay: nat := 10

  /** Rows per day: one block of samples per catalogue entry. */
  const RowsPerDay: nat := 140

  lemma RowsPerDayIsBlocks()
    ensures |Catalogue| == 14 && RowsPerDay == |Catalogue| * SamplesPerDay
  {
  }

  /** The months the generator writes: August 2024 to August 2025 inclusive,
      thirteen months although the comment above the constants says the
      range ends in July 2025. */
  lemma ConfiguredMonths()
    ensures var r := MonthsRange(StartYear, StartMonth, EndYear, EndMonth);
            && |r| == 13
            && r[0] == (2024, 8) && r[4] == (2024, 12) && r[5] == (2025, 1) && r[12] == (2025, 8)
  {
    var r := MonthsRange(StartYear, StartMonth, EndYear, EndMonth);
    assert r[0] == MonthAt(MonthIndex(2024, 8));
    assert r[4] == MonthAt(MonthIndex(2024, 8) + 4);
    assert r[5] == MonthAt(MonthIndex(2024, 8) + 5);
    assert r[12] == MonthAt(MonthIndex(2024, 8) + 12);
  }

  // ---------------------------------------------------------------------------
  // clamp
  // ---------------------------------------------------------------------------

  /** `max(lo, min(hi, v))`. */
  function Clamp(v: real, lo: real, hi: real): (r: real)
    ensures lo <= hi ==> lo <= r <= hi
    ensures lo <= v <= hi ==> r == v
    ensures lo <= hi && v < lo ==> r == lo
    ensures lo <= hi && hi < v ==> r == hi
    ensures hi < lo ==> r == lo
  {
    var m := if hi <= v then hi else v;
    if lo >= m then lo else m
  }

  /** Clamping twice into the same range clamps once. */
  lemma ClampIdempotent(v: real, lo: real, hi: real)
    requires lo <= hi
    ensures Clamp(Clamp(v, lo, hi), lo, hi) == Clamp(v, lo, hi)
  {
  }

  /** Clamping keeps the order of its inputs. */
  lemma ClampMonotone(v: real, w: real, lo: real, hi: real)
    requires lo <= hi && v <= w
    ensures Clamp(v, lo, hi) <= Clamp(w, lo, hi)
  {
  }

  // ---------------------------------------------------------------------------
  // sample_logged_ats
  // ---------------------------------------------------------------------------

  /** 08:00 and 18:00 in minutes after midnight. */
  const DayStart: nat := 480
  const DayEnd: nat := 1080

  /** The spacing of the samples: the ten hours in whole minutes, divided by
      the gaps between `count` samples; the whole span for a single sample. */
  function Step(count: int): (step: nat)
    ensures count > 1 ==> step * (count - 1) <= DayEnd - DayStart < (step + 1) * (count - 1)
    ensures count <= 1 ==> step == DayEnd - DayStart
  {
    if count > 1 then (DayEnd - DayStart) / (count - 1) else DayEnd - DayStart
  }

  /** The sample times, in minutes after midnight. */
  function SampleMinutes(count: int): (r: seq<nat>)
    ensures |r| == if count > 0 then count else 0
    ensures forall i :: 0 <= i < |r| ==> r[i] == DayStart + Step(count) * i
  {
    seq(if count > 0 then count else 0, i => DayStart + Step(count) * i)
  }

  /** Every sample lies within the day's 08:00 to 18:00. */
  lemma SamplesWithinHours(count: int, i: nat)
    requires i < |SampleMinutes(count)|
    ensures DayStart <= SampleMinutes(count)[i] <= DayEnd
  {
    var step := Step(count);
    assert SampleMinutes(count)[i] == DayStart + step * i;
    if count > 1 {
      ScaledBound(step, i, count - 1, DayEnd - DayStart);
    } else {
      assert i == 0;
    }
  }

  /** `s * i <= b` follows from `s * n <= b` for `i <= n`. */
  lemma ScaledBound(s: nat, i: nat, n: nat, b: nat)
    requires i <= n && s * n <= b
    ensures s * i <= b
  {
    MulMono(s, i, n);
  }

  lemma MulMono(s: nat, i: nat, j: nat)
    requires i <= j
    ensures s * i <= s * j
  {
    assert s * j == s * i + s * (j - i);
  }

  /** The samples are strictly increasing exactly while the spacing is at
      least a minute, that is for up to 601 samples; beyond that they all
      fall at 08:00. */
  lemma SamplesIncreasing(count: int, i: nat, j: nat)
    requires i < j < |SampleMinutes(count)|
    ensures SampleMinutes(count)[i] < SampleMinutes(count)[j] <==> count <= 601
  {
    var step := Step(count);
    assert count > 1;
    QuotientPositive(DayEnd - DayStart, count - 1);
    if step >= 1 {
      assert step * i < step * j by { MulStrict(step, i, j); }
    }
  }

  /** A quotient is positive exactly when the divisor fits. */
  lemma QuotientPositive(a: nat, b: nat)
    requires b > 0
    ensures a / b >= 1 <==> b <= a
  {
    if b <= a {
      assert a % b < b;
      assert b * (a / b) == a - a % b > 0;
    }
  }

  lemma MulStrict(s: nat, i: nat, j: nat)
    requires s >= 1 && i < j
    ensures s * i < s * j
  {
    assert s * j == s * i + s * (j - i);
    assert s * (j - i) >= j - i;
  }

  /** Ten samples: 08:00, 09:06, ... every 66 minutes, the last at 17:54. */
  lemma TenSamples()
    ensures Step(10) == 66
    ensures SampleMinutes(10)[0] == 8 * 60
    ensures SampleMinutes(10)[9] == 17 * 60 + 54
  {
  }

  /** `strftime("%Y-%m-%dT%H:%M:%S")` of the day at the given minute. */
  function LoggedAtText(d: Date, minutes: nat): (s: string)
    requires ValidDate(d) && minutes < 24 * 60
    ensures |s| == 19
    ensures s[..10] == IsoDate(d) && s[10] == 'T'
  {
    ZeroPadExact(minutes / 60, 2);
    ZeroPadExact(minutes % 60, 2);
    IsoDate(d) + "T" + ZeroPad(minutes / 60, 2) + ":" + ZeroPad(minutes % 60, 2) + ":00"
  }

  // ---------------------------------------------------------------------------
  // write_month_csv
  // ---------------------------------------------------------------------------

  /** A data row without its value: the day, the catalogue entry, the
      sample index and the sample's minute. */
  datatype GenRow = GenRow(date: Date, kpi: Kpi, sample: nat, minute: nat)

  /** The row at position `j` of a month file's data: days in order, each
      day the catalogue in order, each entry its samples in order. */
  function Cell(y: int, m: int, j: nat): (g: GenRow)
    requires 1 <= y <= 9999 && 1 <= m <= 12
    requires j < DaysInMonth(y, m) * RowsPerDay
    ensures ValidDate(g.date) && g.date.year == y && g.date.month == m
    ensures g.kpi in Catalogue && g.sample < SamplesPerDay
    ensures DayStart <= g.minute <= DayEnd
  {
    SamplesWithinHours(SamplesPerDay, j % SamplesPerDay);
    var day := j / RowsPerDay + 1;
    var k := j % RowsPerDay / SamplesPerDay;
    var i := j % SamplesPerDay;
    GenRow(Date(y, m, day), Catalogue[k], i, DayStart + Step(SamplesPerDay) * i)
  }

  /** The data rows of the month's file. */
  function Layout(y: int, m: int): (rows: seq<GenRow>)
    requires 1 <= y <= 9999 && 1 <= m <= 12
    ensures |rows| == DaysInMonth(y, m) * |Catalogue| * SamplesPerDay
  {
    seq(DaysInMonth(y, m) * RowsPerDay, j requires 0 <= j < DaysInMonth(y, m) * RowsPerDay => Cell(y, m, j))
  }

  /** Position arithmetic of the layout. */
  lemma Position(day: nat, k: nat, i: nat)
    requires k < 14 && i < 10
    ensures (day * 140 + k * 10 + i) / 140 == day
    ensures (day * 140 + k * 10 + i) % 140 / 10 == k
    ensures (day * 140 + k * 10 + i) % 10 == i
  {
    var r := k * 10 + i;
    var n := day * 140 + r;
    DivModUnique(n, 140, day, r);
    DivModUnique(r, 10, k, i);
    assert n == (day * 14 + k) * 10 + i by {
      assert day * 140 == (day * 14) * 10;
    }
    DivModUnique(n, 10, day * 14 + k, i);
  }

  /** Quotient and remainder are the only such pair. */
  lemma DivModUnique(n: nat, d: nat, q: nat, r: nat)
    requires d > 0 && r < d && n == q * d + r
    ensures n / d == q && n % d == r
  {
    var q', r' := n / d, n % d;
    assert q' * d + r' == q * d + r;
    if q' > q {
      MulMono(d, q + 1, q');
      assert false;
    } else if q' < q {
      MulMono(d, q' + 1, q);
      assert false;
    }
  }

  /** Day `day` (from 1), entry `k`, sample `i` sits at its place. */
  lemma LayoutAt(y: int, m: int, day: nat, k: nat, i: nat)
    requires 1 <= y <= 9999 && 1 <= m <= 12
    requires 1 <= day <= DaysInMonth(y, m) && k < |Catalogue| && i < SamplesPerDay
    ensures (day - 1) * RowsPerDay + k * SamplesPerDay + i < |Layout(y, m)|
    ensures Layout(y, m)[(day - 1) * RowsPerDay + k * SamplesPerDay + i]
         == GenRow(Date(y, m, day), Catalogue[k], i, SampleMinutes(SamplesPerDay)[i])
  {
    Position(day - 1, k, i);
    assert (day - 1) * RowsPerDay + k * SamplesPerDay + i < DaysInMonth(y, m) * RowsPerDay;
  }

  /** Writing the next row extends the written prefix of the layout. */
  lemma LayoutStep(y: int, m: int, day: nat, k: nat, i: nat)
    requires 1 <= y <= 9999 && 1 <= m <= 12
    requires 1 <= day <= DaysInMonth(y, m) && k < |Catalogue| && i < SamplesPerDay
    ensures var p := (day - 1) * RowsPerDay + k * SamplesPerDay + i;
            && p < |Layout(y, m)|
            && Layout(y, m)[..p + 1]
               == Layout(y, m)[..p] + [GenRow(Date(y, m, day), Catalogue[k], i, SampleMinutes(SamplesPerDay)[i])]
  {
    LayoutAt(y, m, day, k, i);
    SliceSnoc(Layout(y, m), (day - 1) * RowsPerDay + k * SamplesPerDay + i);
  }

  lemma SliceSnoc<T>(s: seq<T>, p: nat)
    requires p < |s|
    ensures s[..p + 1] == s[..p] + [s[p]]
  {
  }

  /**
   * `write_month_csv`'s loops: for each day of the month, for each
   * catalogue entry, one row per sample time of that day.
   */
  method WriteMonthRows(y: int, m: int) returns (rows: seq<GenRow>)
    requires 1 <= y <= 9999 && 1 <= m <= 12
    ensures rows == Layout(y, m)
  {
    var days := DaysInMonth(y, m);
    var ats := SampleMinutes(SamplesPerDay);
    ghost var all := Layout(y, m);
    rows := [];
    var day := 1;
    while day <= days
      invariant 1 <= day <= days + 1
      invariant rows == all[..(day - 1) * RowsPerDay]
    {
      var k := 0;
      while k < |Catalogue|
        invariant 0 <= k <= |Catalogue|
        invariant rows == all[..(day - 1) * RowsPerDay + k * SamplesPerDay]
      {
        var i := 0;
        while i < |ats|
          invariant 0 <= i <= |ats|
          invariant rows == all[..(day - 1) * RowsPerDay + k * SamplesPerDay + i]
        {
          LayoutStep(y, m, day, k, i);
          rows := rows + [GenRow(Date(y, m, day), Catalogue[k], i, ats[i])];
          i := i + 1;
        }
        k := k + 1;
      }
      day := day + 1;
    }
    assert all[..|all|] == all;
  }

  /** The CSV record of a generated row, keyed by the header's columns,
      with the value's text given. */
  function ToRecord(g: GenRow, value: string): (row: KpiServer.Row)
    requires ValidDate(g.date) && g.minute < 24 * 60
  {
    map[
      "date" := IsoDate(g.date),
      "kpi_name" := g.kpi.name,
      "logged_value" := value,
      "unit" := g.kpi.unit,
      "frequency" := g.kpi.frequency,
      "kpi_threshold" := g.kpi.threshold,
      "client_id" := ClientIdText,
      "logged_at" := LoggedAtText(g.date, g.minute)
    ]
  }

  /** A record names its row's day in ISO form, its KPI and the configured
      client. */
  lemma RecordKeys(g: GenRow, value: string)
    requires ValidDate(g.date) && g.minute < 24 * 60
    ensures var row := ToRecord(g, value);
            && KpiServer.Field(row, "date") == IsoDate(g.date)
            && KpiServer.Field(row, "kpi_name") == g.kpi.name
            && KpiServer.Field(row, "client_id") == ClientIdText
  {
  }

  /** A record carries its KPI's own unit, frequency and threshold id. */
  lemma RecordFields(g: GenRow, value: string)
    requires ValidDate(g.date) && g.minute < 24 * 60
    ensures var row := ToRecord(g, value);
            && KpiServer.Field(row, "unit") == g.kpi.unit
            && KpiServer.Field(row, "frequency") == g.kpi.frequency
            && KpiServer.Field(row, "kpi_threshold") == g.kpi.threshold
  {
  }

  /** A record carries the value given and a timestamp on the row's day. */
  lemma RecordValue(g: GenRow, value: string)
    requires ValidDate(g.date) && g.minute < 24 * 60
    ensures var row := ToRecord(g, value);
            && KpiServer.Field(row, "logged_value") == value
            && KpiServer.Field(row, "logged_at")[..10] == IsoDate(g.date)
  {
  }

  /** A record has exactly the header's columns. */
  lemma RecordColumns(g: GenRow, value: string)
    requires ValidDate(g.date) && g.minute < 24 * 60
    ensures forall c :: c in ToRecord(g, value) <==> c in Header
  {
  }

  /** Every record of a month's file names a day of that month in the form
      the query parses, and the configured client. */
  lemma RecordsOfMonth(y: int, m: int, j: nat, value: string)
    requires 1 <= y <= 9999 && 1 <= m <= 12 && j < |Layout(y, m)|
    ensures var g := Layout(y, m)[j];
            var row := ToRecord(g, value);
            && ParseIsoDate(KpiServer.Field(row, "date")) == Some(g.date)
            && g.date.year == y && g.date.month == m
            && KpiServer.Field(row, "client_id") == ClientIdText
  {
    RecordKeys(Layout(y, m)[j], value);
    ParseIsoOfFormat(Layout(y, m)[j].date);
  }
}
