/**
 * The CSV KPI query server of `dummy/kpi_csv_out/mcp_kpi_server.py`: monthly
 * files `kpis_YYYY_MM.csv` in one directory, listed by month, scanned for
 * KPI names, and queried by date window, KPI name and client id with a row
 * limit. The directory is a value: missing, or a list of files, each a name
 * and its rows; a row is the field map `csv.DictReader` yields.
 */
module KpiServer {

  import opened Wrappers
  import opened Text
  import opened Calendar

  /** One CSV data row: header field to cell text. */
  type Row = map<string, string>

  /** `row.get(key, "")`. */
  function Field(row: Row, key: string): string {
    if key in row then row[key] else ""
  }

  datatype CsvFile = CsvFile(name: string, rows: seq<Row>)

  /** The data directory. */
  datatype CsvDir = Missing | Dir(files: seq<CsvFile>)

  const FilePrefix := "kpis_"
  const FileSuffix := ".csv"

  /** `FILENAME_TEMPLATE.format(year=y, month=m)`: a name the listing glob
      matches, and whose month label reads back as the year and the
      two-digit month. */
  function FileName(y: nat, m: nat): (name: string)
    ensures MatchesGlob(name)
    ensures MonthLabel(name) == Some(NatToString(y) + "-" + ZeroPad(m, 2))
  {
    var ys := NatToString(y);
    var ms := ZeroPad(m, 2);
    assert '_' !in ys && '_' !in ms by {
      assert forall i :: 0 <= i < |ys| ==> IsDigit(ys[i]);
      assert forall i :: 0 <= i < |ms| ==> IsDigit(ms[i]);
    }
    TemplateLabel(ys, ms);
    FilePrefix + ys + "_" + ms + FileSuffix
  }

  /** The rows of the file with the given name; none when it does not exist. */
  function RowsOfFile(files: seq<CsvFile>, name: string): (rows: seq<Row>)
    ensures (forall k :: 0 <= k < |files| ==> files[k].name != name) ==> rows == []
    ensures (exists k :: 0 <= k < |files| && files[k].name == name) ==>
      exists k :: 0 <= k < |files| && files[k].name == name && rows == files[k].rows
    decreases |files|
  {
    if |files| == 0 then []
    else if files[0].name == name then files[0].rows
    else
      var rows := RowsOfFile(files[1..], name);
      assert forall k :: 1 <= k < |files| ==> files[k] == files[1..][k - 1];
      rows
  }

  // ---------------------------------------------------------------------------
  // KPI names
  // ---------------------------------------------------------------------------

  const Misspelt := "perfomance"
  const Corrected := "performance"

  /** `_normalize_kpi_name`: stripped, lower-cased, spaces and hyphens made
      underscores, and the misspelling "perfomance" corrected. */
  function NormalizeKpiName(name: string): string {
    ReplaceAll(Separated(name), Misspelt, Corrected)
  }

  /** The first four steps: strip, lower, spaces and hyphens to `_`. */
  function Separated(name: string): string {
    ReplaceAll(ReplaceAll(Lower(Strip(name)), " ", "_"), "-", "_")
  }

  /** A normalised name: no spaces, hyphens or capitals, and nothing to
      strip at either end. */
  predicate NormalName(n: string) {
    && (forall i :: 0 <= i < |n| ==> n[i] != ' ' && n[i] != '-' && !IsUpper(n[i]))
    && (n == [] || (!IsSpace(n[0]) && !IsSpace(n[|n| - 1])))
  }

  /** Every character of a replacement result comes from the text or from
      the replacement. */
  lemma {:induction false} ReplaceAllChars(s: string, pat: string, rep: string)
    requires |pat| > 0
    ensures forall c :: c in ReplaceAll(s, pat, rep) ==> c in s || c in rep
    decreases |s|
  {
    if |s| >= |pat| {
      if s[..|pat|] == pat {
        ReplaceAllChars(s[|pat|..], pat, rep);
        forall c | c in s[|pat|..] ensures c in s {
          var k :| 0 <= k < |s[|pat|..]| && s[|pat|..][k] == c;
          assert s[|pat| + k] == c;
        }
      } else {
        ReplaceAllChars(s[1..], pat, rep);
        forall c | c in s[1..] ensures c in s {
          var k :| 0 <= k < |s[1..]| && s[1..][k] == c;
          assert s[k + 1] == c;
        }
      }
    }
  }

  /** A replacement result starts and ends with a character of the text or
      of the replacement, at the same end. */
  lemma {:induction false} ReplaceAllEnds(s: string, pat: string, rep: string)
    requires |pat| > 0 && |rep| > 0
    ensures var r := ReplaceAll(s, pat, rep);
            && (|r| == 0 <==> |s| == 0)
            && (|s| > 0 ==> (r[0] == s[0] || r[0] == rep[0]))
            && (|s| > 0 ==> (r[|r| - 1] == s[|s| - 1] || r[|r| - 1] == rep[|rep| - 1]))
    decreases |s|
  {
    if |s| >= |pat| {
      if s[..|pat|] == pat {
        ReplaceAllEnds(s[|pat|..], pat, rep);
        if |s| > |pat| {
          assert s[|pat|..][|s| - |pat| - 1] == s[|s| - 1];
        } else {
          assert s[|s| - 1] == pat[|pat| - 1];
        }
      } else {
        ReplaceAllEnds(s[1..], pat, rep);
      }
    }
  }

  /** Before the spelling fix, the name already has the normal form. */
  lemma SeparatedShape(name: string)
    ensures NormalName(Separated(name))
  {
    var t := Strip(name);
    var l := Lower(t);
    LowerShape(t);
    var a := ReplaceAll(l, " ", "_");
    SeparatorReplaced(l, ' ');
    var n := ReplaceAll(a, "-", "_");
    SeparatorReplaced(a, '-');
    assert Separated(name) == n;
    assert forall i :: 0 <= i < |n| ==> n[i] in n;
  }

  /** No capital letter anywhere and no whitespace at either end. */
  predicate Folded(s: string) {
    && (forall i :: 0 <= i < |s| ==> !IsUpper(s[i]))
    && (s == [] || (!IsSpace(s[0]) && !IsSpace(s[|s| - 1])))
  }

  /** Lower-casing a stripped text folds it. */
  lemma LowerShape(t: string)
    requires t == [] || (!IsSpace(t[0]) && !IsSpace(t[|t| - 1]))
    ensures Folded(Lower(t))
  {
    var l := Lower(t);
    forall i | 0 <= i < |l| ensures !IsUpper(l[i]) {
      assert l[i] == LowerChar(t[i]);
    }
    if t != [] {
      assert l[0] == LowerChar(t[0]) && l[|l| - 1] == LowerChar(t[|t| - 1]);
    }
  }

  /** Replacing a non-space separator by `_` keeps a text folded, removes
      the separator and adds no other character. */
  lemma SeparatorReplaced(s: string, c: char)
    requires Folded(s) && c != '_'
    ensures var r := ReplaceAll(s, [c], ['_']);
      && Folded(r) && c !in r
      && forall d :: d in r && d != '_' ==> d in s
  {
    var r := ReplaceAll(s, [c], ['_']);
    ReplaceCharIsMap(s, c, '_');
    forall d | d in r && d != '_' ensures d in s {
      var i :| 0 <= i < |r| && r[i] == d;
    }
    forall i | 0 <= i < |r| ensures !IsUpper(r[i]) && r[i] != c {
      assert r[i] == (if s[i] == c then '_' else s[i]);
    }
    if r != [] {
      var k := |r| - 1;
      assert r[0] == (if s[0] == c then '_' else s[0]);
      assert r[k] == (if s[k] == c then '_' else s[k]);
    }
  }

  /** The spelling fix keeps the normal form. */
  lemma FixKeepsNormal(b: string)
    requires NormalName(b)
    ensures NormalName(ReplaceAll(b, Misspelt, Corrected))
  {
    var n := ReplaceAll(b, Misspelt, Corrected);
    ReplaceAllChars(b, Misspelt, Corrected);
    ReplaceAllEnds(b, Misspelt, Corrected);
    forall i | 0 <= i < |n| ensures n[i] != ' ' && n[i] != '-' && !IsUpper(n[i]) {
      assert n[i] in n;
      assert n[i] in b || n[i] in Corrected;
    }
  }

  /** The normalised name has the normal form, and the misspelling
      "perfomance" no longer occurs in it. */
  lemma NormalizeShape(name: string)
    ensures NormalName(NormalizeKpiName(name))
    ensures !Occurs(NormalizeKpiName(name), Misspelt)
  {
    SeparatedShape(name);
    FixKeepsNormal(Separated(name));
    FixIdempotent(Separated(name));
    ReplaceAllGrows(NormalizeKpiName(name), Misspelt, Corrected);
  }

  /** Text with no `p` passes through the spelling fix unchanged: no
      occurrence of the misspelling can start inside it. */
  lemma FixSkipsNoP(x: string, u: string)
    requires 'p' !in x
    ensures ReplaceAll(x + u, Misspelt, Corrected) == x + ReplaceAll(u, Misspelt, Corrected)
  {
    SkipsNoStart(x, u, Misspelt, Corrected);
  }

  /** Text without the pattern's first character passes through a
      replacement unchanged. */
  lemma {:induction false} SkipsNoStart(x: string, u: string, pat: string, rep: string)
    requires |pat| > 0 && pat[0] !in x
    ensures ReplaceAll(x + u, pat, rep) == x + ReplaceAll(u, pat, rep)
    decreases |x|
  {
    if |x| > 0 {
      var s := x + u;
      SkipsNoStart(x[1..], u, pat, rep);
      assert s[1..] == x[1..] + u;
      if |s| >= |pat| {
        ReplaceNoMatchStep(s, pat, rep, 0);
      } else {
        assert ReplaceAll(u, pat, rep) == u;
        assert ReplaceAll(x[1..] + u, pat, rep) == x[1..] + u;
      }
      ConsAssoc(x, ReplaceAll(u, pat, rep));
    } else {
      assert x + u == u;
    }
  }

  /** One step of the scan past a position where the pattern does not
      start: the first character is kept. */
  lemma ReplaceNoMatchStep(s: string, pat: string, rep: string, k: nat)
    requires 0 < |pat| <= |s| && k < |pat| && s[k] != pat[k]
    ensures ReplaceAll(s, pat, rep) == [s[0]] + ReplaceAll(s[1..], pat, rep)
  {
    assert s[..|pat|][k] != pat[k];
  }

  lemma ConsAssoc(c: string, v: string)
    requires |c| > 0
    ensures [c[0]] + (c[1..] + v) == c + v
  {
    assert c == [c[0]] + c[1..];
  }

  /** A text that differs from the pattern at some position `k` and has
      the pattern's first character only in front passes through a
      replacement unchanged. */
  lemma SkipsNonMatch(c: string, u: string, pat: string, rep: string, k: nat)
    requires 0 < |pat| <= |c| && k < |pat| && c[k] != pat[k] && pat[0] !in c[1..]
    ensures ReplaceAll(c + u, pat, rep) == c + ReplaceAll(u, pat, rep)
  {
    var s := c + u;
    assert s[k] == c[k] && s[0] == c[0] && s[1..] == c[1..] + u;
    ReplaceNoMatchStep(s, pat, rep, k);
    SkipsNoStart(c[1..], u, pat, rep);
    ConsAssoc(c, ReplaceAll(u, pat, rep));
  }

  /** The correct spelling passes through the spelling fix unchanged. */
  lemma FixSkipsCorrected(u: string)
    ensures ReplaceAll(Corrected + u, Misspelt, Corrected) == Corrected + ReplaceAll(u, Misspelt, Corrected)
  {
    CorrectedIsNotMisspelt();
    SkipsNonMatch(Corrected, u, Misspelt, Corrected, 5);
  }

  /** The correct spelling is longer than the misspelling, differs from it
      in its first ten characters and has its only `p` in front. */
  lemma CorrectedIsNotMisspelt()
    ensures |Misspelt| < |Corrected|
    ensures Corrected[5] == 'r' && Misspelt[5] == 'm'
    ensures Misspelt[0] == 'p' && 'p' !in Corrected[1..]
  {
  }

  /** When the fixed text starts with `w`, a text without `p`, the original
      text started with `w` too. */
  lemma {:induction false} FixedPrefix(v: string, w: string)
    requires 'p' !in w
    requires |w| <= |ReplaceAll(v, Misspelt, Corrected)|
    requires ReplaceAll(v, Misspelt, Corrected)[..|w|] == w
    ensures |w| <= |v| && v[..|w|] == w
    decreases |w|
  {
    if |w| > 0 && |v| >= |Misspelt| {
      var r := ReplaceAll(v, Misspelt, Corrected);
      assert r[0] == w[0];
      if v[..|Misspelt|] == Misspelt {
        assert false;
      } else {
        var t := ReplaceAll(v[1..], Misspelt, Corrected);
        assert r == [v[0]] + t;
        assert t[..|w| - 1] == w[1..];
        FixedPrefix(v[1..], w[1..]);
        assert v[..|w|] == [v[0]] + v[1..][..|w| - 1];
      }
    }
  }

  /** The spelling fix leaves nothing to fix: it is idempotent. */
  lemma {:induction false} FixIdempotent(b: string)
    ensures ReplaceAll(ReplaceAll(b, Misspelt, Corrected), Misspelt, Corrected)
            == ReplaceAll(b, Misspelt, Corrected)
    decreases |b|
  {
    if |b| >= |Misspelt| {
      if b[..|Misspelt|] == Misspelt {
        var t := ReplaceAll(b[|Misspelt|..], Misspelt, Corrected);
        FixIdempotent(b[|Misspelt|..]);
        FixSkipsCorrected(t);
      } else {
        var t := ReplaceAll(b[1..], Misspelt, Corrected);
        FixIdempotent(b[1..]);
        var s := [b[0]] + t;
        if |s| >= |Misspelt| && s[..|Misspelt|] == Misspelt {
          var w := Misspelt[1..];
          assert 'p' !in w;
          assert t[..|w|] == w;
          FixedPrefix(b[1..], w);
          assert false;
        }
        assert s[1..] == t;
      }
    }
  }

  /** A normal name is its own separated form. */
  lemma SeparatedOfNormal(n: string)
    requires NormalName(n)
    ensures Separated(n) == n
  {
    StripTrimmed(n);
    assert Lower(n) == n;
    assert ' ' !in n && '-' !in n;
    ReplaceAbsentChar(n, ' ', '_');
    ReplaceAbsentChar(n, '-', '_');
  }

  /** Normalising a normalised name changes nothing. */
  lemma NormalizeIdempotent(name: string)
    ensures NormalizeKpiName(NormalizeKpiName(name)) == NormalizeKpiName(name)
  {
    var n := NormalizeKpiName(name);
    NormalizeShape(name);
    SeparatedOfNormal(n);
    FixIdempotent(Separated(name));
  }

  /** A normal name ending in the misspelling, with no `p` before it, gets
      the misspelling corrected and nothing else changed. */
  lemma NormalizeFixesTrailingTypo(prefix: string)
    requires 'p' !in prefix && NormalName(prefix + Misspelt)
    ensures NormalizeKpiName(prefix + Misspelt) == prefix + Corrected
  {
    SeparatedOfNormal(prefix + Misspelt);
    FixSkipsNoP(prefix, Misspelt);
    assert ReplaceAll(Misspelt, Misspelt, Corrected) == Corrected + ReplaceAll([], Misspelt, Corrected);
  }

  /** The catalogue's misspelt name normalises to the correct spelling. */
  lemma NormalizeFixesTypo()
    ensures NormalizeKpiName("on_time_" + Misspelt) == "on_time_" + Corrected
  {
    var prefix := "on_time_";
    assert NormalName(prefix + Misspelt);
    NormalizeFixesTrailingTypo(prefix);
  }

  // ---------------------------------------------------------------------------
  // list_months
  // ---------------------------------------------------------------------------

  /** `glob("kpis_*.csv")` on a file name. */
  predicate MatchesGlob(name: string) {
    && |name| >= |FilePrefix| + |FileSuffix|
    && name[..|FilePrefix|] == FilePrefix
    && name[|name| - |FileSuffix|..] == FileSuffix
  }

  /** `Path.stem` of a matching name: the name without `.csv`. */
  function Stem(name: string): string
    requires MatchesGlob(name)
  {
    name[..|name| - |FileSuffix|]
  }

  /** The month label of one listed file: `"{y}-{m}"` when the stem splits
      on `_` into exactly three parts, nothing otherwise. */
  function MonthLabel(name: string): Option<string>
    requires MatchesGlob(name)
  {
    var parts := Split(Stem(name), '_');
    if |parts| == 3 then Some(parts[1] + "-" + parts[2]) else None
  }

  /** The names the glob matches, in directory order. */
  function GlobNames(files: seq<CsvFile>): (names: seq<string>)
    ensures forall i :: 0 <= i < |names| ==> MatchesGlob(names[i])
    ensures forall n :: n in names <==> MatchesGlob(n) && exists k :: 0 <= k < |files| && files[k].name == n
    decreases |files|
  {
    if |files| == 0 then []
    else
      var rest := GlobNames(files[..|files| - 1]);
      var f := files[|files| - 1];
      assert forall k :: 0 <= k < |files| - 1 ==> files[..|files| - 1][k] == files[k];
      rest + (if MatchesGlob(f.name) then [f.name] else [])
  }

  /** The labels of the names, in order, skipping names without one. */
  function Labels(names: seq<string>): (labels: seq<string>)
    requires forall i :: 0 <= i < |names| ==> MatchesGlob(names[i])
    ensures |labels| <= |names|
    ensures forall l :: l in labels <==> exists i :: 0 <= i < |names| && MonthLabel(names[i]) == Some(l)
    decreases |names|
  {
    if |names| == 0 then []
    else
      var init := names[..|names| - 1];
      var rest := Labels(init);
      assert forall i :: 0 <= i < |init| ==> init[i] == names[i];
      var last := MonthLabel(names[|names| - 1]);
      rest + (if last.Some? then [last.value] else [])
  }

  /** Labelling works name by name: the labels of two runs of names are the
      labels of the first followed by those of the second. */
  lemma {:induction false} LabelsAppend(a: seq<string>, b: seq<string>)
    requires AllGlob(a) && AllGlob(b)
    ensures AllGlob(a + b) && Labels(a + b) == Labels(a) + Labels(b)
    decreases |b|
  {
    var ab := a + b;
    GlobConcat(a, b);
    if |b| == 0 {
      assert ab == a;
    } else {
      var init := b[..|b| - 1];
      GlobPrefix(b);
      LabelsAppend(a, init);
      assert ab[..|ab| - 1] == a + init;
      assert ab[|ab| - 1] == b[|b| - 1];
    }
  }

  /** Every name matches the glob. */
  predicate AllGlob(names: seq<string>) {
    forall i :: 0 <= i < |names| ==> MatchesGlob(names[i])
  }

  lemma GlobConcat(a: seq<string>, b: seq<string>)
    requires AllGlob(a) && AllGlob(b)
    ensures AllGlob(a + b)
  {
    forall i | 0 <= i < |a + b| ensures MatchesGlob((a + b)[i]) {
      if i >= |a| {
        assert (a + b)[i] == b[i - |a|];
      }
    }
  }

  lemma GlobPrefix(b: seq<string>)
    requires AllGlob(b) && |b| >= 1
    ensures AllGlob(b[..|b| - 1])
  {
    var init := b[..|b| - 1];
    forall i | 0 <= i < |init| ensures MatchesGlob(init[i]) {
      assert init[i] == b[i];
    }
  }

  /** Sorting the matching names keeps the same names. */
  lemma SortedGlobNames(files: seq<CsvFile>)
    ensures var names := Sort(GlobNames(files));
      && AllGlob(names)
      && forall n :: n in names <==> n in GlobNames(files)
  {
    var names := Sort(GlobNames(files));
    assert forall n :: n in names <==> n in multiset(names);
    assert forall n :: n in GlobNames(files) <==> n in multiset(GlobNames(files));
  }

  /** `list_months`: the labels of the matching files in sorted name order;
      nothing when the directory is missing. */
  function ListMonths(dir: CsvDir): (months: seq<string>)
    ensures dir.Missing? ==> months == []
    ensures dir.Dir? ==> exists names ::
      && multiset(names) == multiset(GlobNames(dir.files))
      && Sorted(names)
      && AllGlob(names)
      && months == Labels(names)
    ensures dir.Dir? ==> |months| <= |GlobNames(dir.files)|
    ensures dir.Dir? ==> forall l :: l in months <==>
      exists n :: n in GlobNames(dir.files) && MonthLabel(n) == Some(l)
  {
    match dir
    case Missing => []
    case Dir(files) =>
      var names := Sort(GlobNames(files));
      SortedGlobNames(files);
      Labels(names)
  }

  /** Three `_`-free pieces joined by `_` split back into the three. */
  lemma SplitThree(a: string, b: string, c: string)
    requires '_' !in a && '_' !in b && '_' !in c
    ensures Split(a + ['_'] + (b + ['_'] + c), '_') == [a, b, c]
  {
    SplitAt(a, '_', b + ['_'] + c);
    SplitAt(b, '_', c);
    SplitNone(c, '_');
  }

  /** A name built like the template, from two `_`-free pieces, matches the
      glob and is labelled with the two pieces joined by `-`. */
  lemma TemplateLabel(ys: string, ms: string)
    requires '_' !in ys && '_' !in ms
    ensures var name := FilePrefix + ys + "_" + ms + FileSuffix;
      MatchesGlob(name) && MonthLabel(name) == Some(ys + "-" + ms)
  {
    var name := FilePrefix + ys + "_" + ms + FileSuffix;
    var body := ys + "_" + ms;
    assert name == FilePrefix + body + FileSuffix;
    assert name[..|FilePrefix|] == FilePrefix;
    assert name[|name| - |FileSuffix|..] == FileSuffix;
    assert Stem(name) == "kpis" + ['_'] + (ys + ['_'] + ms);
    SplitThree("kpis", ys, ms);
  }

  /** Every month file the generator writes is listed. */
  lemma ListedMonth(dir: CsvDir, y: nat, m: nat)
    requires dir.Dir? && exists k :: 0 <= k < |dir.files| && dir.files[k].name == FileName(y, m)
    ensures NatToString(y) + "-" + ZeroPad(m, 2) in ListMonths(dir)
  {
    assert FileName(y, m) in GlobNames(dir.files);
  }

  // ---------------------------------------------------------------------------
  // list_kpis
  // ---------------------------------------------------------------------------

  /** `int(x)` of text without a `-` is not negative. */
  lemma ParseIntNoMinus(x: string)
    requires '-' !in x && ParseInt(x).Some?
    ensures ParseInt(x).value >= 0
  {
    var t := Strip(x);
    assert t[0] == x[LeadingSpaces(x)];
  }

  /** The rows `list_kpis` scans: the named month's file when a sample month
      `"y-m"` is given (nothing when it is malformed or the file is absent),
      otherwise the first matching file in sorted order. */
  function SampleRows(dir: CsvDir, sampleMonth: Option<string>): seq<Row> {
    match dir
    case Missing => []
    case Dir(files) =>
      if sampleMonth.Some? && sampleMonth.value != "" then
        var parts := Split(sampleMonth.value, '-');
        if |parts| == 2 && ParseInt(parts[0]).Some? && ParseInt(parts[1]).Some? then
          ParseIntNoMinus(parts[0]);
          ParseIntNoMinus(parts[1]);
          RowsOfFile(files, FileName(ParseInt(parts[0]).value, ParseInt(parts[1]).value))
        else []
      else
        var names := Sort(GlobNames(files));
        if |names| == 0 then [] else RowsOfFile(files, names[0])
  }

  /** The non-empty `kpi_name` cells of the rows, in order. */
  function KpiNames(rows: seq<Row>): (names: seq<string>)
    ensures forall n :: n in names <==> exists i :: 0 <= i < |rows| && "kpi_name" in rows[i]
                                                    && rows[i]["kpi_name"] != "" && rows[i]["kpi_name"] == n
    decreases |rows|
  {
    if |rows| == 0 then []
    else
      var init := rows[..|rows| - 1];
      var rest := KpiNames(init);
      assert forall i :: 0 <= i < |init| ==> init[i] == rows[i];
      var row := rows[|rows| - 1];
      rest + (if "kpi_name" in row && row["kpi_name"] != "" then [row["kpi_name"]] else [])
  }

  /** `list_kpis`: the distinct non-empty KPI names of the scanned file,
      ascending. Names are reported as written, not normalised. */
  function ListKpis(dir: CsvDir, sampleMonth: Option<string>): (kpis: seq<string>)
    ensures StrictlySorted(kpis)
    ensures forall n :: n in kpis <==>
      exists row :: row in SampleRows(dir, sampleMonth) && "kpi_name" in row && row["kpi_name"] != "" && row["kpi_name"] == n
  {
    var rows := SampleRows(dir, sampleMonth);
    var r := SortedDistinct(KpiNames(rows));
    assert forall row :: row in rows <==> exists i :: 0 <= i < |rows| && rows[i] == row;
    r
  }

  /** A malformed sample month scans nothing. */
  lemma MalformedSampleMonth(dir: CsvDir, month: string)
    requires month != ""
    requires var parts := Split(month, '-');
             |parts| != 2 || ParseInt(parts[0]).None? || ParseInt(parts[1]).None?
    ensures ListKpis(dir, Some(month)) == []
  {
    assert SampleRows(dir, Some(month)) == [];
  }

  lemma SplitUnderscoredMonth()
    ensures Split("2025-0_7", '-') == ["2025", "0_7"]
  {
    SplitAt("2025", '-', "0_7");
    SplitNone("0_7", '-');
    assert "2025" + ['-'] + "0_7" == "2025-0_7";
  }

  /** `int()` skips an underscore between digits, so the sample month
      "2025-0_7" scans the file of July 2025. */
  lemma UnderscoredSampleMonth(dir: CsvDir)
    requires dir.Dir?
    ensures SampleRows(dir, Some("2025-0_7")) == RowsOfFile(dir.files, FileName(2025, 7))
  {
    SplitUnderscoredMonth();
    ParseIntYear();
    ParseIntUnderscore();
  }

  // ---------------------------------------------------------------------------
  // query_kpi_data
  // ---------------------------------------------------------------------------

  datatype QueryError = DirectoryNotFound | InvalidDateFormat | EndBeforeStart

  /** The tool's answer: an error (its row list is always empty), or the
      rows with their count and whether the limit cut the scan short. */
  datatype QueryOutcome =
    | QueryFailed(error: QueryError)
    | QueryRows(count: nat, limitReached: bool, rows: seq<Row>)

  /** The row filter: the window as given, the normalised KPI name and the
      client id text, each optional. */
  datatype RowFilter = RowFilter(startDate: string, endDate: string, kpi: Option<string>, client: Option<string>)

  /** `want_kpi`: the normalised name when a non-empty name is given. */
  function WantKpi(kpiName: Option<string>): Option<string> {
    if kpiName.Some? && kpiName.value != "" then Some(NormalizeKpiName(kpiName.value)) else None
  }

  /** The checks one row goes through: a non-empty date, not before the
      start nor after the end as text, the KPI name when a non-empty one is
      wanted, the stripped client id when one is wanted. */
  predicate Passes(f: RowFilter, row: Row) {
    var d := Field(row, "date");
    && d != ""
    && !StrLt(d, f.startDate) && !StrLt(f.endDate, d)
    && (f.kpi.Some? && f.kpi.value != "" ==> NormalizeKpiName(Field(row, "kpi_name")) == f.kpi.value)
    && (f.client.Some? ==> Strip(Field(row, "client_id")) == f.client.value)
  }

  /** The rows that pass, in order. */
  function Matching(f: RowFilter, rows: seq<Row>): (r: seq<Row>)
    ensures |r| <= |rows|
    ensures forall i :: 0 <= i < |r| ==> Passes(f, r[i])
    decreases |rows|
  {
    if |rows| == 0 then []
    else
      var last := rows[|rows| - 1];
      Matching(f, rows[..|rows| - 1]) + (if Passes(f, last) then [last] else [])
  }

  /** The rows of one month's file; nothing when it does not exist. Months
      come from valid dates, so their year and month are never negative. */
  function RowsOfMonth(files: seq<CsvFile>, ym: (int, int)): seq<Row> {
    if ym.0 >= 0 && ym.1 >= 0 then RowsOfFile(files, FileName(ym.0, ym.1)) else []
  }

  /** The rows of each month's file, month by month. */
  function MonthContents(files: seq<CsvFile>, months: seq<(int, int)>): (r: seq<seq<Row>>)
    ensures |r| == |months|
    ensures forall k :: 0 <= k < |months| ==> r[k] == RowsOfMonth(files, months[k])
    decreases |months|
  {
    if |months| == 0 then [] else [RowsOfMonth(files, months[0])] + MonthContents(files, months[1..])
  }

  /** The months' rows, concatenated in month order. */
  function Flatten(chunks: seq<seq<Row>>): seq<Row>
    decreases |chunks|
  {
    if |chunks| == 0 then [] else Flatten(chunks[..|chunks| - 1]) + chunks[|chunks| - 1]
  }

  /** The months the query scans. */
  function QueryMonths(start: Date, end: Date): seq<(int, int)>
    requires ValidDate(start) && ValidDate(end)
  {
    MonthsRange(start.year, start.month, end.year, end.month)
  }

  /** At most `limit` rows, and at least one row once any row matches: the
      check follows the append. */
  function Cap(limit: int): (cap: nat)
    ensures cap >= 1
    ensures limit >= 1 ==> cap == limit
  {
    if limit >= 1 then limit else 1
  }

  /** The rows `query_kpi_data` scans, in order, and the filter it applies. */
  function ScannedRows(files: seq<CsvFile>, start: Date, end: Date): seq<Row>
    requires ValidDate(start) && ValidDate(end)
  {
    Flatten(MonthContents(files, QueryMonths(start, end)))
  }

  function FilterOf(startDate: string, endDate: string, kpiName: Option<string>, clientId: Option<string>): RowFilter {
    RowFilter(startDate, endDate, WantKpi(kpiName), clientId)
  }

  /** The checks before the scan, in the source's order: the directory,
      then both dates, then their order. Success carries the two dates. */
  function Window(dir: CsvDir, startDate: string, endDate: string): (r: Result<(Date, Date), QueryError>)
    ensures r.Failure? <==>
      || dir.Missing? || ParseIsoDate(startDate).None? || ParseIsoDate(endDate).None?
      || DateLt(ParseIsoDate(endDate).value, ParseIsoDate(startDate).value)
    ensures dir.Missing? ==> r == Failure(DirectoryNotFound)
    ensures dir.Dir? && (ParseIsoDate(startDate).None? || ParseIsoDate(endDate).None?) ==>
      r == Failure(InvalidDateFormat)
    ensures r.Success? ==> && ValidDate(r.value.0) && ValidDate(r.value.1)
                           && IsoDate(r.value.0) == startDate && IsoDate(r.value.1) == endDate
                           && !DateLt(r.value.1, r.value.0)
  {
    if dir.Missing? then Failure(DirectoryNotFound)
    else
      var start := ParseIsoDate(startDate);
      var end := ParseIsoDate(endDate);
      if start.None? || end.None? then Failure(InvalidDateFormat)
      else if DateLt(end.value, start.value) then Failure(EndBeforeStart)
      else
        FormatOfParseIso(startDate);
        FormatOfParseIso(endDate);
        Success((start.value, end.value))
  }

  /** The answer for the matching rows: the first `Cap(limit)` of them with
      the limit flag set when there are that many, all of them otherwise. */
  function Answer(all: seq<Row>, limit: int): (r: QueryOutcome)
    ensures r.QueryRows? && r.count == |r.rows| && |r.rows| <= |all| && r.rows == all[..|r.rows|]
    ensures r.limitReached <==> |all| >= Cap(limit)
    ensures r.limitReached ==> r.count == Cap(limit)
    ensures !r.limitReached ==> r.rows == all
  {
    var cap := Cap(limit);
    if |all| >= cap then QueryRows(cap, true, all[..cap]) else QueryRows(|all|, false, all)
  }

  /**
   * What `query_kpi_data` answers: the error of the first check that
   * fails; otherwise the answer for the matching rows of the window's
   * months.
   */
  function Query(dir: CsvDir, startDate: string, endDate: string, kpiName: Option<string>,
                 clientId: Option<string>, limit: int): (r: QueryOutcome)
    ensures r.QueryFailed? <==> Window(dir, startDate, endDate).Failure?
    ensures r.QueryFailed? ==> r.error == Window(dir, startDate, endDate).error
    ensures r.QueryRows? ==> r.count == |r.rows|
    ensures r.QueryRows? ==> forall i :: 0 <= i < |r.rows| ==>
      Passes(FilterOf(startDate, endDate, kpiName, clientId), r.rows[i])
    ensures r.QueryRows? && limit >= 1 ==> r.count <= limit && (r.limitReached <==> r.count == limit)
    ensures r.QueryRows? && limit < 1 ==> r.count <= 1 && (r.limitReached <==> r.count == 1)
  {
    match Window(dir, startDate, endDate)
    case Failure(e) => QueryFailed(e)
    case Success((start, end)) =>
      var f := FilterOf(startDate, endDate, kpiName, clientId);
      var all := Matching(f, ScannedRows(dir.files, start, end));
      AnswerPasses(f, all, limit);
      Answer(all, limit)
  }

  /** The answer keeps only rows that pass when all its input rows do. */
  lemma AnswerPasses(f: RowFilter, all: seq<Row>, limit: int)
    requires forall i :: 0 <= i < |all| ==> Passes(f, all[i])
    ensures forall i :: 0 <= i < |Answer(all, limit).rows| ==> Passes(f, Answer(all, limit).rows[i])
  {
    var rows := Answer(all, limit).rows;
    assert forall i :: 0 <= i < |rows| ==> rows[i] == all[i];
  }

  /** Filtering distributes over concatenation. */
  lemma {:induction false} MatchingAppend(f: RowFilter, a: seq<Row>, b: seq<Row>)
    ensures Matching(f, a + b) == Matching(f, a) + Matching(f, b)
    decreases |b|
  {
    if |b| == 0 {
      assert a + b == a;
    } else {
      var b' := b[..|b| - 1];
      MatchingAppend(f, a, b');
      assert (a + b)[..|a + b| - 1] == a + b';
      assert (a + b)[|a + b| - 1] == b[|b| - 1];
    }
  }

  /** Flattening distributes over concatenation. */
  lemma {:induction false} FlattenAppend(xs: seq<seq<Row>>, ys: seq<seq<Row>>)
    ensures Flatten(xs + ys) == Flatten(xs) + Flatten(ys)
    decreases |ys|
  {
    if |ys| == 0 {
      assert xs + ys == xs;
    } else {
      var ys' := ys[..|ys| - 1];
      FlattenAppend(xs, ys');
      assert (xs + ys)[..|xs + ys| - 1] == xs + ys';
      assert (xs + ys)[|xs + ys| - 1] == ys[|ys| - 1];
    }
  }

  /** One more chunk extends the flattening by that chunk. */
  lemma FlattenSnoc(chunks: seq<seq<Row>>, i: nat)
    requires i < |chunks|
    ensures Flatten(chunks[..i + 1]) == Flatten(chunks[..i]) + chunks[i]
  {
    assert chunks[..i + 1][..i] == chunks[..i];
  }

  /** The scan splits around chunk `i`. */
  lemma FlattenAround(chunks: seq<seq<Row>>, i: nat)
    requires i < |chunks|
    ensures Flatten(chunks) == Flatten(chunks[..i]) + chunks[i] + Flatten(chunks[i + 1..])
  {
    assert chunks == chunks[..i + 1] + chunks[i + 1..];
    FlattenAppend(chunks[..i + 1], chunks[i + 1..]);
    FlattenSnoc(chunks, i);
  }

  /** The rows kept from a prefix of the scan are a prefix of the rows kept
      from the whole scan. */
  lemma MatchingPrefix(f: RowFilter, pre: seq<Row>, rest: seq<Row>)
    ensures |Matching(f, pre + rest)| >= |Matching(f, pre)|
    ensures Matching(f, pre + rest)[..|Matching(f, pre)|] == Matching(f, pre)
  {
    MatchingAppend(f, pre, rest);
  }

  /** When the kept rows of a prefix of the scan reach the cap, they are the
      first rows kept from the whole scan. */
  lemma LimitHit(chunks: seq<seq<Row>>, i: nat, j: nat, f: RowFilter, out: seq<Row>)
    requires i < |chunks| && j < |chunks[i]|
    requires out == Matching(f, Flatten(chunks[..i]) + chunks[i][..j + 1])
    ensures |Matching(f, Flatten(chunks))| >= |out|
    ensures Matching(f, Flatten(chunks))[..|out|] == out
  {
    var rows := chunks[i];
    var before := Flatten(chunks[..i]);
    var after := Flatten(chunks[i + 1..]);
    FlattenAround(chunks, i);
    assert rows == rows[..j + 1] + rows[j + 1..];
    assert Flatten(chunks) == (before + rows[..j + 1]) + (rows[j + 1..] + after);
    MatchingPrefix(f, before + rows[..j + 1], rows[j + 1..] + after);
  }

  /** One more row of a chunk: it is kept exactly when it passes. */
  lemma ScanStep(f: RowFilter, pre: seq<Row>, rows: seq<Row>, j: nat)
    requires j < |rows|
    ensures Matching(f, pre + rows[..j + 1])
         == Matching(f, pre + rows[..j]) + (if Passes(f, rows[j]) then [rows[j]] else [])
  {
    var p := pre + rows[..j];
    assert pre + rows[..j + 1] == p + [rows[j]];
    assert (p + [rows[j]])[..|p|] == p;
  }

  /** A chunk scanned to its end adds the chunk to the scanned prefix. */
  lemma ChunkDone(f: RowFilter, chunks: seq<seq<Row>>, i: nat)
    requires i < |chunks|
    ensures Matching(f, Flatten(chunks[..i]) + chunks[i][..|chunks[i]|]) == Matching(f, Flatten(chunks[..i + 1]))
  {
    assert chunks[i][..|chunks[i]|] == chunks[i];
    FlattenSnoc(chunks, i);
  }

  /** The scan of `query_kpi_data`: chunk by chunk, row by row, keeping the
      rows that pass and stopping as soon as the kept rows reach the limit. */
  method Scan(f: RowFilter, chunks: seq<seq<Row>>, limit: int) returns (out: seq<Row>, reached: bool)
    ensures QueryRows(|out|, reached, out) == Answer(Matching(f, Flatten(chunks)), limit)
  {
    ghost var cap := Cap(limit);
    out := [];
    var i := 0;
    while i < |chunks|
      invariant 0 <= i <= |chunks|
      invariant out == Matching(f, Flatten(chunks[..i]))
      invariant |out| < cap
    {
      var rows := chunks[i];
      var j := 0;
      assert rows[..0] == [];
      assert Flatten(chunks[..i]) + rows[..j] == Flatten(chunks[..i]);
      while j < |rows|
        invariant 0 <= j <= |rows|
        invariant out == Matching(f, Flatten(chunks[..i]) + rows[..j])
        invariant |out| < cap
      {
        ScanStep(f, Flatten(chunks[..i]), rows, j);
        if Passes(f, rows[j]) {
          out := out + [rows[j]];
          if |out| >= limit {
            LimitHit(chunks, i, j, f, out);
            return out, true;
          }
        }
        j := j + 1;
      }
      ChunkDone(f, chunks, i);
      i := i + 1;
    }
    assert chunks[..i] == chunks;
    return out, false;
  }

  /**
   * `query_kpi_data` as the source runs it: the three error checks in
   * order, then the scan of the window's months.
   */
  method QueryKpiData(dir: CsvDir, startDate: string, endDate: string, kpiName: Option<string>,
                      clientId: Option<string>, limit: int) returns (r: QueryOutcome)
    ensures r == Query(dir, startDate, endDate, kpiName, clientId, limit)
  {
    var w := Window(dir, startDate, endDate);
    if w.Failure? {
      return QueryFailed(w.error);
    }
    var (start, end) := w.value;
    var f := FilterOf(startDate, endDate, kpiName, clientId);
    var out, reached := Scan(f, MonthContents(dir.files, QueryMonths(start, end)), limit);
    return QueryRows(|out|, reached, out);
  }

  /** A row is kept exactly when it is scanned and passes. */
  lemma {:induction false} MatchingMembers(f: RowFilter, rows: seq<Row>, row: Row)
    ensures row in Matching(f, rows) <==> row in rows && Passes(f, row)
    decreases |rows|
  {
    if |rows| > 0 {
      var init := rows[..|rows| - 1];
      MatchingMembers(f, init, row);
      assert rows == init + [rows[|rows| - 1]];
    }
  }

  /** Every row the query returns has a date inside the window, compared
      as text, and the wanted KPI and client when those are given. */
  lemma QueryRowsInWindow(dir: CsvDir, startDate: string, endDate: string, kpiName: Option<string>,
                          clientId: Option<string>, limit: int, i: nat)
    requires Query(dir, startDate, endDate, kpiName, clientId, limit).QueryRows?
    requires i < |Query(dir, startDate, endDate, kpiName, clientId, limit).rows|
    ensures var row := Query(dir, startDate, endDate, kpiName, clientId, limit).rows[i];
            && Field(row, "date") != ""
            && StrLe(startDate, Field(row, "date")) && StrLe(Field(row, "date"), endDate)
            && (kpiName.Some? && NormalizeKpiName(kpiName.value) != "" ==>
                  NormalizeKpiName(Field(row, "kpi_name")) == NormalizeKpiName(kpiName.value))
            && (clientId.Some? ==> Strip(Field(row, "client_id")) == clientId.value)
  {
    var row := Query(dir, startDate, endDate, kpiName, clientId, limit).rows[i];
    var f := FilterOf(startDate, endDate, kpiName, clientId);
    assert Passes(f, row);
    PassesWindow(f, row);
    if kpiName.Some? && NormalizeKpiName(kpiName.value) != "" {
      if kpiName.value == "" {
        NormalizeEmpty();
      }
      assert f.kpi == Some(NormalizeKpiName(kpiName.value));
    }
  }

  /** A row that passes has a date inside the window, compared as text. */
  lemma PassesWindow(f: RowFilter, row: Row)
    requires Passes(f, row)
    ensures Field(row, "date") != ""
    ensures StrLe(f.startDate, Field(row, "date")) && StrLe(Field(row, "date"), f.endDate)
  {
    StrLeTotal(f.startDate, Field(row, "date"));
    StrLeTotal(Field(row, "date"), f.endDate);
  }

  lemma NormalizeEmpty()
    ensures NormalizeKpiName("") == ""
  {
    StripTrimmed("");
    assert Lower("") == "";
  }

  /** Below the limit the query is complete: every scanned row that passes
      is returned. Rows are returned in scan order either way. */
  lemma QueryComplete(dir: CsvDir, startDate: string, endDate: string, kpiName: Option<string>,
                      clientId: Option<string>, limit: int, row: Row)
    requires Window(dir, startDate, endDate).Success?
    ensures var w := Window(dir, startDate, endDate).value;
            var scanned := ScannedRows(dir.files, w.0, w.1);
            var r := Query(dir, startDate, endDate, kpiName, clientId, limit);
            && r.rows == Matching(FilterOf(startDate, endDate, kpiName, clientId), scanned)[..|r.rows|]
            && (!r.limitReached ==>
                  (row in r.rows <==> row in scanned && Passes(FilterOf(startDate, endDate, kpiName, clientId), row)))
  {
    var w := Window(dir, startDate, endDate).value;
    MatchingMembers(FilterOf(startDate, endDate, kpiName, clientId), ScannedRows(dir.files, w.0, w.1), row);
  }

  /** For rows whose date is a canonical ISO date, the text comparison the
      source makes is the calendar comparison: such a row is inside the
      window exactly when its day is neither before the start nor after
      the end. */
  lemma DateCheckIsChronological(startDate: string, endDate: string, d: string)
    requires ParseIsoDate(startDate).Some? && ParseIsoDate(endDate).Some? && ParseIsoDate(d).Some?
    ensures !StrLt(d, startDate) && !StrLt(endDate, d)
        <==> && !DateLt(ParseIsoDate(d).value, ParseIsoDate(startDate).value)
             && !DateLt(ParseIsoDate(endDate).value, ParseIsoDate(d).value)
  {
    IsoTextOrder(startDate, d);
    IsoTextOrder(d, endDate);
    StrLeTotal(d, startDate);
    StrLeTotal(endDate, d);
    StrLeReflexive(d);
    if StrLe(d, startDate) && StrLe(startDate, d) {
      StrLeAntisymmetric(d, startDate);
    }
    if StrLe(d, endDate) && StrLe(endDate, d) {
      StrLeAntisymmetric(d, endDate);
    }
  }

  /** A row is in the flattening exactly when it is in one of the chunks. */
  lemma {:induction false} FlattenMembers(chunks: seq<seq<Row>>, row: Row)
    ensures row in Flatten(chunks) <==> exists k :: 0 <= k < |chunks| && row in chunks[k]
    decreases |chunks|
  {
    if |chunks| > 0 {
      var init := chunks[..|chunks| - 1];
      FlattenMembers(init, row);
      if row in Flatten(chunks) && row !in chunks[|chunks| - 1] {
        var k :| 0 <= k < |init| && row in init[k];
        assert chunks[k] == init[k];
      }
      if exists k :: 0 <= k < |chunks| && row in chunks[k] {
        var k :| 0 <= k < |chunks| && row in chunks[k];
        if k < |chunks| - 1 {
          assert init[k] == chunks[k];
        }
      }
    }
  }

  /** The query reads exactly the files of the months from the start's month
      to the end's month: a row is scanned when one of those files holds it. */
  lemma ScannedRowsOfMonths(files: seq<CsvFile>, start: Date, end: Date, row: Row)
    requires ValidDate(start) && ValidDate(end)
    ensures row in ScannedRows(files, start, end) <==>
      exists k :: 0 <= k < |QueryMonths(start, end)| && row in RowsOfMonth(files, QueryMonths(start, end)[k])
  {
    var chunks := MonthContents(files, QueryMonths(start, end));
    FlattenMembers(chunks, row);
  }
}
