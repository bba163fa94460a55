/**
 * ASCII string helpers with the meaning Python gives them: `str.isspace`,
 * `strip`, `lower`, `replace`, `join`, `split`, `int()`, decimal formatting,
 * the regular-expression word boundary `\b`, and code-point string order with
 * the sorts built on it. Only the ASCII range is modelled.
 */
module Text {

  import opened Wrappers

  // ---------------------------------------------------------------------------
  // Character classes
  // ---------------------------------------------------------------------------

  /** `str.isspace()` restricted to ASCII: tab to carriage return, the four
      information separators 0x1C..0x1F, and the space. */
  predicate IsSpace(c: char) {
    (9 <= c as int <= 13) || (28 <= c as int <= 32)
  }

  predicate IsDigit(c: char) {
    '0' <= c <= '9'
  }

  predicate IsUpper(c: char) {
    'A' <= c <= 'Z'
  }

  predicate IsAsciiLetter(c: char) {
    IsUpper(c) || 'a' <= c <= 'z'
  }

  /** A regular-expression word character `\w` (ASCII): letters, digits, `_`. */
  predicate IsWordChar(c: char) {
    IsAsciiLetter(c) || IsDigit(c) || c == '_'
  }

  /** The identifier class `[A-Za-z0-9_-]` used by the id patterns. */
  predicate IsIdChar(c: char) {
    IsWordChar(c) || c == '-'
  }

  /** `\b` at position `p` of `t`: exactly one of the characters around `p`
      is a word character (positions outside `t` count as non-word). */
  predicate Boundary(t: string, p: nat)
    requires p <= |t|
  {
    (p > 0 && IsWordChar(t[p - 1])) != (p < |t| && IsWordChar(t[p]))
  }

  // ---------------------------------------------------------------------------
  // Case and whitespace
  // ---------------------------------------------------------------------------

  function LowerChar(c: char): char {
    if IsUpper(c) then (c as int + 32) as char else c
  }

  /** `str.lower()` on ASCII. */
  function Lower(s: string): (r: string)
    ensures |r| == |s|
    ensures forall i :: 0 <= i < |s| ==> r[i] == LowerChar(s[i])
  {
    seq(|s|, i requires 0 <= i < |s| => LowerChar(s[i]))
  }

  /** Every character is whitespace (the empty string included). */
  predicate IsBlank(s: string) {
    forall i :: 0 <= i < |s| ==> IsSpace(s[i])
  }

  function LeadingSpaces(s: string): (n: nat)
    ensures n <= |s|
    ensures forall i :: 0 <= i < n ==> IsSpace(s[i])
    ensures n < |s| ==> !IsSpace(s[n])
  {
    if |s| == 0 || !IsSpace(s[0]) then 0 else 1 + LeadingSpaces(s[1..])
  }

  function TrailingSpaces(s: string): (n: nat)
    ensures n <= |s|
    ensures forall i :: |s| - n <= i < |s| ==> IsSpace(s[i])
    ensures n < |s| ==> !IsSpace(s[|s| - n - 1])
  {
    if |s| == 0 || !IsSpace(s[|s| - 1]) then 0 else 1 + TrailingSpaces(s[..|s| - 1])
  }

  /** `str.strip()`: the longest infix that neither starts nor ends with
      whitespace, obtained by dropping whitespace from both ends. */
  function Strip(s: string): (r: string)
    ensures |r| <= |s|
    ensures r == [] || (!IsSpace(r[0]) && !IsSpace(r[|r| - 1]))
    ensures r == [] <==> IsBlank(s)
    ensures LeadingSpaces(s) + |r| <= |s|
    ensures r == s[LeadingSpaces(s)..LeadingSpaces(s) + |r|]
  {
    var rest := s[LeadingSpaces(s)..];
    var r := rest[..|rest| - TrailingSpaces(rest)];
    r
  }

  /** A string without surrounding whitespace is its own strip. */
  lemma StripTrimmed(s: string)
    requires s == [] || (!IsSpace(s[0]) && !IsSpace(s[|s| - 1]))
    ensures Strip(s) == s
  {
    if s != [] {
      assert LeadingSpaces(s) == 0;
      assert TrailingSpaces(s) == 0;
    }
  }

  // ---------------------------------------------------------------------------
  // Replace, join, split
  // ---------------------------------------------------------------------------

  /** `s.replace(pat, rep)`: left-to-right, non-overlapping replacement. */
  function ReplaceAll(s: string, pat: string, rep: string): string
    requires |pat| > 0
    decreases |s|
  {
    if |s| < |pat| then s
    else if s[..|pat|] == pat then rep + ReplaceAll(s[|pat|..], pat, rep)
    else [s[0]] + ReplaceAll(s[1..], pat, rep)
  }

  /** The pattern occurs in the text at position `i`. */
  predicate OccursAt(s: string, pat: string, i: int) {
    0 <= i && i + |pat| <= |s| && s[i..i + |pat|] == pat
  }

  /** The pattern occurs somewhere in the text. */
  ghost predicate Occurs(s: string, pat: string) {
    exists i :: OccursAt(s, pat, i)
  }

  /** A replacement no shorter than its pattern never shortens the text, and
      a strictly longer one lengthens every text the pattern occurs in. */
  lemma {:induction false} ReplaceAllGrows(s: string, pat: string, rep: string)
    requires 0 < |pat| <= |rep|
    ensures |ReplaceAll(s, pat, rep)| >= |s|
    ensures |pat| < |rep| && Occurs(s, pat) ==> |ReplaceAll(s, pat, rep)| > |s|
    decreases |s|
  {
    if |s| >= |pat| {
      if s[..|pat|] == pat {
        ReplaceAllGrows(s[|pat|..], pat, rep);
      } else {
        ReplaceAllGrows(s[1..], pat, rep);
        if Occurs(s, pat) {
          var i :| OccursAt(s, pat, i);
          assert i != 0;
          assert s[1..][i - 1..i - 1 + |pat|] == pat;
          assert OccursAt(s[1..], pat, i - 1);
        }
      }
    }
  }

  /** Replacing one character by another is a character-wise map. */
  lemma {:induction false} ReplaceCharIsMap(s: string, a: char, b: char)
    ensures |ReplaceAll(s, [a], [b])| == |s|
    ensures forall i :: 0 <= i < |s| ==>
      ReplaceAll(s, [a], [b])[i] == (if s[i] == a then b else s[i])
    decreases |s|
  {
    if |s| >= 1 {
      ReplaceCharIsMap(s[1..], a, b);
      var tail := ReplaceAll(s[1..], [a], [b]);
      if s[..1] == [a] {
        assert ReplaceAll(s, [a], [b]) == [b] + tail;
      } else {
        assert ReplaceAll(s, [a], [b]) == [s[0]] + tail;
      }
    }
  }

  /** Replacing a character that does not occur changes nothing. */
  lemma ReplaceAbsentChar(s: string, a: char, b: char)
    requires a !in s
    ensures ReplaceAll(s, [a], [b]) == s
  {
    ReplaceCharIsMap(s, a, b);
  }

  /** `sep.join(parts)`. */
  function Join(parts: seq<string>, sep: string): string
    decreases |parts|
  {
    if |parts| == 0 then ""
    else if |parts| == 1 then parts[0]
    else parts[0] + sep + Join(parts[1..], sep)
  }

  /** The join of pieces whose first piece is non-empty starts with that
      piece's first character. */
  lemma JoinHead(parts: seq<string>, sep: string)
    requires |parts| >= 1 && |parts[0]| >= 1
    ensures |Join(parts, sep)| >= 1 && Join(parts, sep)[0] == parts[0][0]
  {
  }

  /** Index of the first `c` in `s`, or `|s|` when there is none. */
  function IndexOf(s: string, c: char): (i: nat)
    ensures i <= |s|
    ensures forall k :: 0 <= k < i ==> s[k] != c
    ensures i < |s| ==> s[i] == c
  {
    if |s| == 0 then 0 else if s[0] == c then 0 else 1 + IndexOf(s[1..], c)
  }

  /** `IndexOf` is determined by its contract. */
  lemma IndexOfIs(s: string, c: char, i: nat)
    requires i <= |s|
    requires forall k :: 0 <= k < i ==> s[k] != c
    requires i < |s| ==> s[i] == c
    ensures IndexOf(s, c) == i
  {
  }

  /** `s.split(c)` for a one-character separator: the pieces between the
      occurrences of `c`; joining them back with `c` gives `s`. */
  function Split(s: string, c: char): (r: seq<string>)
    ensures |r| >= 1
    ensures forall i :: 0 <= i < |r| ==> c !in r[i]
    ensures Join(r, [c]) == s
    decreases |s|
  {
    var i := IndexOf(s, c);
    if i == |s| then
      assert c !in s;
      [s]
    else
      var rest := Split(s[i + 1..], c);
      assert Join([s[..i]] + rest, [c]) == s[..i] + [c] + Join(rest, [c]) by {
        assert ([s[..i]] + rest)[1..] == rest;
      }
      assert s == s[..i] + [c] + s[i + 1..];
      [s[..i]] + rest
  }

  /** Splitting text without the separator gives the text itself. */
  lemma SplitNone(s: string, c: char)
    requires c !in s
    ensures Split(s, c) == [s]
  {
    IndexOfIs(s, c, |s|);
  }

  /** Splitting at a first separator placed after a separator-free piece. */
  lemma SplitAt(a: string, c: char, b: string)
    requires c !in a
    ensures Split(a + [c] + b, c) == [a] + Split(b, c)
  {
    var s := a + [c] + b;
    IndexOfIs(s, c, |a|);
    assert s[..|a|] == a && s[|a| + 1..] == b;
  }

  // ---------------------------------------------------------------------------
  // Decimal numbers
  // ---------------------------------------------------------------------------

  function DigitChar(d: nat): (c: char)
    requires d < 10
    ensures IsDigit(c)
  {
    ('0' as int + d) as char
  }

  function DigitValue(c: char): (d: nat)
    requires IsDigit(c)
    ensures d < 10 && DigitChar(d) == c
  {
    c as int - '0' as int
  }

  predicate AllDigits(s: string) {
    forall i :: 0 <= i < |s| ==> IsDigit(s[i])
  }

  /** The value of a string of decimal digits, most significant first. */
  function DigitsValue(s: string): nat
    requires AllDigits(s)
  {
    if |s| == 0 then 0 else DigitsValue(s[..|s| - 1]) * 10 + DigitValue(s[|s| - 1])
  }

  /** `str(n)` for a natural number. */
  function NatToString(n: nat): (r: string)
    ensures |r| >= 1 && AllDigits(r)
    ensures DigitsValue(r) == n
    ensures |r| >= 2 ==> r[0] != '0'
  {
    if n < 10 then [DigitChar(n)]
    else
      var r := NatToString(n / 10) + [DigitChar(n % 10)];
      assert r[..|r| - 1] == NatToString(n / 10);
      r
  }

  /** `format(n, '0{width}d')` for a natural number: left-padded with zeros. */
  function ZeroPad(n: nat, width: nat): (r: string)
    ensures |r| >= width && AllDigits(r) && DigitsValue(r) == n
  {
    var digits := NatToString(n);
    if |digits| >= width then digits else ZeroesThen(width - |digits|, digits)
  }

  function ZeroesThen(k: nat, s: string): (r: string)
    requires AllDigits(s)
    ensures |r| == k + |s| && AllDigits(r) && DigitsValue(r) == DigitsValue(s)
  {
    if k == 0 then s
    else
      var r := ZeroesThen(k - 1, s);
      LeadingZeroValue(r);
      ['0'] + r
  }

  lemma {:induction false} LeadingZeroValue(s: string)
    requires AllDigits(s)
    ensures AllDigits(['0'] + s) && DigitsValue(['0'] + s) == DigitsValue(s)
    decreases |s|
  {
    if |s| > 0 {
      var z := ['0'] + s;
      assert z[..|z| - 1] == ['0'] + s[..|s| - 1];
      LeadingZeroValue(s[..|s| - 1]);
    }
  }

  /** A non-empty digit string without a leading zero is its value's
      decimal rendering. */
  lemma {:induction false} CanonicalDigits(s: string)
    requires |s| >= 1 && AllDigits(s) && (|s| >= 2 ==> s[0] != '0')
    ensures NatToString(DigitsValue(s)) == s
    decreases |s|
  {
    if |s| >= 2 {
      var p := s[..|s| - 1];
      CanonicalDigits(p);
      PositiveValue(p);
    }
  }

  lemma {:induction false} PositiveValue(s: string)
    requires |s| >= 1 && AllDigits(s) && s[0] != '0'
    ensures DigitsValue(s) >= 1
    decreases |s|
  {
    if |s| >= 2 {
      PositiveValue(s[..|s| - 1]);
    }
  }

  /** The digit grouping `int()` accepts: decimal digits, with single
      underscores allowed between two digits. */
  predicate GroupedDigits(s: string) {
    && |s| >= 1 && IsDigit(s[0]) && IsDigit(s[|s| - 1])
    && (forall i :: 0 <= i < |s| ==> IsDigit(s[i]) || s[i] == '_')
    && (forall i :: 0 <= i < |s| - 1 ==> s[i] == '_' ==> IsDigit(s[i + 1]))
  }

  /** The digits of `s`, with the underscores dropped. */
  function Ungrouped(s: string): (d: string)
    ensures forall c :: c in d <==> c in s && c != '_'
    ensures (forall i :: 0 <= i < |s| ==> IsDigit(s[i]) || s[i] == '_') ==> AllDigits(d)
    ensures '_' !in s ==> d == s
    decreases |s|
  {
    if |s| == 0 then []
    else
      var init := s[..|s| - 1];
      var last := s[|s| - 1];
      assert s == init + [last];
      Ungrouped(init) + (if last == '_' then [] else [last])
  }

  /** The value of an unsigned digit group; none when the grouping is not
      one `int()` accepts. */
  function ParseUnsigned(t: string): (r: Option<nat>)
    ensures r.Some? <==> GroupedDigits(t)
  {
    if GroupedDigits(t) then Some(DigitsValue(Ungrouped(t))) else None
  }

  /** Python's `int(x)` on ASCII text: surrounding whitespace, an optional
      sign, and decimal digits grouped as `GroupedDigits` allows; anything
      else raises. */
  function ParseInt(x: string): (r: Option<int>)
    ensures r.Some? ==> |Strip(x)| >= 1
  {
    var t := Strip(x);
    if |t| >= 1 && (t[0] == '+' || t[0] == '-') then
      match ParseUnsigned(t[1..])
      case Some(v) => Some(if t[0] == '-' then -(v as int) else v)
      case None => None
    else ParseUnsigned(t)
  }

  /** A plain run of digits is its own group, worth its digit value. */
  lemma UnsignedOfDigits(s: string)
    requires |s| >= 1 && AllDigits(s)
    ensures ParseUnsigned(s) == Some(DigitsValue(s))
  {
    assert '_' !in s by {
      assert forall i :: 0 <= i < |s| ==> IsDigit(s[i]);
    }
    assert GroupedDigits(s);
  }

  /** `int(str(n)) == n`: the decimal rendering parses back. */
  lemma ParseIntOfNat(n: nat)
    ensures ParseInt(NatToString(n)) == Some(n)
  {
    var s := NatToString(n);
    assert !IsSpace(s[0]) && !IsSpace(s[|s| - 1]);
    StripTrimmed(s);
    UnsignedOfDigits(s);
    assert !(s[0] == '+' || s[0] == '-');
  }

  lemma GroupedExample()
    ensures GroupedDigits("0_7") && Ungrouped("0_7") == "07"
  {
    var x := "0_7";
    assert x[..2][..1] == "0" && x[..2] == "0_";
  }

  lemma DigitsValueExample()
    ensures AllDigits("07") && DigitsValue("07") == 7
  {
    assert "07"[..1] == "0";
  }

  /** `int("0_7") == 7`: an underscore between digits is skipped. */
  lemma ParseIntUnderscore()
    ensures ParseInt("0_7") == Some(7)
  {
    StripTrimmed("0_7");
    GroupedExample();
    DigitsValueExample();
    assert ParseUnsigned("0_7") == Some(7);
  }

  lemma DigitsValueYear()
    ensures AllDigits("2025") && DigitsValue("2025") == 2025
  {
    assert "2025"[..3] == "202" && "202"[..2] == "20" && "20"[..1] == "2";
  }

  /** `int("2025") == 2025`. */
  lemma ParseIntYear()
    ensures ParseInt("2025") == Some(2025)
  {
    StripTrimmed("2025");
    DigitsValueYear();
    UnsignedOfDigits("2025");
  }

  /** A doubled underscore makes `int()` raise. */
  lemma ParseIntDoubledUnderscore()
    ensures ParseInt("0__7") == None
  {
    StripTrimmed("0__7");
    assert "0__7"[1] == '_' && !IsDigit("0__7"[2]);
  }

  /** A leading or trailing underscore makes `int()` raise. */
  lemma ParseIntOuterUnderscore()
    ensures ParseInt("_07") == None && ParseInt("07_") == None
  {
    StripTrimmed("_07");
    StripTrimmed("07_");
  }

  // ---------------------------------------------------------------------------
  // Code-point order on strings and the sorts built on it
  // ---------------------------------------------------------------------------

  /** Python's `a <= b` on strings: lexicographic by code point, a proper
      prefix before its extensions. */
  predicate StrLe(a: string, b: string)
    decreases |a|
  {
    |a| == 0 || (|b| > 0 && (a[0] < b[0] || (a[0] == b[0] && StrLe(a[1..], b[1..]))))
  }

  predicate StrLt(a: string, b: string) {
    StrLe(a, b) && a != b
  }

  lemma {:induction false} StrLeReflexive(a: string)
    ensures StrLe(a, a)
    decreases |a|
  {
    if |a| > 0 {
      StrLeReflexive(a[1..]);
    }
  }

  lemma {:induction false} StrLeTotal(a: string, b: string)
    ensures StrLe(a, b) || StrLe(b, a)
    decreases |a|
  {
    if |a| > 0 && |b| > 0 && a[0] == b[0] {
      StrLeTotal(a[1..], b[1..]);
    }
  }

  lemma {:induction false} StrLeAntisymmetric(a: string, b: string)
    requires StrLe(a, b) && StrLe(b, a)
    ensures a == b
    decreases |a|
  {
    if |a| > 0 {
      StrLeAntisymmetric(a[1..], b[1..]);
      assert a == [a[0]] + a[1..] && b == [b[0]] + b[1..];
    }
  }

  lemma {:induction false} StrLeTransitive(a: string, b: string, c: string)
    requires StrLe(a, b) && StrLe(b, c)
    ensures StrLe(a, c)
    decreases |a|
  {
    if |a| > 0 && a[0] == b[0] && b[0] == c[0] {
      StrLeTransitive(a[1..], b[1..], c[1..]);
    }
  }

  ghost predicate Sorted(s: seq<string>) {
    forall i, j :: 0 <= i < j < |s| ==> StrLe(s[i], s[j])
  }

  ghost predicate StrictlySorted(s: seq<string>) {
    forall i, j :: 0 <= i < j < |s| ==> StrLt(s[i], s[j])
  }

  /** Inserts `x` into a sorted sequence, before the first element it does
      not exceed. */
  function Insert(x: string, s: seq<string>): (r: seq<string>)
    requires Sorted(s)
    ensures Sorted(r)
    ensures multiset(r) == multiset(s) + multiset{x}
    decreases |s|
  {
    if |s| == 0 || StrLe(x, s[0]) then
      forall j | 0 < j < |s| + 1 ensures StrLe(x, ([x] + s)[j]) {
        if j > 1 {
          StrLeTransitive(x, s[0], s[j - 1]);
        }
      }
      [x] + s
    else
      var t := Insert(x, s[1..]);
      assert s == [s[0]] + s[1..];
      StrLeTotal(x, s[0]);
      forall j | 0 <= j < |t| ensures StrLe(s[0], t[j]) {
        assert t[j] in multiset(t);
        if t[j] != x {
          assert t[j] in multiset(s[1..]);
          var k :| 0 <= k < |s[1..]| && s[1..][k] == t[j];
          assert s[k + 1] == t[j];
        }
      }
      [s[0]] + t
  }

  /** `sorted(s)`: a sorted permutation of `s` (insertion sort). */
  function Sort(s: seq<string>): (r: seq<string>)
    ensures Sorted(r)
    ensures multiset(r) == multiset(s)
    ensures |r| == |s|
  {
    if |s| == 0 then []
    else
      assert s == [s[0]] + s[1..];
      var r := Insert(s[0], Sort(s[1..]));
      assert |r| == |multiset(r)|;
      r
  }

  /** Inserts `x` into a strictly sorted sequence unless it is already there. */
  function InsertUnique(x: string, s: seq<string>): (r: seq<string>)
    requires StrictlySorted(s)
    ensures StrictlySorted(r)
    ensures forall y :: y in r <==> y == x || y in s
    decreases |s|
  {
    if |s| == 0 then [x]
    else if x == s[0] then s
    else if StrLe(x, s[0]) then
      forall j | 0 < j < |s| + 1 ensures StrLt(x, ([x] + s)[j]) {
        if j > 1 {
          StrLeTransitive(x, s[0], s[j - 1]);
          if x == s[j - 1] {
            StrLeAntisymmetric(x, s[0]);
          }
        }
      }
      [x] + s
    else
      var t := InsertUnique(x, s[1..]);
      StrLeTotal(x, s[0]);
      forall j | 0 <= j < |t| ensures StrLt(s[0], t[j]) {
        if t[j] != x {
          assert t[j] in s[1..];
          var k :| 0 <= k < |s| - 1 && s[1..][k] == t[j];
          assert s[k + 1] == t[j];
        }
      }
      [s[0]] + t
  }

  /** `sorted(set(s))`: the distinct elements of `s`, strictly ascending. */
  function SortedDistinct(s: seq<string>): (r: seq<string>)
    ensures StrictlySorted(r)
    ensures forall y :: y in r <==> y in s
  {
    if |s| == 0 then [] else InsertUnique(s[|s| - 1], SortedDistinct(s[..|s| - 1]))
  }

  // ---------------------------------------------------------------------------
  // Text order on fixed-width numbers
  // ---------------------------------------------------------------------------

  function Pow10(n: nat): (p: nat)
    ensures p >= 1
  {
    if n == 0 then 1 else 10 * Pow10(n - 1)
  }

  /** A string of `n` digits is worth less than `10^n`. */
  lemma {:induction false} DigitsBound(s: string)
    requires AllDigits(s)
    ensures DigitsValue(s) < Pow10(|s|)
    decreases |s|
  {
    if |s| > 0 {
      DigitsBound(s[..|s| - 1]);
    }
  }

  /** The leading digit's weight. */
  lemma {:induction false} DigitsFront(s: string)
    requires |s| > 0 && AllDigits(s)
    ensures DigitsValue(s) == DigitValue(s[0]) * Pow10(|s| - 1) + DigitsValue(s[1..])
    decreases |s|
  {
    if |s| > 1 {
      var init := s[..|s| - 1];
      DigitsFront(init);
      assert init[0] == s[0];
      var tail := s[1..];
      assert tail[..|tail| - 1] == init[1..] && tail[|tail| - 1] == s[|s| - 1];
      var a, p, r, d := DigitValue(s[0]), Pow10(|s| - 2), DigitsValue(init[1..]), DigitValue(s[|s| - 1]);
      FrontStep(DigitsValue(s), DigitsValue(init), a, p, r, d, DigitsValue(tail), Pow10(|s| - 1));
    } else {
      assert s[..0] == [];
    }
  }

  /** The arithmetic step of `DigitsFront`: appending a digit to a number
      and to its tail scales the leading digit's weight by ten. */
  lemma FrontStep(whole: nat, init: nat, a: nat, p: nat, r: nat, d: nat, tail: nat, q: nat)
    requires init == a * p + r && whole == init * 10 + d
    requires tail == r * 10 + d && q == 10 * p
    ensures whole == a * q + tail
  {
    calc {
      whole;
      (a * p + r) * 10 + d;
      a * (10 * p) + (r * 10 + d);
    }
  }

  /** Equal-length digit strings compare as text the way their values
      compare as numbers. */
  lemma {:induction false} DigitsOrder(a: string, b: string)
    requires |a| == |b| && AllDigits(a) && AllDigits(b)
    ensures StrLe(a, b) <==> DigitsValue(a) <= DigitsValue(b)
    decreases |a|
  {
    if |a| > 0 {
      DigitsFront(a);
      DigitsFront(b);
      DigitsBound(a[1..]);
      DigitsBound(b[1..]);
      var p := Pow10(|a| - 1);
      var da, db := DigitValue(a[0]), DigitValue(b[0]);
      if da < db {
        LeadingDigitDecides(da, db, p, DigitsValue(a[1..]), DigitsValue(b[1..]));
      } else if db < da {
        LeadingDigitDecides(db, da, p, DigitsValue(b[1..]), DigitsValue(a[1..]));
      } else {
        DigitsOrder(a[1..], b[1..]);
      }
    }
  }

  lemma LeadingDigitDecides(da: nat, db: nat, p: nat, x: nat, y: nat)
    requires da < db && x < p
    ensures da * p + x < db * p + y
  {
    calc {
      da * p + x;
    <
      da * p + p;
    ==
      (da + 1) * p;
    <=  { assert da + 1 <= db; }
      db * p;
    <=
      db * p + y;
    }
  }

  /** Equal-length digit strings are equal exactly when their values are. */
  lemma DigitsEqual(a: string, b: string)
    requires |a| == |b| && AllDigits(a) && AllDigits(b)
    ensures a == b <==> DigitsValue(a) == DigitsValue(b)
  {
    if DigitsValue(a) == DigitsValue(b) {
      DigitsOrder(a, b);
      DigitsOrder(b, a);
      StrLeAntisymmetric(a, b);
    }
  }

  /** Text order on concatenations whose first parts have the same length:
      the first parts decide unless they are equal. */
  lemma {:induction false} StrLeConcat(p: string, q: string, x: string, y: string)
    requires |p| == |q|
    ensures StrLe(p + x, q + y) <==> StrLt(p, q) || (p == q && StrLe(x, y))
    decreases |p|
  {
    if |p| == 0 {
      assert p + x == x && q + y == y;
    } else {
      assert (p + x)[0] == p[0] && (q + y)[0] == q[0];
      assert (p + x)[1..] == p[1..] + x && (q + y)[1..] == q[1..] + y;
      StrLeConcat(p[1..], q[1..], x, y);
      if p[0] == q[0] {
        assert p == [p[0]] + p[1..] && q == [q[0]] + q[1..];
        assert p == q <==> p[1..] == q[1..];
      } else if p[0] > q[0] {
        assert !StrLe(p, q);
      }
    }
  }
}
