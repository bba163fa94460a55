/**
 * `parse_query` of `dummy/kpi_csv_out/streamlit_app.py`: the date pair and
 * the client id a chat message names. Dates are the tokens that
 * `re.findall(r"\b(20\d{2}-\d{2}-\d{2})\b", text)` finds; the client id is
 * the group of `\bclient[_\s-]?id[:=]?\s*([A-Za-z0-9_-]+)\b` or, when that
 * matches nowhere, of `\bfor client\s+([A-Za-z0-9_-]+)\b`, both searched
 * case-insensitively. Characters are ASCII. The fuzzy KPI guess (difflib)
 * is an input: the model only fixes when it is consulted.
 */
module ChatQuery {

  import opened Wrappers
  import opened Text
  import IdHeuristic

  // ---------------------------------------------------------------------------
  // Dates
  // ---------------------------------------------------------------------------

  /** `\b20\d{2}-\d{2}-\d{2}\b` matches the ten characters from `p`. */
  predicate DateTokenAt(t: string, p: nat) {
    && p + 10 <= |t|
    && Boundary(t, p)
    && t[p] == '2' && t[p + 1] == '0' && IsDigit(t[p + 2]) && IsDigit(t[p + 3])
    && t[p + 4] == '-' && IsDigit(t[p + 5]) && IsDigit(t[p + 6])
    && t[p + 7] == '-' && IsDigit(t[p + 8]) && IsDigit(t[p + 9])
    && Boundary(t, p + 10)
  }

  /** Two date tokens never overlap. */
  lemma NoOverlap(t: string, p: nat, q: nat)
    requires DateTokenAt(t, p) && p < q < p + 10
    ensures !DateTokenAt(t, q)
  {
    if q + 10 <= |t| && q == p + 8 {
      assert IsWordChar(t[p + 9]);
      assert !IsDigit(t[q + 2]);
    }
  }

  /**
   * The scan of `re.findall`: a match at `i` is taken and the scan resumes
   * after it; otherwise the scan moves on by one. Returns the start
   * positions, which are all the positions from `i` where a token starts.
   */
  function DatePositions(t: string, i: nat): (ps: seq<nat>)
    requires i <= |t|
    ensures forall k :: 0 <= k < |ps| ==> i <= ps[k] && DateTokenAt(t, ps[k])
    ensures forall k, l :: 0 <= k < l < |ps| ==> ps[k] < ps[l]
    ensures forall p: nat :: i <= p && DateTokenAt(t, p) ==> p in ps
    decreases |t| - i
  {
    if i == |t| then []
    else if DateTokenAt(t, i) then
      var rest := DatePositions(t, i + 10);
      forall p: nat | i <= p && DateTokenAt(t, p) ensures p in [i] + rest {
        if i < p < i + 10 {
          NoOverlap(t, i, p);
        }
      }
      [i] + rest
    else
      DatePositions(t, i + 1)
  }

  /** The ten characters of the token at `p`. */
  function TokenAt(t: string, p: nat): (s: string)
    requires DateTokenAt(t, p)
    ensures |s| == 10
  {
    t[p..p + 10]
  }

  /** `re.findall` of the date pattern, in text order. */
  function FindDates(t: string): (ds: seq<string>)
    ensures var ps := DatePositions(t, 0);
            |ds| == |ps| && forall k :: 0 <= k < |ps| ==> ds[k] == TokenAt(t, ps[k])
  {
    var ps := DatePositions(t, 0);
    seq(|ps|, k requires 0 <= k < |ps| => TokenAt(t, ps[k]))
  }

  /** The date pair: the first two tokens, or neither when fewer than two
      occur. The tokens are not checked as calendar dates. */
  function DatePair(t: string): (r: (Option<string>, Option<string>))
    ensures r.0.Some? <==> r.1.Some?
    ensures r.0.None? <==> |DatePositions(t, 0)| < 2
    ensures r.0.Some? ==> exists p: nat, q: nat ::
      && p < q && DateTokenAt(t, p) && DateTokenAt(t, q)
      && r.0.value == TokenAt(t, p) && r.1.value == TokenAt(t, q)
      && (forall p': nat :: p' < p ==> !DateTokenAt(t, p'))
      && (forall q': nat :: p < q' < q ==> !DateTokenAt(t, q'))
  {
    var ds := FindDates(t);
    if |ds| >= 2 then
      (Some(ds[0]), Some(ds[1]))
    else (None, None)
  }

  /** The shape of a date token on its own. */
  predicate DateShaped(s: string) {
    && |s| == 10
    && s[0] == '2' && s[1] == '0' && IsDigit(s[2]) && IsDigit(s[3])
    && s[4] == '-' && IsDigit(s[5]) && IsDigit(s[6])
    && s[7] == '-' && IsDigit(s[8]) && IsDigit(s[9])
  }

  /** Two date-shaped words separated by a space are the pair, in the order
      written: a later start, or a month 13, goes through unchanged. */
  lemma TwoDatesInOrder(a: string, b: string)
    requires DateShaped(a) && DateShaped(b)
    ensures DatePair(a + " " + b) == (Some(a), Some(b))
  {
    var t := a + " " + b;
    assert DateTokenAt(t, 0) && t[..10] == a;
    assert DateTokenAt(t, 11) && t[11..21] == b;
    var ps := DatePositions(t, 0);
    assert 0 in ps && 11 in ps;
    forall p: nat | p < 11 && p != 0 ensures !DateTokenAt(t, p) {
      if p < 10 {
        NoOverlap(t, 0, p);
      }
    }
    var r := DatePair(t);
    var p: nat, q: nat :| && p < q && DateTokenAt(t, p) && DateTokenAt(t, q)
                          && r.0.value == TokenAt(t, p) && r.1.value == TokenAt(t, q)
                          && (forall p': nat :: p' < p ==> !DateTokenAt(t, p'))
                          && (forall q': nat :: p < q' < q ==> !DateTokenAt(t, q'));
    assert p == 0;
    assert q == 11;
  }

  // ---------------------------------------------------------------------------
  // Client id
  // ---------------------------------------------------------------------------

  /** `w` (lower case) occurs at `p`, compared without case. */
  predicate FoldedAt(t: string, p: nat, w: string) {
    p + |w| <= |t| && forall k :: 0 <= k < |w| ==> LowerChar(t[p + k]) == w[k]
  }

  /** The whitespace run from `i`, as `\s*` takes it. */
  function SpaceRun(t: string, i: nat): (n: nat)
    requires i <= |t|
    ensures i + n <= |t|
    ensures forall k :: i <= k < i + n ==> IsSpace(t[k])
    ensures i + n == |t| || !IsSpace(t[i + n])
    decreases |t| - i
  {
    if i < |t| && IsSpace(t[i]) then 1 + SpaceRun(t, i + 1) else 0
  }

  /** Backtracking from the greedy id run: the longest length in `1..upTo`
      whose end is a word boundary. */
  function LastBoundary(t: string, i: nat, upTo: nat): (r: Option<nat>)
    requires i + upTo <= |t|
    ensures r.Some? ==> 1 <= r.value <= upTo && Boundary(t, i + r.value)
    ensures r.Some? ==> forall p: nat :: i + r.value < p <= i + upTo ==> !Boundary(t, p)
    ensures r.None? ==> forall p: nat :: i + 1 <= p <= i + upTo ==> !Boundary(t, p)
    decreases upTo
  {
    if upTo < 1 then None
    else if Boundary(t, i + upTo) then Some(upTo)
    else LastBoundary(t, i, upTo - 1)
  }

  /** The group `([A-Za-z0-9_-]+)\b` from `i`: the longest run of id
      characters ending at a word boundary. */
  function GroupAt(t: string, i: nat): (r: Option<string>)
    requires i <= |t|
    ensures r.Some? ==> exists n: nat ::
      && 1 <= n && i + n <= |t| && r.value == t[i..i + n]
      && IdHeuristic.IdRun(t, i, n) && Boundary(t, i + n)
      && forall n': nat :: n < n' && i + n' <= |t| && IdHeuristic.IdRun(t, i, n') ==> !Boundary(t, i + n')
    ensures r.None? ==> forall n: nat :: 1 <= n && i + n <= |t| && IdHeuristic.IdRun(t, i, n) ==> !Boundary(t, i + n)
  {
    var run := IdHeuristic.RunLength(t, i);
    forall n: nat | i + n <= |t| && IdHeuristic.IdRun(t, i, n) ensures n <= run {
      IdHeuristic.RunBound(t, i, n);
    }
    match LastBoundary(t, i, run)
    case None => None
    case Some(n) =>
      assert IdHeuristic.IdRun(t, i, n) by {
        assert forall k :: i <= k < i + n ==> IsIdChar(t[k]);
      }
      Some(t[i..i + n])
  }

  /** A non-empty run of `[A-Za-z0-9_-]`. */
  predicate IdText(s: string) {
    |s| >= 1 && forall k :: 0 <= k < |s| ==> IsIdChar(s[k])
  }

  /** A group is a non-empty run of id characters. */
  lemma GroupShape(t: string, i: nat)
    requires i <= |t| && GroupAt(t, i).Some?
    ensures IdText(GroupAt(t, i).value)
  {
    var n: nat :| 1 <= n && i + n <= |t| && GroupAt(t, i).value == t[i..i + n] && IdHeuristic.IdRun(t, i, n);
    forall k | 0 <= k < n ensures IsIdChar(GroupAt(t, i).value[k]) {
      assert GroupAt(t, i).value[k] == t[i + k];
    }
  }

  /** `[_\s-]?`: one separator character when there is one. */
  function AfterSeparator(t: string, q: nat): (r: nat)
    requires q <= |t|
    ensures q <= r <= q + 1 && r <= |t|
  {
    if q < |t| && (t[q] == '_' || t[q] == '-' || IsSpace(t[q])) then q + 1 else q
  }

  /** `[:=]?`. */
  function AfterAssign(t: string, q: nat): (r: nat)
    requires q <= |t|
    ensures q <= r <= q + 1 && r <= |t|
  {
    if q < |t| && (t[q] == ':' || t[q] == '=') then q + 1 else q
  }

  /**
   * The first pattern tried at start `p`: a boundary, `client`, an optional
   * separator, `id`, an optional `:` or `=`, any whitespace, the group.
   * Each optional part is taken when present: leaving it out cannot let
   * the next part match, so the engine's backtracking never changes the
   * outcome.
   */
  function KeyedAt(t: string, p: nat): (g: Option<string>)
    ensures g.Some? ==> IdText(g.value)
  {
    if p <= |t| && Boundary(t, p) && FoldedAt(t, p, "client") then
      var q := AfterSeparator(t, p + 6);
      if FoldedAt(t, q, "id") then
        var r := AfterAssign(t, q + 2);
        var g := GroupAt(t, r + SpaceRun(t, r));
        if g.Some? then GroupShape(t, r + SpaceRun(t, r)); g else g
      else None
    else None
  }

  /** The second pattern at start `p`: a boundary, `for client`, at least
      one whitespace character, the group. */
  function PhrasedAt(t: string, p: nat): (g: Option<string>)
    ensures g.Some? ==> IdText(g.value)
  {
    if p <= |t| && Boundary(t, p) && FoldedAt(t, p, "for client") then
      var n := SpaceRun(t, p + 10);
      if n >= 1 then
        var g := GroupAt(t, p + 10 + n);
        if g.Some? then GroupShape(t, p + 10 + n); g else g
      else None
    else None
  }

  /** `re.search`: the result at the leftmost start from `i` (up to the end
      of the text, `last`) where the pattern matches. */
  function Leftmost(matchAt: nat -> Option<string>, i: nat, last: nat): (r: Option<string>)
    requires i <= last + 1
    ensures r.Some? ==> exists p: nat :: i <= p <= last && matchAt(p) == r
                          && forall p': nat :: i <= p' < p ==> matchAt(p').None?
    ensures r.None? <==> forall p: nat :: i <= p <= last ==> matchAt(p).None?
    decreases last + 1 - i
  {
    if i == last + 1 then None
    else if matchAt(i).Some? then matchAt(i)
    else Leftmost(matchAt, i + 1, last)
  }

  /** The first pattern's search. */
  function SearchKeyed(t: string): (r: Option<string>)
    ensures r.Some? ==> exists p: nat :: KeyedAt(t, p) == r && forall p': nat :: p' < p ==> KeyedAt(t, p').None?
    ensures r.None? <==> forall p: nat :: KeyedAt(t, p).None?
    ensures r.Some? ==> IdText(r.value)
  {
    var m := (p: nat) => KeyedAt(t, p);
    assert forall p: nat :: m(p) == KeyedAt(t, p);
    assert forall p: nat :: p > |t| ==> m(p).None?;
    Leftmost(m, 0, |t|)
  }

  /** The second pattern's search. */
  function SearchPhrased(t: string): (r: Option<string>)
    ensures r.Some? ==> exists p: nat :: PhrasedAt(t, p) == r && forall p': nat :: p' < p ==> PhrasedAt(t, p').None?
    ensures r.None? <==> forall p: nat :: PhrasedAt(t, p).None?
    ensures r.Some? ==> IdText(r.value)
  {
    var m := (p: nat) => PhrasedAt(t, p);
    assert forall p: nat :: m(p) == PhrasedAt(t, p);
    assert forall p: nat :: p > |t| ==> m(p).None?;
    Leftmost(m, 0, |t|)
  }

  /** The client id: the first pattern's group when it matches anywhere,
      else the second pattern's, else none. Whatever is extracted is a
      non-empty run of `[A-Za-z0-9_-]`. */
  function ClientOf(t: string): (r: Option<string>)
    ensures r.None? <==> forall p: nat :: KeyedAt(t, p).None? && PhrasedAt(t, p).None?
    ensures (exists p: nat :: KeyedAt(t, p).Some?) ==> r == SearchKeyed(t)
    ensures (forall p: nat :: KeyedAt(t, p).None?) ==> r == SearchPhrased(t)
    ensures r.Some? ==> IdText(r.value)
  {
    var keyed := SearchKeyed(t);
    if keyed.Some? then keyed else SearchPhrased(t)
  }

  /** A two-character id between a non-word character (or the start) and
      a non-id character (or the end) is the group there. */
  lemma GroupOfTwo(t: string, i: nat)
    requires i + 2 <= |t| && IsWordChar(t[i]) && IsWordChar(t[i + 1])
    requires i + 2 == |t| || !IsIdChar(t[i + 2])
    ensures GroupAt(t, i) == Some(t[i..i + 2])
  {
    assert IdHeuristic.RunLength(t, i + 2) == 0;
    assert IdHeuristic.RunLength(t, i) == 2;
    assert Boundary(t, i + 2);
  }

  /** Before position 14 of the example, "client" starts only at 4. */
  lemma NotClientAt(t: string, p: nat)
    requires t == "for client ab client_id=cd" && p < 14 && p != 4
    ensures !FoldedAt(t, p, "client")
  {
    var w := "client";
    if p < 4 {
      assert LowerChar(t[p]) != w[0] by {
        assert p == 0 || p == 1 || p == 2 || p == 3;
      }
    } else if p < 10 {
      assert LowerChar(t[p]) != w[0] by {
        assert p == 5 || p == 6 || p == 7 || p == 8 || p == 9;
      }
    } else {
      assert LowerChar(t[p]) != w[0] by {
        assert p == 10 || p == 11 || p == 12 || p == 13;
      }
    }
  }

  lemma NoKeyedBefore(t: string, p: nat)
    requires t == "for client ab client_id=cd" && p < 14
    ensures KeyedAt(t, p).None?
  {
    if p == 4 {
      assert AfterSeparator(t, 10) == 11;
      assert t[11] == 'a' && "id"[0] == 'i';
      assert LowerChar(t[11 + 0]) != "id"[0];
    } else {
      NotClientAt(t, p);
    }
  }

  lemma PhrasedInExample(t: string)
    requires t == "for client ab client_id=cd"
    ensures PhrasedAt(t, 0) == Some("ab")
  {
    PhraseOfExample(t);
    PhrasedTwoChars(t, 0);
  }

  /** The phrase, one space and a two-character id at `p`. */
  lemma PhrasedTwoChars(t: string, p: nat)
    requires p + 13 <= |t| && Boundary(t, p) && FoldedAt(t, p, "for client")
    requires IsSpace(t[p + 10]) && !IsSpace(t[p + 11])
    requires IsWordChar(t[p + 11]) && IsWordChar(t[p + 12])
    requires p + 13 == |t| || !IsIdChar(t[p + 13])
    ensures PhrasedAt(t, p) == Some(t[p + 11..p + 13])
  {
    assert SpaceRun(t, p + 11) == 0;
    assert SpaceRun(t, p + 10) == 1;
    GroupOfTwo(t, p + 11);
  }

  lemma PhraseOfExample(t: string)
    requires t == "for client ab client_id=cd"
    ensures 13 <= |t| && Boundary(t, 0) && FoldedAt(t, 0, "for client")
    ensures IsSpace(t[10]) && !IsSpace(t[11])
    ensures IsWordChar(t[11]) && IsWordChar(t[12]) && !IsIdChar(t[13])
    ensures t[11..13] == "ab"
  {
    assert FoldedAt(t, 0, "for client");
  }

  lemma KeyedInExample(t: string)
    requires t == "for client ab client_id=cd"
    ensures KeyedAt(t, 14) == Some("cd")
  {
    KeyOfExample(t);
    KeyedTwoChars(t, 14);
  }

  /** `client_id=` and a two-character id at `p`. */
  lemma KeyedTwoChars(t: string, p: nat)
    requires p + 12 <= |t| && Boundary(t, p) && FoldedAt(t, p, "client")
    requires t[p + 6] == '_' && FoldedAt(t, p + 7, "id") && t[p + 9] == '='
    requires !IsSpace(t[p + 10]) && IsWordChar(t[p + 10]) && IsWordChar(t[p + 11])
    requires p + 12 == |t| || !IsIdChar(t[p + 12])
    ensures KeyedAt(t, p) == Some(t[p + 10..p + 12])
  {
    assert AfterSeparator(t, p + 6) == p + 7;
    assert AfterAssign(t, p + 9) == p + 10;
    assert SpaceRun(t, p + 10) == 0;
    GroupOfTwo(t, p + 10);
  }

  lemma KeyOfExample(t: string)
    requires t == "for client ab client_id=cd"
    ensures |t| == 26 && Boundary(t, 14) && FoldedAt(t, 14, "client")
    ensures t[20] == '_' && FoldedAt(t, 21, "id") && t[23] == '='
    ensures !IsSpace(t[24]) && IsWordChar(t[24]) && IsWordChar(t[25])
    ensures t[24..26] == "cd"
  {
    assert FoldedAt(t, 14, "client");
    assert FoldedAt(t, 21, "id");
  }

  /** The keyed form wins even when the phrased form occurs first: in
      "for client ab client_id=cd" the id is "cd", not "ab". */
  lemma KeyedFormWins(t: string)
    requires t == "for client ab client_id=cd"
    ensures PhrasedAt(t, 0) == Some("ab")
    ensures ClientOf(t) == Some("cd")
  {
    PhrasedInExample(t);
    KeyedInExample(t);
    forall p: nat | p < 14 ensures KeyedAt(t, p).None? {
      NoKeyedBefore(t, p);
    }
    var r := SearchKeyed(t);
    var p: nat :| KeyedAt(t, p) == r && forall p': nat :: p' < p ==> KeyedAt(t, p').None?;
    assert p == 14;
  }

  // ---------------------------------------------------------------------------
  // parse_query
  // ---------------------------------------------------------------------------

  datatype ParsedQuery = ParsedQuery(start: Option<string>, end: Option<string>,
                                     kpi: Option<string>, client: Option<string>)

  /**
   * `parse_query(text, known_kpis)`. `fuzzyGuess` stands for what difflib's
   * close matching picks from the known names; it is consulted only when
   * there are known names.
   */
  function ParseQuery(text: string, knownKpis: seq<string>, fuzzyGuess: Option<string>): (r: ParsedQuery)
    ensures (r.start, r.end) == DatePair(text)
    ensures r.client == ClientOf(text)
    ensures |knownKpis| == 0 ==> r.kpi.None?
    ensures |knownKpis| > 0 ==> r.kpi == fuzzyGuess
  {
    var dates := DatePair(text);
    ParsedQuery(dates.0, dates.1, if |knownKpis| > 0 then fuzzyGuess else None, ClientOf(text))
  }
}
