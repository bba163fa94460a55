/**
 * The client-id heuristic of `GraphWrapper._extract_client_id`: the first
 * match of `\b([A-Za-z0-9_\-]{4,})\b` that `re.search` finds. A match starts
 * at a word boundary, runs over id characters (letters, digits, `_`, `-`),
 * is at least four long and ends at a word boundary; `re.search` takes the
 * leftmost start and, there, the longest run its backtracking accepts.
 * Word characters are ASCII letters, digits and `_` (so `-` is an id
 * character but not a word character).
 */
module IdHeuristic {

  import opened Wrappers
  import opened Text

  /** Every character of `t[i..i+n]` is an id character. */
  predicate IdRun(t: string, i: nat, n: nat)
    requires i + n <= |t|
  {
    forall k :: i <= k < i + n ==> IsIdChar(t[k])
  }

  /** The pattern matches `t[i..i+n]`. */
  predicate MatchAt(t: string, i: nat, n: nat) {
    && i + n <= |t|
    && n >= 4
    && Boundary(t, i)
    && IdRun(t, i, n)
    && Boundary(t, i + n)
  }

  /** The greedy `{4,}`: the length of the longest id run from `i`. */
  function RunLength(t: string, i: nat): (n: nat)
    requires i <= |t|
    ensures i + n <= |t|
    ensures IdRun(t, i, n)
    ensures i + n == |t| || !IsIdChar(t[i + n])
    decreases |t| - i
  {
    if i < |t| && IsIdChar(t[i]) then 1 + RunLength(t, i + 1) else 0
  }

  /** Backtracking from the greedy run: the longest length in `4..upTo`
      whose end is a word boundary. */
  function LongestEnd(t: string, i: nat, upTo: nat): (r: Option<nat>)
    requires i + upTo <= |t|
    ensures r.Some? ==> 4 <= r.value <= upTo && Boundary(t, i + r.value)
    ensures r.Some? ==> forall p: nat :: i + r.value < p <= i + upTo ==> !Boundary(t, p)
    ensures r.None? ==> forall p: nat :: i + 4 <= p <= i + upTo ==> !Boundary(t, p)
    decreases upTo
  {
    if upTo < 4 then None
    else if Boundary(t, i + upTo) then Some(upTo)
    else LongestEnd(t, i, upTo - 1)
  }

  /** An id run from `i` is never longer than the greedy run. */
  lemma RunBound(t: string, i: nat, n: nat)
    requires i + n <= |t| && IdRun(t, i, n)
    ensures n <= RunLength(t, i)
  {
  }

  /** The match the engine finds when it tries start `i`: its length. */
  function MatchFrom(t: string, i: nat): (r: Option<nat>)
    requires i <= |t|
    ensures r.Some? ==> MatchAt(t, i, r.value)
    ensures r.Some? ==> forall n: nat :: MatchAt(t, i, n) ==> n <= r.value
    ensures r.None? ==> forall n: nat :: !MatchAt(t, i, n)
  {
    if !Boundary(t, i) then None
    else
      var run := RunLength(t, i);
      var r := LongestEnd(t, i, run);
      assert forall n: nat :: MatchAt(t, i, n) ==> n <= run && Boundary(t, i + n) by {
        forall n: nat | MatchAt(t, i, n) ensures n <= run {
          RunBound(t, i, n);
        }
      }
      assert r.Some? ==> IdRun(t, i, r.value) by {
        if r.Some? {
          assert forall k :: i <= k < i + r.value ==> IsIdChar(t[k]);
        }
      }
      r
  }

  /** `re.search` from start `i` onwards: the first start with a match. */
  function SearchFrom(t: string, i: nat): (r: Option<(nat, nat)>)
    requires i <= |t|
    ensures r.Some? ==> i <= r.value.0 && MatchAt(t, r.value.0, r.value.1)
    ensures r.Some? ==> forall n: nat :: MatchAt(t, r.value.0, n) ==> n <= r.value.1
    ensures r.Some? ==> forall s: nat, n: nat :: i <= s < r.value.0 ==> !MatchAt(t, s, n)
    ensures r.None? ==> forall s: nat, n: nat :: i <= s ==> !MatchAt(t, s, n)
    decreases |t| - i
  {
    match MatchFrom(t, i)
    case Some(n) => Some((i, n))
    case None =>
      if i == |t| then
        assert forall s: nat, n: nat :: i <= s ==> !MatchAt(t, s, n);
        None
      else SearchFrom(t, i + 1)
  }

  /**
   * `_extract_client_id`: `None` when the pattern matches nowhere; otherwise
   * the leftmost match, taken as long as the pattern allows there.
   */
  function ExtractClientId(text: string): (r: Option<string>)
    ensures r.None? <==> forall s: nat, n: nat :: !MatchAt(text, s, n)
    ensures r.Some? ==> exists s: nat, n: nat ::
      && MatchAt(text, s, n)
      && r.value == text[s..s + n]
      && (forall s': nat, n': nat :: s' < s ==> !MatchAt(text, s', n'))
      && (forall n': nat :: MatchAt(text, s, n') ==> n' <= n)
  {
    match SearchFrom(text, 0)
    case None => None
    case Some((s, n)) => Some(text[s..s + n])
  }

  /** Whatever the heuristic returns is a run of at least four id characters. */
  lemma ExtractedShape(text: string)
    requires ExtractClientId(text).Some?
    ensures |ExtractClientId(text).value| >= 4
    ensures forall k :: 0 <= k < |ExtractClientId(text).value| ==> IsIdChar(ExtractClientId(text).value[k])
  {
    var s: nat, n: nat :| MatchAt(text, s, n) && ExtractClientId(text).value == text[s..s + n];
    var v := text[s..s + n];
    forall k | 0 <= k < |v| ensures IsIdChar(v[k]) {
      assert v[k] == text[s + k];
    }
  }

  /** A match at the very start that the next character cannot extend is
      what the heuristic returns. */
  lemma MatchAtStart(t: string, n: nat)
    requires MatchAt(t, 0, n) && (n == |t| || !IsIdChar(t[n]))
    ensures ExtractClientId(t) == Some(t[..n])
  {
    var s: nat, m: nat :| && MatchAt(t, s, m)
                         && ExtractClientId(t).value == t[s..s + m]
                         && (forall s': nat, n': nat :: s' < s ==> !MatchAt(t, s', n'))
                         && (forall n': nat :: MatchAt(t, s, n') ==> n' <= m);
    assert s == 0;
    assert MatchAt(t, 0, m);
    assert m <= |t| && IdRun(t, 0, m);
    assert m <= n;
  }

  /** The first word wins: in "show churn for client42 please" the heuristic
      picks "show", not "client42". */
  lemma FirstLongWordWins()
    ensures ExtractClientId("show churn for client42 please") == Some("show")
  {
    var t := "show churn for client42 please";
    assert t[..4] == "show" && t[4] == ' ';
    assert IsWordChar(t[0]) && IsWordChar(t[1]) && IsWordChar(t[2]) && IsWordChar(t[3]);
    FourWordCharsFirst(t);
  }

  /** Four word characters and a space at the start are the match. */
  lemma FourWordCharsFirst(t: string)
    requires |t| >= 5 && t[4] == ' '
    requires IsWordChar(t[0]) && IsWordChar(t[1]) && IsWordChar(t[2]) && IsWordChar(t[3])
    ensures ExtractClientId(t) == Some(t[..4])
  {
    assert Boundary(t, 0) && Boundary(t, 4);
    assert IdRun(t, 0, 4);
    MatchAtStart(t, 4);
  }
}
