/**
 * `GraphWrapper._resolve_base_url` (`app/agent/graph.py`): the Ollama base
 * URL normalised to `scheme://host:port`. A candidate without an `http://`
 * or `https://` prefix gets `http://`; the URL is then split the way
 * Python's `urllib.parse.urlsplit` splits it (tab, CR and LF removed, the
 * network location running from `//` to the first `/`, `?` or `#`), the
 * host is taken and lower-cased as `SplitResult.hostname` does, wildcard
 * hosts become the loopback address, and a missing or zero port becomes
 * 11434. Path, query and fragment are always dropped.
 */
module BaseUrl {

  import opened Wrappers
  import opened Text

  /** The `ValueError`s `urlsplit` and `SplitResult.port` raise. */
  datatype UrlError = InvalidIPv6 | PortNotInteger(text: string) | PortOutOfRange(value: nat)

  const LoopbackHost := "127.0.0.1"
  const DefaultPort: nat := 11434
  const MaxPort: nat := 65535

  predicate StartsWith(s: string, prefix: string) {
    |prefix| <= |s| && s[..|prefix|] == prefix
  }

  /** The prefixing step: `http://` unless the candidate already has one of
      the two schemes. */
  function WithScheme(candidate: string): (u: string)
    ensures StartsWith(u, "http://") || StartsWith(u, "https://")
    ensures StartsWith(candidate, "http://") || StartsWith(candidate, "https://") ==> u == candidate
    ensures !(StartsWith(candidate, "http://") || StartsWith(candidate, "https://")) ==> u == "http://" + candidate
  {
    if StartsWith(candidate, "http://") || StartsWith(candidate, "https://") then candidate
    else "http://" + candidate
  }

  /** The characters `urlsplit` deletes before splitting. */
  predicate IsUnsafe(c: char) {
    c == '\t' || c == '\r' || c == '\n'
  }

  function RemoveUnsafe(s: string): (r: string)
    ensures |r| <= |s|
    ensures forall i :: 0 <= i < |r| ==> !IsUnsafe(r[i])
    ensures (forall i :: 0 <= i < |s| ==> !IsUnsafe(s[i])) ==> r == s
    ensures forall c :: c in r ==> c in s
    decreases |s|
  {
    if |s| == 0 then ""
    else (if IsUnsafe(s[0]) then "" else [s[0]]) + RemoveUnsafe(s[1..])
  }

  /** Removing unsafe characters keeps a prefix that has none. */
  lemma {:induction false} RemoveUnsafePrefix(p: string, s: string)
    requires forall i :: 0 <= i < |p| ==> !IsUnsafe(p[i])
    ensures RemoveUnsafe(p + s) == p + RemoveUnsafe(s)
    decreases |p|
  {
    if |p| == 0 {
      assert p + s == s;
    } else {
      var t := p + s;
      assert t[0] == p[0] && !IsUnsafe(t[0]);
      assert t[1..] == p[1..] + s;
      assert RemoveUnsafe(t) == [p[0]] + RemoveUnsafe(p[1..] + s);
      RemoveUnsafePrefix(p[1..], s);
      assert p == [p[0]] + p[1..];
    }
  }

  // ---------------------------------------------------------------------------
  // str.partition and str.rpartition
  // ---------------------------------------------------------------------------

  /** `s.partition(c)[0]`. */
  function Before(s: string, c: char): (r: string)
    ensures c !in r
    ensures c !in s ==> r == s
    ensures StartsWith(s, r)
  {
    s[..IndexOf(s, c)]
  }

  /** `s.partition(c)[2]`: "" when `c` does not occur. */
  function After(s: string, c: char): (r: string)
    ensures c !in s ==> r == ""
    ensures c in s ==> s == Before(s, c) + [c] + r
  {
    var i := IndexOf(s, c);
    if i == |s| then "" else s[i + 1..]
  }

  /** `s.rpartition(c)[2]`: the text after the last `c`, all of `s` when
      there is none. */
  function AfterLast(s: string, c: char): (r: string)
    ensures c !in r
    ensures |r| <= |s| && r == s[|s| - |r|..]
    ensures c !in s ==> r == s
    decreases |s|
  {
    if |s| == 0 then ""
    else if s[|s| - 1] == c then ""
    else AfterLast(s[..|s| - 1], c) + [s[|s| - 1]]
  }

  // ---------------------------------------------------------------------------
  // urlsplit and SplitResult
  // ---------------------------------------------------------------------------

  predicate IsNetlocEnd(c: char) {
    c == '/' || c == '?' || c == '#'
  }

  /** The network location: from the start up to the first `/`, `?` or `#`. */
  function NetlocOf(rest: string): (netloc: string)
    ensures StartsWith(rest, netloc)
    ensures forall i :: 0 <= i < |netloc| ==> !IsNetlocEnd(netloc[i])
    ensures |netloc| < |rest| ==> IsNetlocEnd(rest[|netloc|])
    decreases |rest|
  {
    if |rest| == 0 || IsNetlocEnd(rest[0]) then "" else [rest[0]] + NetlocOf(rest[1..])
  }

  /** The bracket checks `urlsplit` makes on the network location: both
      brackets or neither; with a `[` in the host part, nothing before it and
      nothing but a `:` right after the `]`. The check of the bracketed text
      as an IPv6 or IPvFuture address is not modelled. */
  predicate BracketsOk(netloc: string) {
    && (('[' in netloc) <==> (']' in netloc))
    && var hostPort := AfterLast(netloc, '@');
       ('[' in netloc && '[' in hostPort) ==>
         && Before(hostPort, '[') == ""
         && var port := After(After(hostPort, '['), ']');
            port == "" || port[0] == ':'
  }

  /** `SplitResult._hostinfo`: the raw host and port text. */
  datatype HostInfo = HostInfo(hostname: string, port: string)

  function HostInfoOf(netloc: string): (h: HostInfo)
    ensures '@' !in h.hostname && '@' !in h.port
  {
    var hostinfo := AfterLast(netloc, '@');
    if '[' in hostinfo then
      var bracketed := After(hostinfo, '[');
      HostInfo(Before(bracketed, ']'), After(After(bracketed, ']'), ':'))
    else
      HostInfo(Before(hostinfo, ':'), After(hostinfo, ':'))
  }

  /** `SplitResult.hostname`'s case folding: lower case before the first
      `%`, the zone after it kept as written. */
  function LowerHost(h: string): (r: string)
    ensures |r| == |h|
  {
    var i := IndexOf(h, '%');
    Lower(h[..i]) + h[i..]
  }

  /** The hosts that mean "every interface": `0.0.0.0`, `::` and `[::]`. */
  predicate Wildcard(h: string) {
    h == "0.0.0.0" || h == "::" || h == "[::]"
  }

  /** The host written into the result: the loopback address for a missing
      host and for the wildcard hosts, the folded host otherwise. */
  function ResolveHost(hostname: string): (host: string)
    ensures host != "" && host != "0.0.0.0" && host != "::"
    ensures hostname == "" ==> host == LoopbackHost
    ensures hostname != "" && Wildcard(LowerHost(hostname)) ==> host == LoopbackHost
    ensures hostname != "" && !Wildcard(LowerHost(hostname)) ==> host == LowerHost(hostname)
    ensures LowerHost(host) == host
    ensures CleanHost(hostname) ==> CleanHost(host)
  {
    if hostname == "" then LoopbackFolded(); LoopbackHost
    else
      var h := LowerHost(hostname);
      FoldedHost(hostname);
      if Wildcard(h) then LoopbackFolded(); LoopbackHost else h
  }

  /** Text without capitals or `%` is its own folded host. */
  lemma LowerHostOfFolded(h: string)
    requires forall k :: 0 <= k < |h| ==> !IsUpper(h[k]) && h[k] != '%'
    ensures LowerHost(h) == h
  {
    IndexOfIs(h, '%', |h|);
    assert forall k :: 0 <= k < |h| ==> LowerChar(h[k]) == h[k];
  }

  /** The wildcard hosts `0.0.0.0`, `::` and `[::]` resolve to the loopback
      address. */
  lemma WildcardsBecomeLoopback()
    ensures ResolveHost("0.0.0.0") == LoopbackHost
    ensures ResolveHost("::") == LoopbackHost
    ensures ResolveHost("[::]") == LoopbackHost
  {
    LowerHostOfFolded("0.0.0.0");
    LowerHostOfFolded("::");
    LowerHostOfFolded("[::]");
  }

  lemma LowerHostExample()
    ensures LowerHost("Ab.C") == "ab.c"
  {
    var h := "Ab.C";
    IndexOfIs(h, '%', |h|);
    assert Lower(h) == [LowerChar('A'), LowerChar('b'), LowerChar('.'), LowerChar('C')];
  }

  /** An ordinary host is kept, lower-cased: `Ab.C` resolves to `ab.c`. */
  lemma OrdinaryHostFolded()
    ensures ResolveHost("Ab.C") == "ab.c"
  {
    LowerHostExample();
    assert !Wildcard("ab.c") by {
      assert |"ab.c"| == 4 && "ab.c"[0] == 'a' && "[::]"[0] == '[';
    }
  }

  /** What `ResolveHost` needs of a folded, non-empty host. */
  lemma FoldedHost(hostname: string)
    requires hostname != ""
    ensures LowerHost(hostname) != ""
    ensures LowerHost(LowerHost(hostname)) == LowerHost(hostname)
    ensures CleanHost(hostname) ==> CleanHost(LowerHost(hostname))
  {
    LowerHostIdempotent(hostname);
    if CleanHost(hostname) { LowerHostClean(hostname); }
  }

  /** `parts.port or 11434`: no port text or port 0 gives the default; text
      that is not all digits, or a value above 65535, is an error. The digit
      test is current CPython's (ASCII digits only); releases that used
      `int(port, 10)` also took a sign, blanks and underscores. */
  function ResolvePort(port: string): (r: Result<nat, UrlError>)
    ensures r.Success? ==> 1 <= r.value <= MaxPort
    ensures port == "" ==> r == Success(DefaultPort)
    ensures r.Failure? <==> port != "" && (!AllDigits(port) || DigitsValue(port) > MaxPort)
    ensures port != "" && AllDigits(port) && 1 <= DigitsValue(port) <= MaxPort ==> r == Success(DigitsValue(port))
    ensures port != "" && AllDigits(port) && DigitsValue(port) == 0 ==> r == Success(DefaultPort)
  {
    if port == "" then Success(DefaultPort)
    else if !AllDigits(port) then Failure(PortNotInteger(port))
    else
      var v := DigitsValue(port);
      if v > MaxPort then Failure(PortOutOfRange(v))
      else if v == 0 then Success(DefaultPort)
      else Success(v)
  }

  /** The pieces of a candidate that the normalisation uses. */
  datatype Parts = Parts(scheme: string, netloc: string)

  function SplitCandidate(candidate: string): (p: Parts)
    ensures p.scheme == "http" || p.scheme == "https"
    ensures NetlocText(p.netloc)
  {
    var u := RemoveUnsafe(WithScheme(candidate));
    SchemeKept(if StartsWith(WithScheme(candidate), "https://") then "https://" else "http://", WithScheme(candidate));
    var scheme := if StartsWith(u, "https://") then "https" else "http";
    var rest := u[|scheme| + 3..];
    NetlocOfText(rest);
    Parts(scheme, NetlocOf(rest))
  }

  /** The network location of text without unsafe characters is
      network-location text. */
  lemma NetlocOfText(rest: string)
    requires forall i :: 0 <= i < |rest| ==> !IsUnsafe(rest[i])
    ensures NetlocText(NetlocOf(rest))
  {
    var n := NetlocOf(rest);
    assert forall i :: 0 <= i < |n| ==> n[i] == rest[i];
  }

  /** What the normalisation keeps of a candidate: scheme, host and port. */
  datatype Endpoint = Endpoint(scheme: string, host: string, port: nat)

  /** A host as it can stand in a network location: no character that ends
      or splits one, none that `urlsplit` deletes. */
  predicate CleanHost(h: string) {
    forall i :: 0 <= i < |h| ==> !IsNetlocEnd(h[i]) && !IsUnsafe(h[i]) && h[i] != '@'
  }

  /**
   * The steps of `_resolve_base_url` up to the port default: `InvalidIPv6`
   * when the brackets of the network location are unbalanced or misplaced,
   * the port error when the port text is not a number in 0..65535;
   * otherwise the scheme (`https` exactly when the candidate asked for it),
   * a non-empty, lower-cased, non-wildcard host and a port in 1..65535.
   */
  function Resolve(candidate: string): (r: Result<Endpoint, UrlError>)
    ensures r.Failure? <==>
      var p := SplitCandidate(candidate);
      !BracketsOk(p.netloc) || ResolvePort(HostInfoOf(p.netloc).port).Failure?
    ensures r.Failure? && !BracketsOk(SplitCandidate(candidate).netloc) ==> r.error == InvalidIPv6
    ensures r.Success? ==> (r.value.scheme == "https" <==> StartsWith(candidate, "https://"))
    ensures r.Success? ==> r.value.scheme == "http" || r.value.scheme == "https"
    ensures r.Success? ==> 1 <= r.value.port <= MaxPort
    ensures r.Success? ==> r.value.host != "" && CleanHost(r.value.host)
    ensures r.Success? ==> LowerHost(r.value.host) == r.value.host
    ensures r.Success? ==> r.value.host != "0.0.0.0" && r.value.host != "::"
    ensures r.Success? && HostInfoOf(SplitCandidate(candidate).netloc).hostname == "" ==> r.value.host == LoopbackHost
    ensures r.Success? && HostInfoOf(SplitCandidate(candidate).netloc).port == "" ==> r.value.port == DefaultPort
    ensures r.Success? ==> var h := HostInfoOf(SplitCandidate(candidate).netloc);
      r.value.host == ResolveHost(h.hostname) && ResolvePort(h.port) == Success(r.value.port)
  {
    var p := SplitCandidate(candidate);
    SchemeOfCandidate(candidate);
    if !BracketsOk(p.netloc) then Failure(InvalidIPv6)
    else
      var info := HostInfoOf(p.netloc);
      var port :- ResolvePort(info.port);
      var host := ResolveHost(info.hostname);
      HostOfNetloc(p.netloc);
      Success(Endpoint(p.scheme, host, port))
  }

  /** The scheme `SplitCandidate` reads is `https` exactly when the
      candidate starts with `https://`. */
  lemma SchemeOfCandidate(candidate: string)
    ensures SplitCandidate(candidate).scheme == "https" <==> StartsWith(candidate, "https://")
  {
    var w := WithScheme(candidate);
    var u := RemoveUnsafe(w);
    if StartsWith(candidate, "https://") {
      SchemeKept("https://", w);
      assert StartsWith(u, "https://");
    } else {
      assert StartsWith(w, "http://");
      SchemeKept("http://", w);
      assert u[4] == "http://"[4] == ':';
      assert !StartsWith(u, "https://");
    }
  }

  /** A scheme prefix survives the removal of unsafe characters. */
  lemma SchemeKept(pre: string, w: string)
    requires pre == "http://" || pre == "https://"
    requires StartsWith(w, pre)
    ensures StartsWith(RemoveUnsafe(w), pre)
  {
    assert w == pre + w[|pre|..];
    RemoveUnsafePrefix(pre, w[|pre|..]);
  }

  /** Text free of the characters that end a network location or that
      `urlsplit` deletes. */
  predicate NetlocText(s: string) {
    forall i :: 0 <= i < |s| ==> !IsUnsafe(s[i]) && !IsNetlocEnd(s[i])
  }

  /** Partitioning network-location text gives network-location text. */
  lemma NetlocTextParts(s: string, c: char)
    requires NetlocText(s)
    ensures NetlocText(Before(s, c)) && NetlocText(After(s, c)) && NetlocText(AfterLast(s, c))
  {
    var i := IndexOf(s, c);
    NetlocTextSlice(s, 0, i);
    if i < |s| {
      NetlocTextSlice(s, i + 1, |s|);
    }
    NetlocTextSlice(s, |s| - |AfterLast(s, c)|, |s|);
  }

  lemma NetlocTextSlice(s: string, i: nat, j: nat)
    requires NetlocText(s) && i <= j <= |s|
    ensures NetlocText(s[i..j])
  {
    assert forall k :: 0 <= k < j - i ==> s[i..j][k] == s[i + k];
  }

  /** The host text `_hostinfo` yields is clean and never has brackets on
      both ends, so it never equals `"[::]"`. */
  lemma HostOfNetloc(netloc: string)
    requires NetlocText(netloc)
    ensures CleanHost(HostInfoOf(netloc).hostname)
    ensures ']' !in HostInfoOf(netloc).hostname || '[' !in HostInfoOf(netloc).hostname
  {
    var hostinfo := AfterLast(netloc, '@');
    NetlocTextParts(netloc, '@');
    var h := HostInfoOf(netloc).hostname;
    if '[' in hostinfo {
      var bracketed := After(hostinfo, '[');
      NetlocTextParts(hostinfo, '[');
      NetlocTextParts(bracketed, ']');
      assert h == Before(bracketed, ']');
    } else {
      NetlocTextParts(hostinfo, ':');
      assert h == Before(hostinfo, ':');
      assert h == hostinfo[..|h|];
    }
    assert '@' !in h;
  }

  lemma LoopbackFolded()
    ensures LowerHost(LoopbackHost) == LoopbackHost
    ensures CleanHost(LoopbackHost)
  {
    var h := LoopbackHost;
    LoopbackChars();
    forall i | 0 <= i < |h|
      ensures !IsNetlocEnd(h[i]) && !IsUnsafe(h[i]) && h[i] != '@' && h[i] != '%' && !IsUpper(h[i])
    {
      assert IsDotOrDigit(h[i]);
    }
    IndexOfIs(h, '%', |h|);
    var l := Lower(h);
    assert forall i :: 0 <= i < |h| ==> l[i] == h[i];
    assert h[..|h|] == h && h[|h|..] == [];
  }

  predicate IsDotOrDigit(c: char) {
    c == '.' || '0' <= c <= '9'
  }

  /** The loopback address is written with digits and dots only. */
  lemma LoopbackChars()
    ensures forall i :: 0 <= i < |LoopbackHost| ==> IsDotOrDigit(LoopbackHost[i])
  {
    assert LoopbackHost == ['1', '2', '7', '.', '0', '.', '0', '.', '1'];
  }

  /** Folding the case keeps a host clean. */
  lemma LowerHostClean(h: string)
    requires CleanHost(h)
    ensures CleanHost(LowerHost(h))
  {
    var i := IndexOf(h, '%');
    var l := LowerHost(h);
    forall k | 0 <= k < |l| ensures !IsNetlocEnd(l[k]) && !IsUnsafe(l[k]) && l[k] != '@' {
      if k < i {
        assert l[k] == LowerChar(h[k]);
      } else {
        assert l[k] == h[k];
      }
    }
  }

  /** Folding the case of a folded host changes nothing. */
  lemma LowerHostIdempotent(h: string)
    ensures LowerHost(LowerHost(h)) == LowerHost(h)
  {
    var i := IndexOf(h, '%');
    var l := LowerHost(h);
    assert forall k :: 0 <= k < i ==> l[k] == LowerChar(h[k]);
    assert forall k :: i <= k < |h| ==> l[k] == h[k];
    IndexOfIs(l, '%', i);
    assert l[..i] == Lower(h[..i]);
    assert l[i..] == h[i..];
    assert Lower(Lower(h[..i])) == Lower(h[..i]);
  }

  /** `urlunsplit((scheme, netloc, "", "", ""))`. */
  function Render(scheme: string, netloc: string): string {
    scheme + "://" + netloc
  }

  /** `f"{host}:{port}"`, as written: an IPv6 host goes in without brackets. */
  function NetlocAsWritten(e: Endpoint): string {
    e.host + ":" + NatToString(e.port)
  }

  /** `_resolve_base_url`, as written. */
  function ResolveBaseUrlAsWritten(candidate: string): (r: Result<string, UrlError>)
    ensures r.Failure? <==> Resolve(candidate).Failure?
    ensures r.Success? ==> r.value == Render(Resolve(candidate).value.scheme, NetlocAsWritten(Resolve(candidate).value))
  {
    var e :- Resolve(candidate);
    Success(Render(e.scheme, NetlocAsWritten(e)))
  }

  /** The host as a network location needs it: an IPv6 literal (a host with
      a `:`) in brackets. */
  function NetlocHost(host: string): (r: string)
    ensures ':' in host ==> r == "[" + host + "]"
    ensures ':' !in host ==> r == host
  {
    if ':' in host then "[" + host + "]" else host
  }

  /** `_resolve_base_url` with the host bracketed when it is an IPv6
      literal, so that the result parses back to the same endpoint. */
  function ResolveBaseUrl(candidate: string): (r: Result<string, UrlError>)
    ensures r.Failure? <==> Resolve(candidate).Failure?
    ensures r.Success? ==>
      var e := Resolve(candidate).value;
      r.value == Render(e.scheme, NetlocHost(e.host) + ":" + NatToString(e.port))
    ensures r.Success? && ':' !in Resolve(candidate).value.host ==> Success(r.value) == ResolveBaseUrlAsWritten(candidate)
  {
    var e :- Resolve(candidate);
    Success(Render(e.scheme, NetlocHost(e.host) + ":" + NatToString(e.port)))
  }

  // ---------------------------------------------------------------------------
  // Parsing a result back
  // ---------------------------------------------------------------------------

  /** Partitioning at the first `c` finds the `c` placed after a `c`-free
      prefix. */
  lemma PartitionAt(a: string, c: char, b: string)
    requires c !in a
    ensures Before(a + [c] + b, c) == a && After(a + [c] + b, c) == b
  {
    var s := a + [c] + b;
    assert forall k :: 0 <= k < |a| ==> s[k] == a[k];
    IndexOfIs(s, c, |a|);
    assert s[..|a|] == a && s[|a| + 1..] == b;
  }

  lemma {:induction false} NetlocOfWhole(s: string)
    requires NetlocText(s)
    ensures NetlocOf(s) == s
    decreases |s|
  {
    if |s| > 0 {
      assert NetlocText(s[1..]) by {
        assert forall i :: 0 <= i < |s[1..]| ==> s[1..][i] == s[i + 1];
      }
      NetlocOfWhole(s[1..]);
      assert s == [s[0]] + s[1..];
    }
  }

  /** A rendered URL splits back into its scheme and network location. */
  lemma SplitRendered(scheme: string, netloc: string)
    requires scheme == "http" || scheme == "https"
    requires NetlocText(netloc)
    ensures SplitCandidate(Render(scheme, netloc)) == Parts(scheme, netloc)
  {
    var pre := scheme + "://";
    var u := Render(scheme, netloc);
    assert u == pre + netloc;
    assert u[..|pre|] == pre;
    assert WithScheme(u) == u;
    RemoveUnsafePrefix(pre, netloc);
    assert RemoveUnsafe(netloc) == netloc;
    assert RemoveUnsafe(u) == u;
    assert StartsWith(u, "https://") <==> scheme == "https" by {
      if scheme == "http" {
        assert u[4] == ':';
      }
    }
    assert u[|scheme| + 3..] == netloc;
    NetlocOfWhole(netloc);
  }

  /** The network location a result carries for an endpoint. */
  function EndpointNetloc(e: Endpoint): string {
    NetlocHost(e.host) + ":" + NatToString(e.port)
  }

  /** What `Resolve` can return: the hosts and ports of its contract. */
  predicate ResolvedEndpoint(e: Endpoint) {
    && (e.scheme == "http" || e.scheme == "https")
    && 1 <= e.port <= MaxPort
    && e.host != "" && CleanHost(e.host)
    && LowerHost(e.host) == e.host
    && e.host != "0.0.0.0" && e.host != "::"
  }

  /** Port digits hold no character the host parsing looks for. */
  lemma DigitsPlain(digits: string)
    requires AllDigits(digits)
    ensures '[' !in digits && ']' !in digits && '@' !in digits && ':' !in digits
    ensures NetlocText(digits)
  {
  }

  /** A bracketed host and its port parse back. */
  lemma BracketedHostInfo(host: string, digits: string)
    requires CleanHost(host) && '[' !in host && ']' !in host && AllDigits(digits)
    ensures var n := "[" + host + "]" + ":" + digits;
            && BracketsOk(n)
            && HostInfoOf(n) == HostInfo(host, digits)
  {
    DigitsPlain(digits);
    var n := "[" + host + "]" + ":" + digits;
    assert '@' !in host;
    assert '@' !in n;
    assert AfterLast(n, '@') == n;
    var rest := host + [']'] + ([] + [':'] + digits);
    assert n == [] + ['['] + rest;
    PartitionAt([], '[', rest);
    PartitionAt(host, ']', [] + [':'] + digits);
    PartitionAt([], ':', digits);
    assert n[0] == '[';
    assert n[|host| + 1] == ']';
  }

  /** A host without `:` and its port parse back. */
  lemma PlainHostInfo(host: string, digits: string)
    requires CleanHost(host) && '[' !in host && ']' !in host && ':' !in host && AllDigits(digits)
    ensures var n := host + ":" + digits;
            && BracketsOk(n)
            && HostInfoOf(n) == HostInfo(host, digits)
  {
    DigitsPlain(digits);
    var n := host + ":" + digits;
    assert '@' !in host;
    assert '@' !in n && '[' !in n && ']' !in n;
    assert AfterLast(n, '@') == n;
    assert n == host + [':'] + digits;
    PartitionAt(host, ':', digits);
  }

  /** The network location of an endpoint parses back to its host and port. */
  lemma HostInfoRendered(host: string, port: nat)
    requires CleanHost(host) && '[' !in host && ']' !in host
    ensures var n := NetlocHost(host) + ":" + NatToString(port);
            && BracketsOk(n)
            && HostInfoOf(n) == HostInfo(host, NatToString(port))
  {
    if ':' in host {
      BracketedHostInfo(host, NatToString(port));
    } else {
      PlainHostInfo(host, NatToString(port));
    }
  }

  /** A resolved endpoint, rendered with bracketed IPv6 hosts, resolves to
      itself. */
  lemma ResolveRendered(e: Endpoint)
    requires ResolvedEndpoint(e) && '[' !in e.host && ']' !in e.host
    ensures Resolve(Render(e.scheme, EndpointNetloc(e))) == Success(e)
  {
    var n := EndpointNetloc(e);
    var digits := NatToString(e.port);
    assert NetlocText(n) by {
      assert forall i :: 0 <= i < |digits| ==> IsDigit(digits[i]);
      if ':' in e.host {
        assert n == "[" + e.host + "]" + ":" + digits;
      }
    }
    SplitRendered(e.scheme, n);
    HostInfoRendered(e.host, e.port);
    assert ResolvePort(digits) == Success(e.port);
    assert e.host != "[::]";
    assert ResolveHost(e.host) == e.host;
    SchemeOfCandidate(Render(e.scheme, n));
  }

  /** The corrected normalisation is idempotent: feeding its result back
      gives the same URL. Hosts holding a bracket are excluded; the address
      check of `urlsplit`, which this model leaves out, rejects them. */
  lemma ResolveBaseUrlIdempotent(candidate: string)
    requires ResolveBaseUrl(candidate).Success?
    requires '[' !in Resolve(candidate).value.host && ']' !in Resolve(candidate).value.host
    ensures ResolveBaseUrl(ResolveBaseUrl(candidate).value) == ResolveBaseUrl(candidate)
  {
    var e := Resolve(candidate).value;
    ResolveRendered(e);
  }

  /** As written, the normalisation is idempotent on hosts without a `:`
      (names and IPv4 addresses). */
  lemma AsWrittenIdempotentWithoutColon(candidate: string)
    requires ResolveBaseUrlAsWritten(candidate).Success?
    requires ':' !in Resolve(candidate).value.host
    requires '[' !in Resolve(candidate).value.host && ']' !in Resolve(candidate).value.host
    ensures ResolveBaseUrlAsWritten(ResolveBaseUrlAsWritten(candidate).value) == ResolveBaseUrlAsWritten(candidate)
  {
    var e := Resolve(candidate).value;
    ResolveRendered(e);
    assert EndpointNetloc(e) == NetlocAsWritten(e);
  }

  /** An unbracketed host with a `:` before a port: `_hostinfo` reads the
      host's first `:` as the separator, so the port text holds a `:`. */
  lemma UnbracketedColonPort(host: string, digits: string)
    requires CleanHost(host) && ':' in host && '[' !in host
    requires AllDigits(digits)
    ensures ':' in HostInfoOf(host + ":" + digits).port
  {
    DigitsPlain(digits);
    var n := host + ":" + digits;
    var a := Before(host, ':');
    var rest := After(host, ':');
    var b := rest + ":" + digits;
    assert n == a + [':'] + b;
    assert '@' !in host;
    assert '@' !in n && '[' !in n;
    assert AfterLast(n, '@') == n;
    PartitionAt(a, ':', b);
    assert b[|rest|] == ':';
  }

  /** The same URL is rejected. */
  lemma UnbracketedColonRejected(scheme: string, host: string, digits: string)
    requires scheme == "http" || scheme == "https"
    requires CleanHost(host) && ':' in host && '[' !in host
    requires AllDigits(digits)
    ensures Resolve(Render(scheme, host + ":" + digits)).Failure?
  {
    DigitsPlain(digits);
    var n := host + ":" + digits;
    assert NetlocText(n);
    SplitRendered(scheme, n);
    UnbracketedColonPort(host, digits);
    var port := HostInfoOf(n).port;
    assert !AllDigits(port);
    assert ResolvePort(port).Failure?;
  }

  /** As written, the normalisation of an IPv6 host cannot be fed back. */
  lemma AsWrittenRejectsOwnIPv6Result(candidate: string)
    requires ResolveBaseUrlAsWritten(candidate).Success?
    requires ':' in Resolve(candidate).value.host
    requires '[' !in Resolve(candidate).value.host && ']' !in Resolve(candidate).value.host
    ensures ResolveBaseUrlAsWritten(ResolveBaseUrlAsWritten(candidate).value).Failure?
  {
    var e := Resolve(candidate).value;
    UnbracketedColonRejected(e.scheme, e.host, NatToString(e.port));
  }

  /** The normalisation sees only the text after `http://`: prefixing is
      idempotent. */
  lemma SplitWithScheme(candidate: string)
    ensures SplitCandidate(WithScheme(candidate)) == SplitCandidate(candidate)
  {
    assert WithScheme(WithScheme(candidate)) == WithScheme(candidate);
  }

  lemma PortText8080()
    ensures NatToString(8080) == "8080"
  {
    CanonicalDigits("8080");
  }

  /** `::1` is a resolved host: clean and already folded. */
  lemma LoopbackV6Resolved()
    ensures ResolvedEndpoint(Endpoint("http", "::1", 8080))
  {
    var h := "::1";
    IndexOfIs(h, '%', 3);
    assert h[..3] == h && h[3..] == [];
    assert Lower(h) == h;
  }

  /** `Resolve` depends on the candidate only through its split. */
  lemma ResolveOfSplit(c1: string, c2: string)
    requires SplitCandidate(c1) == SplitCandidate(c2)
    ensures Resolve(c1) == Resolve(c2)
  {
  }

  /** `[::1]:8080` gets the `http://` prefix. */
  lemma IPv6LoopbackPrefixed()
    ensures WithScheme("[::1]:8080") == Render("http", "[::1]:8080")
  {
    var c := "[::1]:8080";
    assert c[0] == '[';
    assert !StartsWith(c, "http://") && !StartsWith(c, "https://");
  }

  lemma IPv6LoopbackNetloc()
    ensures EndpointNetloc(Endpoint("http", "::1", 8080)) == "[::1]:8080"
  {
    PortText8080();
    assert NetlocHost("::1") == "[::1]";
  }

  /** `http://::1:8080` is rejected. */
  lemma IPv6LoopbackUnbracketedRejected()
    ensures Resolve("http://::1:8080").Failure?
  {
    IPv6LoopbackAsWrittenText();
    assert CleanHost("::1") && ':' in "::1" && '[' !in "::1";
    assert AllDigits("8080");
    UnbracketedColonRejected("http", "::1", "8080");
  }

  /** A candidate whose prefixed form is the rendering of a resolved
      endpoint resolves to that endpoint. */
  lemma ResolvePrefixed(c: string, e: Endpoint)
    requires ResolvedEndpoint(e) && '[' !in e.host && ']' !in e.host
    requires WithScheme(c) == Render(e.scheme, EndpointNetloc(e))
    ensures Resolve(c) == Success(e)
  {
    SplitWithScheme(c);
    ResolveOfSplit(c, WithScheme(c));
    ResolveRendered(e);
  }

  /** The IPv6 loopback with a port resolves to host `::1`, port 8080. */
  lemma IPv6LoopbackEndpoint()
    ensures Resolve("[::1]:8080") == Success(Endpoint("http", "::1", 8080))
  {
    IPv6LoopbackPrefixed();
    IPv6LoopbackNetloc();
    LoopbackV6Resolved();
    ResolvePrefixed("[::1]:8080", Endpoint("http", "::1", 8080));
  }

  /** The as-written result for `[::1]:8080`. */
  lemma IPv6LoopbackAsWrittenText()
    ensures Render("http", NetlocAsWritten(Endpoint("http", "::1", 8080))) == "http://::1:8080"
    ensures Render("http", "::1" + ":" + "8080") == "http://::1:8080"
  {
    PortText8080();
  }

  /** The corrected result for `[::1]:8080`. */
  lemma IPv6LoopbackCorrectedText()
    ensures Render("http", EndpointNetloc(Endpoint("http", "::1", 8080))) == "http://[::1]:8080"
  {
    PortText8080();
    assert NetlocHost("::1") == "[::1]";
  }

  /** As written, `[::1]:8080` becomes `http://::1:8080`, which is then
      rejected; the corrected result keeps the brackets. */
  lemma IPv6LoopbackExample()
    ensures ResolveBaseUrlAsWritten("[::1]:8080") == Success("http://::1:8080")
    ensures ResolveBaseUrlAsWritten("http://::1:8080").Failure?
    ensures ResolveBaseUrl("[::1]:8080") == Success("http://[::1]:8080")
  {
    IPv6LoopbackAsWrittenText();
    IPv6LoopbackCorrectedText();
    IPv6LoopbackUnbracketedRejected();
    IPv6LoopbackEndpoint();
  }

  lemma DefaultPortText()
    ensures NatToString(DefaultPort) == "11434"
  {
    CanonicalDigits("11434");
  }

  /** A host that is already lower case is its own folding. */
  lemma LowerHostOfLower(h: string)
    requires Lower(h) == h
    ensures LowerHost(h) == h
  {
    var i := IndexOf(h, '%');
    var p := h[..i];
    forall k | 0 <= k < i ensures Lower(p)[k] == p[k] {
      assert LowerChar(h[k]) == Lower(h)[k];
    }
    assert Lower(p) == p;
    assert h == p + h[i..];
  }

  /** A bare host name resolves to itself with the default port. */
  lemma BareHostEndpoint(h: string)
    requires h != "" && CleanHost(h) && Lower(h) == h
    requires ':' !in h && '[' !in h && ']' !in h
    requires h != "0.0.0.0"
    ensures Resolve(h) == Success(Endpoint("http", h, DefaultPort))
  {
    assert |h| < 5 || h[4] != ':';
    assert |h| < 6 || h[5] != ':';
    assert !StartsWith(h, "http://") && !StartsWith(h, "https://");
    assert WithScheme(h) == Render("http", h);
    assert NetlocText(h);
    SplitRendered("http", h);
    SplitWithScheme(h);
    assert '@' !in h;
    assert AfterLast(h, '@') == h;
    assert HostInfoOf(h) == HostInfo(h, "");
    LowerHostOfLower(h);
    assert h != "::" && h != "[::]";
    assert ResolveHost(h) == h;
  }

  /** A bare lower-case host name (no scheme, port, user or path) gets the
      `http` scheme and the default port 11434. */
  lemma BareHostGetsDefaultPort(h: string)
    requires h != "" && CleanHost(h) && Lower(h) == h
    requires ':' !in h && '[' !in h && ']' !in h
    requires h != "0.0.0.0"
    ensures ResolveBaseUrl(h) == Success("http://" + h + ":11434")
  {
    BareHostEndpoint(h);
    DefaultPortText();
    assert NetlocHost(h) == h;
    var r := ResolveBaseUrl(h);
    assert r == Success(Render("http", h + ":" + NatToString(DefaultPort)));
    RenderBare(h);
  }

  lemma RenderBare(h: string)
    ensures Render("http", h + ":" + "11434") == "http://" + h + ":11434"
  {
  }
}
