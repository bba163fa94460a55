/**
 * The KPI rule engine of `app/services/dummy_services.py`: the fetch of a
 * client's most recent KPI documents, the traffic-light thresholds, the
 * monitoring items and summary, anomaly counting and scoring, and the trend
 * labels chosen by the sign of a least-squares slope. Reals stand for the
 * source's floats; rounding for display is not modelled.
 */
module MonitorServices {

  import opened Wrappers
  import opened Text
  import opened Store

  // ---------------------------------------------------------------------------
  // _fetch_kpis
  // ---------------------------------------------------------------------------

  /** The documents of one client, in collection order. */
  function ClientDocs(kpis: seq<KpiDoc>, clientId: string): (r: seq<KpiDoc>)
    ensures forall i :: 0 <= i < |r| ==> r[i].clientId == clientId
    ensures multiset(r) <= multiset(kpis)
  {
    if |kpis| == 0 then []
    else
      var rest := ClientDocs(kpis[..|kpis| - 1], clientId);
      var last := kpis[|kpis| - 1];
      assert kpis == kpis[..|kpis| - 1] + [last];
      if last.clientId == clientId then rest + [last] else rest
  }

  /** No document of the client is missed. */
  lemma {:induction false} ClientDocsComplete(kpis: seq<KpiDoc>, clientId: string)
    ensures forall d :: d in kpis && d.clientId == clientId ==> d in ClientDocs(kpis, clientId)
  {
    if |kpis| > 0 {
      var init := kpis[..|kpis| - 1];
      ClientDocsComplete(init, clientId);
      assert kpis == init + [kpis[|kpis| - 1]];
    }
  }

  /** Ascending by date (ties in any order). */
  ghost predicate ByDate(s: seq<KpiDoc>) {
    forall i, j :: 0 <= i < j < |s| ==> s[i].date <= s[j].date
  }

  /** A document no later than any of a date-ordered run may lead it. */
  lemma ByDateCons(a: KpiDoc, t: seq<KpiDoc>)
    requires ByDate(t)
    requires forall j :: 0 <= j < |t| ==> a.date <= t[j].date
    ensures ByDate([a] + t)
  {
    var r := [a] + t;
    forall i, j | 0 <= i < j < |r| ensures r[i].date <= r[j].date {
      assert r[j] == t[j - 1];
      if i > 0 {
        assert r[i] == t[i - 1];
      }
    }
  }

  function InsertByDate(x: KpiDoc, s: seq<KpiDoc>): (r: seq<KpiDoc>)
    requires ByDate(s)
    ensures ByDate(r)
    ensures multiset(r) == multiset(s) + multiset{x}
  {
    if |s| == 0 || x.date <= s[0].date then
      assert forall j :: 0 <= j < |s| ==> x.date <= s[j].date by {
        assert forall j :: 0 < j < |s| ==> s[0].date <= s[j].date;
      }
      ByDateCons(x, s);
      [x] + s
    else
      var t := InsertByDate(x, s[1..]);
      assert s == [s[0]] + s[1..];
      assert ByDate(s[1..]) by {
        assert forall j :: 0 <= j < |s| - 1 ==> s[1..][j] == s[j + 1];
      }
      forall j | 0 <= j < |t| ensures s[0].date <= t[j].date {
        assert t[j] in multiset(t);
        if t[j] != x {
          assert t[j] in s[1..];
        }
      }
      ByDateCons(s[0], t);
      [s[0]] + t
  }

  function SortByDate(s: seq<KpiDoc>): (r: seq<KpiDoc>)
    ensures ByDate(r)
    ensures multiset(r) == multiset(s)
    ensures |r| == |s|
  {
    if |s| == 0 then []
    else
      assert s == [s[0]] + s[1..];
      var r := InsertByDate(s[0], SortByDate(s[1..]));
      assert |r| == |multiset(r)|;
      r
  }

  /** Of a date-sorted sequence, every element before a cut is no later
      than any element from the cut on. */
  lemma SuffixIsLatest(sorted: seq<KpiDoc>, cut: nat)
    requires ByDate(sorted) && cut <= |sorted|
    ensures forall d, k ::
              d in multiset(sorted) - multiset(sorted[cut..]) && 0 <= k < |sorted| - cut ==>
              d.date <= sorted[cut..][k].date
  {
    var r := sorted[cut..];
    assert sorted == sorted[..cut] + r;
    assert multiset(sorted) == multiset(sorted[..cut]) + multiset(r);
    forall d, k | d in multiset(sorted) - multiset(r) && 0 <= k < |r|
      ensures d.date <= r[k].date
    {
      assert d in sorted[..cut];
      var i :| 0 <= i < cut && sorted[i] == d;
      assert r[k] == sorted[cut + k];
    }
  }

  /**
   * `_fetch_kpis(client_id, days)`: of the client's documents, the `days`
   * most recent by date, returned in ascending date order.
   */
  function FetchKpis(kpis: seq<KpiDoc>, clientId: string, days: int): (r: seq<KpiDoc>)
    requires days >= 1
    ensures forall i :: 0 <= i < |r| ==> r[i].clientId == clientId
    ensures ByDate(r)
    ensures multiset(r) <= multiset(ClientDocs(kpis, clientId))
    ensures |r| == if |ClientDocs(kpis, clientId)| < days then |ClientDocs(kpis, clientId)| else days
  {
    var mine := ClientDocs(kpis, clientId);
    var sorted := SortByDate(mine);
    var cut := if |sorted| < days then 0 else |sorted| - days;
    SuffixFacts(mine, sorted, cut, clientId);
    sorted[cut..]
  }

  /** A suffix of the date-sorted documents of one client is date-sorted,
      drawn from them, and holds only that client's documents. */
  lemma SuffixFacts(mine: seq<KpiDoc>, sorted: seq<KpiDoc>, cut: nat, clientId: string)
    requires forall i :: 0 <= i < |mine| ==> mine[i].clientId == clientId
    requires ByDate(sorted) && multiset(sorted) == multiset(mine) && cut <= |sorted|
    ensures ByDate(sorted[cut..])
    ensures multiset(sorted[cut..]) <= multiset(mine)
    ensures forall i :: 0 <= i < |sorted| - cut ==> sorted[cut..][i].clientId == clientId
  {
    var r := sorted[cut..];
    forall i, j | 0 <= i < j < |r| ensures r[i].date <= r[j].date {
      assert r[i] == sorted[cut + i] && r[j] == sorted[cut + j];
    }
    assert sorted == sorted[..cut] + r;
    forall i | 0 <= i < |r| ensures r[i].clientId == clientId {
      assert r[i] in multiset(mine);
      var j :| 0 <= j < |mine| && mine[j] == r[i];
    }
  }

  /** Every document of the client that the fetch leaves out is no later
      than any document it returns. */
  lemma FetchKpisKeepsLatest(kpis: seq<KpiDoc>, clientId: string, days: int)
    requires days >= 1
    ensures forall d, k ::
              d in multiset(ClientDocs(kpis, clientId)) - multiset(FetchKpis(kpis, clientId, days))
              && 0 <= k < |FetchKpis(kpis, clientId, days)| ==>
              d.date <= FetchKpis(kpis, clientId, days)[k].date
  {
    var mine := ClientDocs(kpis, clientId);
    var sorted := SortByDate(mine);
    var cut := if |sorted| < days then 0 else |sorted| - days;
    var r := FetchKpis(kpis, clientId, days);
    assert r == sorted[cut..];
    assert multiset(mine) - multiset(r) == multiset(sorted) - multiset(sorted[cut..]);
    SuffixIsLatest(sorted, cut);
  }

  // ---------------------------------------------------------------------------
  // Traffic lights
  // ---------------------------------------------------------------------------

  datatype Status = Green | Yellow | Red

  /** 0 for green, 1 for yellow, 2 for red. */
  function Severity(s: Status): nat {
    match s
    case Green => 0
    case Yellow => 1
    case Red => 2
  }

  /** `_status_mrr`: by the relative change from the previous value. */
  function StatusMrr(prev: Option<real>, curr: real): Status {
    if prev.None? || prev.value <= 0.0 then Green
    else
      var change := (curr - prev.value) / prev.value;
      if change < -0.10 then Red
      else if change < -0.03 then Yellow
      else Green
  }

  /** The MRR light in multiplicative form: red below 90% of a positive
      previous value, yellow below 97%, green otherwise or without one. */
  lemma StatusMrrBands(prev: Option<real>, curr: real)
    ensures prev.None? || prev.value <= 0.0 ==> StatusMrr(prev, curr) == Green
    ensures prev.Some? && prev.value > 0.0 ==>
      && (StatusMrr(prev, curr) == Red <==> curr < 0.90 * prev.value)
      && (StatusMrr(prev, curr) == Yellow <==> 0.90 * prev.value <= curr < 0.97 * prev.value)
      && (StatusMrr(prev, curr) == Green <==> 0.97 * prev.value <= curr)
  {
    if prev.Some? && prev.value > 0.0 {
      var p := prev.value;
      var change := (curr - p) / p;
      assert change * p == curr - p;
      ScaleByPositive(change, -0.10, p);
      ScaleByPositive(change, -0.03, p);
      assert change < -0.10 <==> curr < 0.90 * p by {
        assert change < -0.10 <==> change * p < -0.10 * p;
        assert -0.10 * p + p == 0.90 * p;
      }
      assert change < -0.03 <==> curr < 0.97 * p by {
        assert change < -0.03 <==> change * p < -0.03 * p;
        assert -0.03 * p + p == 0.97 * p;
      }
      assert StatusMrr(prev, curr) == (if change < -0.10 then Red else if change < -0.03 then Yellow else Green);
    }
  }

  /** Multiplying both sides by a positive number keeps a strict order. */
  lemma ScaleByPositive(a: real, b: real, p: real)
    requires p > 0.0
    ensures a < b <==> a * p < b * p
  {
    if a < b {
      assert (b - a) * p > 0.0;
    } else {
      assert (a - b) * p >= 0.0;
    }
  }

  /** A higher current MRR never gives a worse light. */
  lemma StatusMrrMonotone(prev: Option<real>, a: real, b: real)
    requires a <= b
    ensures Severity(StatusMrr(prev, b)) <= Severity(StatusMrr(prev, a))
  {
    StatusMrrBands(prev, a);
    StatusMrrBands(prev, b);
  }

  /** `_status_churn`. */
  function StatusChurn(churn: real): (s: Status)
    ensures s == Red <==> churn > 0.05
    ensures s == Green <==> churn <= 0.03
  {
    if churn > 0.05 then Red else if churn > 0.03 then Yellow else Green
  }

  /** A lower churn never gives a worse light. */
  lemma StatusChurnMonotone(a: real, b: real)
    requires a <= b
    ensures Severity(StatusChurn(a)) <= Severity(StatusChurn(b))
  {
  }

  /** `_status_active_users`. */
  function StatusActiveUsers(users: int): (s: Status)
    ensures s == Red <==> users < 650
    ensures s == Green <==> users >= 750
  {
    if users < 650 then Red else if users < 750 then Yellow else Green
  }

  /** More active users never give a worse light. */
  lemma StatusActiveUsersMonotone(a: int, b: int)
    requires a <= b
    ensures Severity(StatusActiveUsers(b)) <= Severity(StatusActiveUsers(a))
  {
  }

  // ---------------------------------------------------------------------------
  // DummyMonitorService
  // ---------------------------------------------------------------------------

  const MrrName := "monthly_recurring_revenue"
  const ChurnName := "churn_rate"
  const UsersName := "active_users"

  /** `MonitoringItem`; `date` is the document's day number. */
  datatype MonitoringItem = MonitoringItem(date: int, kpiName: string, value: real, status: Status)

  /** The MRR of the document before position k, or `start` for the first. */
  function PrevMrr(docs: seq<KpiDoc>, k: nat, start: Option<real>): Option<real>
    requires k < |docs|
  {
    if k == 0 then start else Some(docs[k - 1].mrr)
  }

  /** The three items of one document, MRR judged against `prev`. */
  function ItemsOfDoc(d: KpiDoc, prev: Option<real>): seq<MonitoringItem> {
    [MonitoringItem(d.date, MrrName, d.mrr, StatusMrr(prev, d.mrr)),
     MonitoringItem(d.date, ChurnName, d.churnRate, StatusChurn(d.churnRate)),
     MonitoringItem(d.date, UsersName, d.activeUsers as real, StatusActiveUsers(d.activeUsers))]
  }

  /** The loop of `get_client_monitoring_data`, `prev` being the MRR carried
      from the previous document. */
  function ItemsFrom(docs: seq<KpiDoc>, prev: Option<real>): (items: seq<MonitoringItem>)
    ensures |items| == 3 * |docs|
  {
    if |docs| == 0 then [] else ItemsOfDoc(docs[0], prev) + ItemsFrom(docs[1..], Some(docs[0].mrr))
  }

  /** Items 3k, 3k+1 and 3k+2 are document k's MRR, churn and active-users
      items, its MRR judged against document k-1 (against `prev` for k = 0). */
  lemma {:induction false} ItemsFromLayout(docs: seq<KpiDoc>, prev: Option<real>)
    ensures forall k :: 0 <= k < |docs| ==>
      ItemsFrom(docs, prev)[3 * k..3 * k + 3] == ItemsOfDoc(docs[k], PrevMrr(docs, k, prev))
    decreases |docs|
  {
    if |docs| > 0 {
      var head := ItemsOfDoc(docs[0], prev);
      var tail := ItemsFrom(docs[1..], Some(docs[0].mrr));
      ItemsFromLayout(docs[1..], Some(docs[0].mrr));
      var items := head + tail;
      forall k | 0 <= k < |docs|
        ensures items[3 * k..3 * k + 3] == ItemsOfDoc(docs[k], PrevMrr(docs, k, prev))
      {
        if k == 0 {
          assert items[..3] == head;
        } else {
          assert items[3 * k..3 * k + 3] == tail[3 * (k - 1)..3 * (k - 1) + 3];
          assert docs[1..][k - 1] == docs[k];
          assert PrevMrr(docs[1..], k - 1, Some(docs[0].mrr)) == PrevMrr(docs, k, prev);
        }
      }
    }
  }

  /**
   * `get_client_monitoring_data`: nothing when the client has no documents;
   * otherwise three items per recent document, in the order MRR, churn,
   * active users, the first MRR light green (there is no previous value).
   */
  function GetClientMonitoringData(kpis: seq<KpiDoc>, clientId: string): (items: seq<MonitoringItem>)
    ensures items == [] <==> ClientDocs(kpis, clientId) == []
    ensures |items| == 3 * (if |ClientDocs(kpis, clientId)| < 5 then |ClientDocs(kpis, clientId)| else 5)
    ensures forall k :: 0 <= k && 3 * k + 2 < |items| ==>
      items[3 * k].kpiName == MrrName && items[3 * k + 1].kpiName == ChurnName && items[3 * k + 2].kpiName == UsersName
    ensures items != [] ==> items[0].status == Green
  {
    var docs := FetchKpis(kpis, clientId, 5);
    ItemsFromKinds(docs, None);
    ItemsFrom(docs, None)
  }

  /** Every item triple reads MRR, churn, active users, and the very first
      MRR light is green when there is no earlier value. */
  lemma ItemsFromKinds(docs: seq<KpiDoc>, prev: Option<real>)
    ensures forall k :: 0 <= k && 3 * k + 2 < |ItemsFrom(docs, prev)| ==>
      var items := ItemsFrom(docs, prev);
      items[3 * k].kpiName == MrrName && items[3 * k + 1].kpiName == ChurnName && items[3 * k + 2].kpiName == UsersName
    ensures prev.None? && docs != [] ==> ItemsFrom(docs, prev)[0].status == Green
  {
    ItemsFromLayout(docs, prev);
    var items := ItemsFrom(docs, prev);
    forall k | 0 <= k && 3 * k + 2 < |items|
      ensures items[3 * k].kpiName == MrrName && items[3 * k + 1].kpiName == ChurnName && items[3 * k + 2].kpiName == UsersName
    {
      var triple := items[3 * k..3 * k + 3];
      assert triple == ItemsOfDoc(docs[k], PrevMrr(docs, k, prev));
      assert items[3 * k] == triple[0] && items[3 * k + 1] == triple[1] && items[3 * k + 2] == triple[2];
    }
    if docs != [] {
      var triple := items[0..3];
      assert triple == ItemsOfDoc(docs[0], prev);
      assert items[0] == triple[0];
    }
  }

  /** `get_monitoring_summary`'s result dict. */
  datatype Summary = Summary(totalKpisTracked: nat, kpisInRedZone: nat, keyInsight: string, clientId: string)

  const StableInsight := "Overall health looks stable across recent days."
  const ChurnInsight := "Churn is elevated and needs attention"
  const MrrInsight := "MRR dropped recently"
  const UsersInsight := "Active users are below target"

  /** The latest MRR light, present only when there are two documents. */
  function LatestMrrStatus(docs: seq<KpiDoc>): Option<Status>
    requires |docs| >= 1
  {
    if |docs| >= 2 then Some(StatusMrr(Some(docs[|docs| - 2].mrr), docs[|docs| - 1].mrr)) else None
  }

  /** The lights the summary judges: the latest churn, the change between
      the last two MRR values when there are two documents, and the latest
      active users. */
  function LatestStatuses(docs: seq<KpiDoc>): (s: seq<Status>)
    requires |docs| >= 1
    ensures |s| == if |docs| >= 2 then 3 else 2
  {
    var latest := docs[|docs| - 1];
    [StatusChurn(latest.churnRate)]
    + (if |docs| >= 2 then [StatusMrr(Some(docs[|docs| - 2].mrr), latest.mrr)] else [])
    + [StatusActiveUsers(latest.activeUsers)]
  }

  /** Where a message stands in the order churn, MRR, active users. */
  function InsightRank(msg: string): nat {
    if msg == ChurnInsight then 0 else if msg == MrrInsight then 1 else 2
  }

  /** `msgs` holds the attention message of every latest check that is not
      green, and nothing else, in the order churn, MRR, active users. */
  ghost predicate AttentionMessages(docs: seq<KpiDoc>, msgs: seq<string>)
    requires |docs| >= 1
  {
    var latest := docs[|docs| - 1];
    var mrr := LatestMrrStatus(docs);
    && (ChurnInsight in msgs <==> StatusChurn(latest.churnRate) != Green)
    && (MrrInsight in msgs <==> mrr.Some? && mrr.value != Green)
    && (UsersInsight in msgs <==> StatusActiveUsers(latest.activeUsers) != Green)
    && (forall i :: 0 <= i < |msgs| ==> msgs[i] == ChurnInsight || msgs[i] == MrrInsight || msgs[i] == UsersInsight)
    && (forall i, j :: 0 <= i < j < |msgs| ==> InsightRank(msgs[i]) < InsightRank(msgs[j]))
  }

  /** The messages for the checks that need attention, in the order churn,
      MRR, active users. */
  function Attention(churn: bool, mrr: bool, users: bool): seq<string> {
    (if churn then [ChurnInsight] else []) + (if mrr then [MrrInsight] else []) + (if users then [UsersInsight] else [])
  }

  /** No join of attention messages is as long as the all-clear message, so
      the two can never be confused. */
  lemma AttentionNotStable(churn: bool, mrr: bool, users: bool)
    requires churn || mrr || users
    ensures |Join(Attention(churn, mrr, users), "; ")| != |StableInsight|
  {
  }

  /** The `insights` list the summary builds. */
  function SummaryInsights(docs: seq<KpiDoc>): (msgs: seq<string>)
    requires |docs| >= 1
    ensures AttentionMessages(docs, msgs)
  {
    var latest := docs[|docs| - 1];
    var mrr := LatestMrrStatus(docs);
    assert |ChurnInsight| == 37 && |MrrInsight| == 20 && |UsersInsight| == 29;
    assert InsightRank(ChurnInsight) == 0 && InsightRank(MrrInsight) == 1 && InsightRank(UsersInsight) == 2;
    Attention(StatusChurn(latest.churnRate) != Green, mrr.Some? && mrr.value != Green,
              StatusActiveUsers(latest.activeUsers) != Green)
  }

  /** The three latest checks are all green (the MRR check counts as green
      when there is no previous document). */
  predicate AllGreen(docs: seq<KpiDoc>)
    requires |docs| >= 1
  {
    var latest := docs[|docs| - 1];
    && StatusChurn(latest.churnRate) == Green
    && LatestMrrStatus(docs) != Some(Yellow) && LatestMrrStatus(docs) != Some(Red)
    && StatusActiveUsers(latest.activeUsers) == Green
  }

  /** The source's `red` counter: the number of latest checks in the red. */
  function RedZone(docs: seq<KpiDoc>): (n: nat)
    requires |docs| >= 1
    ensures n == multiset(LatestStatuses(docs))[Red]
    ensures n <= 3
  {
    var latest := docs[|docs| - 1];
    (if LatestMrrStatus(docs) == Some(Red) then 1 else 0)
    + (if StatusChurn(latest.churnRate) == Red then 1 else 0)
    + (if StatusActiveUsers(latest.activeUsers) == Red then 1 else 0)
  }

  /** No attention messages means all green, and joined attention messages
      never read as the all-clear. */
  lemma InsightsVsStable(docs: seq<KpiDoc>)
    requires |docs| >= 1
    ensures var msgs := SummaryInsights(docs);
      && (msgs == [] <==> AllGreen(docs))
      && (msgs != [] ==> Join(msgs, "; ") != StableInsight)
  {
    var latest := docs[|docs| - 1];
    var mrr := LatestMrrStatus(docs);
    var churn := StatusChurn(latest.churnRate) != Green;
    var mrrOff := mrr.Some? && mrr.value != Green;
    var users := StatusActiveUsers(latest.activeUsers) != Green;
    assert SummaryInsights(docs) == Attention(churn, mrrOff, users);
    if churn || mrrOff || users {
      AttentionNotStable(churn, mrrOff, users);
    }
  }

  /** The summary computed over the fetched documents: three KPIs tracked,
      the number of latest checks in the red, and the all-clear message or
      the attention messages joined by "; ". */
  function SummaryOf(docs: seq<KpiDoc>, clientId: string): (r: Option<Summary>)
    ensures r.None? <==> docs == []
    ensures r.Some? ==> r.value.totalKpisTracked == 3 && r.value.clientId == clientId
    ensures r.Some? ==> r.value.kpisInRedZone == multiset(LatestStatuses(docs))[Red]
    ensures r.Some? ==> (r.value.keyInsight == StableInsight <==> AllGreen(docs))
    ensures r.Some? && !AllGreen(docs) ==>
      exists msgs :: AttentionMessages(docs, msgs) && r.value.keyInsight == Join(msgs, "; ")
  {
    if docs == [] then None
    else
      var insights := SummaryInsights(docs);
      InsightsVsStable(docs);
      var key := if insights == [] then StableInsight else Join(insights, "; ");
      Some(Summary(3, RedZone(docs), key, clientId))
  }

  /** `get_monitoring_summary`: `{}` without documents, else the summary of
      the client's five latest documents. */
  function GetMonitoringSummary(kpis: seq<KpiDoc>, clientId: string): (r: Option<Summary>)
    ensures r.None? <==> ClientDocs(kpis, clientId) == []
    ensures var docs := FetchKpis(kpis, clientId, 5);
      r.Some? ==> && |docs| >= 1
                  && r.value.totalKpisTracked == 3 && r.value.clientId == clientId
                  && r.value.kpisInRedZone == multiset(LatestStatuses(docs))[Red]
                  && (r.value.keyInsight == StableInsight <==> AllGreen(docs))
                  && (!AllGreen(docs) ==>
                        exists msgs :: AttentionMessages(docs, msgs) && r.value.keyInsight == Join(msgs, "; "))
  {
    SummaryOf(FetchKpis(kpis, clientId, 5), clientId)
  }

  // ---------------------------------------------------------------------------
  // DummyAnomalyService.detect_anomalies
  // ---------------------------------------------------------------------------

  predicate ChurnHit(d: KpiDoc) {
    d.churnRate > 0.05
  }

  /** An MRR drop of more than 10% from a previous document with positive MRR. */
  predicate MrrDropHit(prev: Option<KpiDoc>, d: KpiDoc) {
    prev.Some? && prev.value.mrr > 0.0 && (d.mrr - prev.value.mrr) / prev.value.mrr < -0.10
  }

  predicate UsersHit(d: KpiDoc) {
    d.activeUsers < 650
  }

  function PrevDoc(docs: seq<KpiDoc>, k: nat, start: Option<KpiDoc>): Option<KpiDoc>
    requires k < |docs|
  {
    if k == 0 then start else Some(docs[k - 1])
  }

  /** What the loop accumulates: the count and which KPIs became critical. */
  datatype Tally = Tally(found: nat, churn: bool, mrr: bool, users: bool)

  function HitCount(d: KpiDoc, prev: Option<KpiDoc>): nat {
    (if ChurnHit(d) then 1 else 0) + (if MrrDropHit(prev, d) then 1 else 0) + (if UsersHit(d) then 1 else 0)
  }

  /** The loop of `detect_anomalies` from a given previous document. */
  function TallyFrom(docs: seq<KpiDoc>, prev: Option<KpiDoc>): (t: Tally)
    ensures t.found <= 3 * |docs|
    ensures t.churn <==> exists k :: 0 <= k < |docs| && ChurnHit(docs[k])
    ensures t.mrr <==> exists k :: 0 <= k < |docs| && MrrDropHit(PrevDoc(docs, k, prev), docs[k])
    ensures t.users <==> exists k :: 0 <= k < |docs| && UsersHit(docs[k])
    ensures t.found >= (if t.churn then 1 else 0) + (if t.mrr then 1 else 0) + (if t.users then 1 else 0)
  {
    if |docs| == 0 then Tally(0, false, false, false)
    else
      var d := docs[0];
      var rest := TallyFrom(docs[1..], Some(d));
      assert forall k :: 1 <= k < |docs| ==>
        docs[1..][k - 1] == docs[k] && PrevDoc(docs[1..], k - 1, Some(d)) == PrevDoc(docs, k, prev);
      Tally(rest.found + HitCount(d, prev),
            rest.churn || ChurnHit(d),
            rest.mrr || MrrDropHit(prev, d),
            rest.users || UsersHit(d))
  }

  /** The positions, from `from` on, of the documents with churn above 5%. */
  function ChurnHits(docs: seq<KpiDoc>, from: nat): set<nat> {
    set k: nat | from <= k < |docs| && ChurnHit(docs[k])
  }

  /** Document `k` has MRR more than 10% below the positive MRR of the
      document before it. */
  predicate DropAt(docs: seq<KpiDoc>, k: nat) {
    1 <= k < |docs| && MrrDropHit(Some(docs[k - 1]), docs[k])
  }

  /** The positions, from `from` on, of the documents with such an MRR drop. */
  function MrrDropHits(docs: seq<KpiDoc>, from: nat): set<nat> {
    set k: nat | from <= k < |docs| && DropAt(docs, k)
  }

  /** The positions, from `from` on, of the documents with fewer than 650
      active users. */
  function UsersHits(docs: seq<KpiDoc>, from: nat): set<nat> {
    set k: nat | from <= k < |docs| && UsersHit(docs[k])
  }

  lemma ChurnHitsStep(docs: seq<KpiDoc>, from: nat)
    requires from < |docs|
    ensures |ChurnHits(docs, from)| == |ChurnHits(docs, from + 1)| + (if ChurnHit(docs[from]) then 1 else 0)
  {
    assert ChurnHits(docs, from) == ChurnHits(docs, from + 1) + (if ChurnHit(docs[from]) then {from} else {});
  }

  lemma MrrDropHitsStep(docs: seq<KpiDoc>, from: nat)
    requires from < |docs|
    ensures |MrrDropHits(docs, from)| == |MrrDropHits(docs, from + 1)|
      + (if MrrDropHit(if from == 0 then None else Some(docs[from - 1]), docs[from]) then 1 else 0)
  {
    assert MrrDropHits(docs, from) == MrrDropHits(docs, from + 1) + (if DropAt(docs, from) then {from} else {});
  }

  lemma UsersHitsStep(docs: seq<KpiDoc>, from: nat)
    requires from < |docs|
    ensures |UsersHits(docs, from)| == |UsersHits(docs, from + 1)| + (if UsersHit(docs[from]) then 1 else 0)
  {
    assert UsersHits(docs, from) == UsersHits(docs, from + 1) + (if UsersHit(docs[from]) then {from} else {});
  }

  /** The loop over the documents from `from` on counts one anomaly per
      churn hit, per MRR drop and per users hit. */
  lemma {:induction false} TallyCounts(docs: seq<KpiDoc>, from: nat)
    requires from <= |docs|
    ensures TallyFrom(docs[from..], if from == 0 then None else Some(docs[from - 1])).found
            == |ChurnHits(docs, from)| + |MrrDropHits(docs, from)| + |UsersHits(docs, from)|
    decreases |docs| - from
  {
    if from == |docs| {
      assert ChurnHits(docs, from) == {} && MrrDropHits(docs, from) == {} && UsersHits(docs, from) == {};
    } else {
      TallyCounts(docs, from + 1);
      ChurnHitsStep(docs, from);
      MrrDropHitsStep(docs, from);
      UsersHitsStep(docs, from);
      assert docs[from..][1..] == docs[from + 1..] && docs[from..][0] == docs[from];
    }
  }

  /** The loop over all the documents: the count is the number of hits of
      the three rules, and a KPI is flagged iff its rule hits somewhere. */
  lemma TallyOfDocs(docs: seq<KpiDoc>)
    ensures var t := TallyFrom(docs, None);
      && t.found == |ChurnHits(docs, 0)| + |MrrDropHits(docs, 0)| + |UsersHits(docs, 0)|
      && (t.churn <==> ChurnHits(docs, 0) != {})
      && (t.mrr <==> MrrDropHits(docs, 0) != {})
      && (t.users <==> UsersHits(docs, 0) != {})
  {
    TallyCounts(docs, 0);
    assert docs[0..] == docs;
    var t := TallyFrom(docs, None);
    if t.churn {
      var k :| 0 <= k < |docs| && ChurnHit(docs[k]);
      assert k in ChurnHits(docs, 0);
    }
    if t.mrr {
      var k :| 0 <= k < |docs| && MrrDropHit(PrevDoc(docs, k, None), docs[k]);
      assert k in MrrDropHits(docs, 0);
    }
    if MrrDropHits(docs, 0) != {} {
      var k :| k in MrrDropHits(docs, 0);
      assert DropAt(docs, k);
      assert MrrDropHit(PrevDoc(docs, k, None), docs[k]);
    }
    if t.users {
      var k :| 0 <= k < |docs| && UsersHit(docs[k]);
      assert k in UsersHits(docs, 0);
    }
  }

  datatype AnomalyReport = AnomalyReport(
    anomaliesFound: nat,
    criticalKpis: seq<string>,
    anomalyScore: real,
    recommendations: seq<string>)

  const ChurnAdvice := "Investigate churn cohorts and run win-back campaigns."
  const MrrAdvice := "Analyze revenue segments; review pricing/discount changes."
  const UsersAdvice := "Re-engage inactive users; launch in-app prompts."
  const NoAnomalyAdvice := "No critical anomalies detected; continue to monitor KPIs."

  /** `sorted(critical_kpis)`: the three names in code-point order. */
  function CriticalList(t: Tally): (r: seq<string>)
    ensures StrictlySorted(r)
    ensures (UsersName in r <==> t.users) && (ChurnName in r <==> t.churn) && (MrrName in r <==> t.mrr)
    ensures |r| == (if t.churn then 1 else 0) + (if t.mrr then 1 else 0) + (if t.users then 1 else 0)
  {
    assert StrLt(UsersName, ChurnName) && StrLt(ChurnName, MrrName) && StrLt(UsersName, MrrName);
    (if t.users then [UsersName] else []) + (if t.churn then [ChurnName] else []) + (if t.mrr then [MrrName] else [])
  }

  /** `min(1.0, found / 10)`. */
  function AnomalyScore(found: nat): (score: real)
    ensures 0.0 <= score <= 1.0
    ensures score == 1.0 <==> found >= 10
    ensures score * 10.0 == (if found >= 10 then 10.0 else found as real)
  {
    if 1.0 <= found as real / 10.0 then 1.0 else found as real / 10.0
  }

  /** The four pieces of advice have different lengths, so no two are equal. */
  lemma AdviceLengths()
    ensures |ChurnAdvice| == 53 && |MrrAdvice| == 58 && |UsersAdvice| == 48 && |NoAnomalyAdvice| == 57
  {
  }

  /** One piece of advice per critical KPI, in the order churn, MRR, active
      users; the all-clear advice alone when nothing is critical. */
  function Recommendations(t: Tally): (recs: seq<string>)
    ensures recs == [NoAnomalyAdvice] <==> !t.churn && !t.mrr && !t.users
    ensures |recs| == if !t.churn && !t.mrr && !t.users then 1
                      else (if t.churn then 1 else 0) + (if t.mrr then 1 else 0) + (if t.users then 1 else 0)
    ensures (ChurnAdvice in recs <==> t.churn) && (MrrAdvice in recs <==> t.mrr) && (UsersAdvice in recs <==> t.users)
    ensures t.churn ==> recs[0] == ChurnAdvice
    ensures t.mrr ==> recs[if t.churn then 1 else 0] == MrrAdvice
    ensures t.users ==> recs[|recs| - 1] == UsersAdvice
  {
    AdviceLengths();
    var advice := (if t.churn then [ChurnAdvice] else [])
      + (if t.mrr then [MrrAdvice] else [])
      + (if t.users then [UsersAdvice] else []);
    assert advice != [] ==> advice[0] == ChurnAdvice || advice[0] == MrrAdvice || advice[0] == UsersAdvice;
    if advice == [] then [NoAnomalyAdvice] else advice
  }

  /** The anomaly report over the fetched documents: one anomaly per rule
      hit, the KPIs whose rule hit somewhere, the capped score, and one piece
      of advice per critical KPI. */
  function AnomaliesOf(docs: seq<KpiDoc>): (r: Option<AnomalyReport>)
    ensures r.None? <==> docs == []
    ensures r.Some? ==> var a := r.value;
      && a.anomaliesFound == |ChurnHits(docs, 0)| + |MrrDropHits(docs, 0)| + |UsersHits(docs, 0)|
      && a.anomalyScore == AnomalyScore(a.anomaliesFound)
      && StrictlySorted(a.criticalKpis)
      && |a.criticalKpis| <= a.anomaliesFound
      && (ChurnName in a.criticalKpis <==> ChurnHits(docs, 0) != {})
      && (MrrName in a.criticalKpis <==> MrrDropHits(docs, 0) != {})
      && (UsersName in a.criticalKpis <==> UsersHits(docs, 0) != {})
      && (ChurnAdvice in a.recommendations <==> ChurnName in a.criticalKpis)
      && (MrrAdvice in a.recommendations <==> MrrName in a.criticalKpis)
      && (UsersAdvice in a.recommendations <==> UsersName in a.criticalKpis)
      && (a.recommendations == [NoAnomalyAdvice] <==> a.criticalKpis == [])
      && |a.recommendations| == (if a.criticalKpis == [] then 1 else |a.criticalKpis|)
  {
    if docs == [] then None
    else
      var t := TallyFrom(docs, None);
      TallyOfDocs(docs);
      Some(AnomalyReport(t.found, CriticalList(t), AnomalyScore(t.found), Recommendations(t)))
  }

  /** A KPI is listed as critical exactly when some fetched document crosses
      its threshold; an MRR drop needs a previous document. */
  lemma AnomalyCriticalKpis(docs: seq<KpiDoc>)
    requires docs != []
    ensures var a := AnomaliesOf(docs).value;
      && (ChurnName in a.criticalKpis <==> exists k :: 0 <= k < |docs| && ChurnHit(docs[k]))
      && (MrrName in a.criticalKpis <==> exists k :: 1 <= k < |docs| && MrrDropHit(Some(docs[k - 1]), docs[k]))
      && (UsersName in a.criticalKpis <==> exists k :: 0 <= k < |docs| && UsersHit(docs[k]))
  {
    var t := TallyFrom(docs, None);
    assert forall k :: 0 <= k < |docs| ==> PrevDoc(docs, k, None) == (if k == 0 then None else Some(docs[k - 1]));
    if t.mrr {
      var k :| 0 <= k < |docs| && MrrDropHit(PrevDoc(docs, k, None), docs[k]);
      assert k >= 1;
    }
  }

  /** `detect_anomalies`: `{}` without documents, else the report over the
      client's five latest documents. */
  function DetectAnomalies(kpis: seq<KpiDoc>, clientId: string): (r: Option<AnomalyReport>)
    ensures r.None? <==> ClientDocs(kpis, clientId) == []
    ensures var docs := FetchKpis(kpis, clientId, 5);
      r.Some? ==> var a := r.value;
        && a.anomaliesFound == |ChurnHits(docs, 0)| + |MrrDropHits(docs, 0)| + |UsersHits(docs, 0)|
        && a.anomaliesFound <= 15
        && a.anomalyScore == AnomalyScore(a.anomaliesFound)
        && 0.0 <= a.anomalyScore <= 1.0
        && StrictlySorted(a.criticalKpis)
        && (ChurnName in a.criticalKpis <==> ChurnHits(docs, 0) != {})
        && (MrrName in a.criticalKpis <==> MrrDropHits(docs, 0) != {})
        && (UsersName in a.criticalKpis <==> UsersHits(docs, 0) != {})
        && (ChurnAdvice in a.recommendations <==> ChurnName in a.criticalKpis)
        && (MrrAdvice in a.recommendations <==> MrrName in a.criticalKpis)
        && (UsersAdvice in a.recommendations <==> UsersName in a.criticalKpis)
  {
    var docs := FetchKpis(kpis, clientId, 5);
    var r := AnomaliesOf(docs);
    assert r.Some? ==> r.value.anomaliesFound <= 15 by {
      if r.Some? {
        TallyOfDocs(docs);
      }
    }
    r
  }

  // ---------------------------------------------------------------------------
  // DummyAnomalyService.get_trend_analysis
  // ---------------------------------------------------------------------------

  datatype Metric = MrrMetric | ChurnMetric | UsersMetric

  /** The alias table: the two MRR spellings, churn and active users. */
  function MetricOf(kpiName: string): (m: Option<Metric>)
    ensures m.Some? <==> kpiName in {MrrName, "mrr", ChurnName, UsersName}
  {
    if kpiName == MrrName || kpiName == "mrr" then Some(MrrMetric)
    else if kpiName == ChurnName then Some(ChurnMetric)
    else if kpiName == UsersName then Some(UsersMetric)
    else None
  }

  function MetricValue(d: KpiDoc, m: Metric): real {
    match m
    case MrrMetric => d.mrr
    case ChurnMetric => d.churnRate
    case UsersMetric => d.activeUsers as real
  }

  function Values(docs: seq<KpiDoc>, m: Metric): (ys: seq<real>)
    ensures |ys| == |docs|
    ensures forall i :: 0 <= i < |docs| ==> ys[i] == MetricValue(docs[i], m)
  {
    seq(|docs|, i requires 0 <= i < |docs| => MetricValue(docs[i], m))
  }

  /** `sum(xs)`, left to right. */
  function Sum(xs: seq<real>): real {
    if |xs| == 0 then 0.0 else Sum(xs[..|xs| - 1]) + xs[|xs| - 1]
  }

  /** `_pct_change`: the change from first to last in percent, 0 when the
      first value is 0. */
  function PctChange(first: real, last: real): (r: real)
    ensures first == 0.0 ==> r == 0.0
    ensures first != 0.0 ==> r * first == (last - first) * 100.0
    ensures first > 0.0 ==> (r > 0.0 <==> last > first)
  {
    if first != 0.0 then ((last - first) / first) * 100.0 else 0.0
  }

  function Positions(n: nat): (xs: seq<real>)
    ensures |xs| == n
    ensures forall i :: 0 <= i < n ==> xs[i] == i as real
  {
    seq(n, i requires 0 <= i < n => i as real)
  }

  function SquaredDeviations(xs: seq<real>, mean: real): (r: seq<real>)
    ensures |r| == |xs|
    ensures forall i :: 0 <= i < |xs| ==> r[i] == (xs[i] - mean) * (xs[i] - mean)
  {
    seq(|xs|, i requires 0 <= i < |xs| => (xs[i] - mean) * (xs[i] - mean))
  }

  function CrossDeviations(xs: seq<real>, mx: real, ys: seq<real>, my: real): (r: seq<real>)
    requires |xs| == |ys|
    ensures |r| == |xs|
    ensures forall i :: 0 <= i < |xs| ==> r[i] == (xs[i] - mx) * (ys[i] - my)
  {
    seq(|xs|, i requires 0 <= i < |xs| => (xs[i] - mx) * (ys[i] - my))
  }

  /** `_linear_slope`: the least-squares slope of the values against their
      positions 0..n-1; 0 for fewer than two values. */
  function Slope(ys: seq<real>): real {
    var n := |ys|;
    if n < 2 then 0.0
    else
      var xs := Positions(n);
      var mx := Sum(xs) / n as real;
      var my := Sum(ys) / n as real;
      var d := Sum(SquaredDeviations(xs, mx));
      var denom := if d == 0.0 then 1.0 else d;
      Sum(CrossDeviations(xs, mx, ys, my)) / denom
  }

  lemma {:induction false} SumOfConstant(xs: seq<real>, c: real)
    requires forall i :: 0 <= i < |xs| ==> xs[i] == c
    ensures Sum(xs) == |xs| as real * c
    decreases |xs|
  {
    if |xs| > 0 {
      SumOfConstant(xs[..|xs| - 1], c);
    }
  }

  /** A constant series has slope 0, so every metric reads "flat". */
  lemma SlopeOfConstant(ys: seq<real>, c: real)
    requires forall i :: 0 <= i < |ys| ==> ys[i] == c
    ensures Slope(ys) == 0.0
  {
    var n := |ys|;
    if n >= 2 {
      var xs := Positions(n);
      var mx := Sum(xs) / n as real;
      SumOfConstant(ys, c);
      var my := Sum(ys) / n as real;
      assert my == c;
      var cross := CrossDeviations(xs, mx, ys, my);
      SumOfConstant(cross, 0.0);
    }
  }

  lemma SumOfTwo(xs: seq<real>)
    requires |xs| == 2
    ensures Sum(xs) == xs[0] + xs[1]
  {
    var init := xs[..1];
    assert init[..0] == [];
    assert Sum(init) == Sum(init[..0]) + init[0];
    assert Sum(xs) == Sum(xs[..1]) + xs[1];
  }

  /** With two values the slope is their difference. */
  lemma SlopeOfTwo(a: real, b: real)
    ensures Slope([a, b]) == b - a
  {
    var ys := [a, b];
    var xs := Positions(2);
    SumOfTwo(xs);
    SumOfTwo(ys);
    var mx := Sum(xs) / 2.0;
    var my := Sum(ys) / 2.0;
    assert mx == 0.5;
    var sq := SquaredDeviations(xs, mx);
    SumOfTwo(sq);
    assert Sum(sq) == 0.5;
    var cross := CrossDeviations(xs, mx, ys, my);
    SumOfTwo(cross);
    assert Sum(cross) == (b - a) / 2.0;
  }

  /** The trend label: the source's wording per metric for a rising, falling
      or level slope. */
  function TrendLabel(m: Metric, slope: real): string {
    match m
    case MrrMetric => if slope > 0.0 then "positive_growth" else if slope < 0.0 then "negative" else "flat"
    case ChurnMetric => if slope > 0.0 then "negative" else if slope < 0.0 then "improving" else "flat"
    case UsersMetric => if slope > 0.0 then "up" else if slope < 0.0 then "down" else "flat"
  }

  function Forecast(m: Metric, slope: real): string {
    match m
    case MrrMetric =>
      if slope > 0.0 then "MRR is projected to grow if current momentum continues."
      else if slope < 0.0 then "MRR may decline without intervention."
      else "MRR is stable; expect similar performance near-term."
    case ChurnMetric =>
      if slope > 0.0 then "Churn is accelerating and may impact revenue targets."
      else if slope < 0.0 then "Churn is improving; maintain retention efforts."
      else "Churn is steady; monitor for shifts."
    case UsersMetric =>
      if slope > 0.0 then "Metric trending up."
      else if slope < 0.0 then "Metric trending down."
      else "Metric appears stable."
  }

  datatype TrendError = UnknownKpi(kpiName: string) | NoData(clientId: string) | NotEnoughPoints

  datatype TrendReport = TrendReport(kpiName: string, trend: string, changePercentage: real, forecast: string)

  /**
   * `get_trend_analysis`: an unknown KPI name is refused before any fetch;
   * no documents, or a single one, is an error; otherwise the label and
   * forecast follow the sign of the slope of the metric over the fetched
   * days, and the change is measured from the first to the last value.
   */
  function GetTrendAnalysis(kpis: seq<KpiDoc>, clientId: string, kpiName: string): (r: Result<TrendReport, TrendError>)
    ensures MetricOf(kpiName).None? ==> r == Failure(UnknownKpi(kpiName))
    ensures MetricOf(kpiName).Some? && ClientDocs(kpis, clientId) == [] ==> r == Failure(NoData(clientId))
    ensures MetricOf(kpiName).Some? && |ClientDocs(kpis, clientId)| == 1 ==> r == Failure(NotEnoughPoints)
    ensures r.Success? <==> MetricOf(kpiName).Some? && |ClientDocs(kpis, clientId)| >= 2
    ensures r.Success? ==> r.value.kpiName == kpiName
    ensures r.Success? ==> var ys := Values(FetchKpis(kpis, clientId, 5), MetricOf(kpiName).value);
      && r.value.trend == TrendLabel(MetricOf(kpiName).value, Slope(ys))
      && r.value.changePercentage == PctChange(ys[0], ys[|ys| - 1])
  {
    match MetricOf(kpiName)
    case None => Failure(UnknownKpi(kpiName))
    case Some(m) =>
      var docs := FetchKpis(kpis, clientId, 5);
      if docs == [] then Failure(NoData(clientId))
      else
        var ys := Values(docs, m);
        if |ys| < 2 then Failure(NotEnoughPoints)
        else
          var slope := Slope(ys);
          Success(TrendReport(kpiName, TrendLabel(m, slope), PctChange(ys[0], ys[|ys| - 1]), Forecast(m, slope)))
  }

  /** A metric that did not move over the fetched days is reported flat with
      no change. */
  lemma FlatMetricIsFlat(kpis: seq<KpiDoc>, clientId: string, kpiName: string, c: real)
    requires MetricOf(kpiName).Some? && |ClientDocs(kpis, clientId)| >= 2
    requires forall d :: d in ClientDocs(kpis, clientId) ==> MetricValue(d, MetricOf(kpiName).value) == c
    ensures GetTrendAnalysis(kpis, clientId, kpiName).Success?
    ensures GetTrendAnalysis(kpis, clientId, kpiName).value.trend == "flat"
    ensures GetTrendAnalysis(kpis, clientId, kpiName).value.changePercentage == 0.0
  {
    var m := MetricOf(kpiName).value;
    var docs := FetchKpis(kpis, clientId, 5);
    var ys := Values(docs, m);
    forall i | 0 <= i < |ys| ensures ys[i] == c {
      assert docs[i] in multiset(ClientDocs(kpis, clientId));
    }
    SlopeOfConstant(ys, c);
    assert PctChange(ys[0], ys[|ys| - 1]) == 0.0;
    assert GetTrendAnalysis(kpis, clientId, kpiName)
      == Success(TrendReport(kpiName, TrendLabel(m, Slope(ys)), PctChange(ys[0], ys[|ys| - 1]), Forecast(m, Slope(ys))));
  }
}
