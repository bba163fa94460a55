/**
 * The tool registry of `app/agent/agent_tools.py`: four named tools, each
 * with its argument schema, each forwarding to one service method of the
 * KPI rule engine. A call names a tool and carries JSON-like arguments;
 * validation follows the pydantic input models (a required string field
 * must be present and hold a string; keys the model does not declare are
 * ignored).
 */
module AgentTools {

  import opened Wrappers
  import opened Store
  import opened MonitorServices

  /** One field of a tool's input model. */
  datatype Param = Param(name: string, required: bool)

  /** A tool as the language model sees it: its name and its input model. */
  datatype ToolSpec = ToolSpec(name: string, params: seq<Param>)

  const SummaryToolName := "get_saas_kpi_summary"
  const DetailedToolName := "get_detailed_kpi_data"
  const AnomalyToolName := "detect_business_anomalies"
  const TrendToolName := "get_kpi_trend_analysis"

  const ClientIdField := "client_id"
  const KpiNameField := "kpi_name"

  /** `ClientIDInput`. */
  const ClientIdInput: seq<Param> := [Param(ClientIdField, true)]

  /** `TrendAnalysisInput`. */
  const TrendAnalysisInput: seq<Param> := [Param(ClientIdField, true), Param(KpiNameField, true)]

  /** `all_tools`, in registration order. */
  const AllTools: seq<ToolSpec> := [
    ToolSpec(SummaryToolName, ClientIdInput),
    ToolSpec(DetailedToolName, ClientIdInput),
    ToolSpec(AnomalyToolName, ClientIdInput),
    ToolSpec(TrendToolName, TrendAnalysisInput)
  ]

  /** A JSON argument value as the model may send it. */
  datatype ArgValue = StrArg(s: string) | NumArg(n: int) | BoolArg(b: bool) | NullArg

  /** A tool call requested by the language model. */
  datatype ToolCall = ToolCall(id: string, name: string, args: map<string, ArgValue>)

  /** What running a tool call gives back. The last two are the error results
      the tool runner reports instead of calling anything. */
  datatype ToolOutput =
    | SummaryOut(summary: Option<Summary>)
    | DetailedOut(data: seq<MonitoringItem>)
    | AnomalyOut(report: Option<AnomalyReport>)
    | TrendOut(trend: Result<TrendReport, TrendError>)
    | UnknownTool(name: string)
    | InvalidArgs(tool: string, rejected: seq<string>)

  /** The registered tool with the given name. */
  function FindTool(name: string): (r: Option<ToolSpec>)
    ensures r.Some? <==> exists i :: 0 <= i < |AllTools| && AllTools[i].name == name
    ensures r.Some? ==> r.value.name == name && r.value in AllTools
  {
    FindIn(AllTools, name)
  }

  function FindIn(tools: seq<ToolSpec>, name: string): (r: Option<ToolSpec>)
    ensures r.Some? <==> exists i :: 0 <= i < |tools| && tools[i].name == name
    ensures r.Some? ==> r.value.name == name && r.value in tools
  {
    if |tools| == 0 then None
    else if tools[0].name == name then Some(tools[0])
    else
      var r := FindIn(tools[1..], name);
      assert forall i :: 1 <= i < |tools| ==> tools[i] == tools[1..][i - 1];
      r
  }

  /** The argument a field accepts: present and a string. */
  predicate Accepts(args: map<string, ArgValue>, field: string) {
    field in args && args[field].StrArg?
  }

  /** The required fields of an input model that the arguments do not
      satisfy, in declaration order. */
  function Rejected(params: seq<Param>, args: map<string, ArgValue>): (r: seq<string>)
    ensures forall f :: f in r <==> exists i :: 0 <= i < |params| && params[i].name == f
                                                && params[i].required && !Accepts(args, f)
  {
    if |params| == 0 then []
    else
      var rest := Rejected(params[1..], args);
      assert forall i :: 1 <= i < |params| ==> params[i] == params[1..][i - 1];
      (if params[0].required && !Accepts(args, params[0].name) then [params[0].name] else []) + rest
  }

  /** The string held by an accepted argument. */
  function Arg(args: map<string, ArgValue>, field: string): string
    requires Accepts(args, field)
  {
    args[field].s
  }

  /**
   * The tool runner: an unknown name and arguments the input model rejects
   * are reported as errors; otherwise the tool calls its one service method
   * with the arguments unchanged, over the current KPI documents.
   */
  function Dispatch(call: ToolCall, kpis: seq<KpiDoc>): (r: ToolOutput)
    ensures r.UnknownTool? <==> FindTool(call.name).None?
    ensures r.InvalidArgs? <==> FindTool(call.name).Some? && Rejected(FindTool(call.name).value.params, call.args) != []
    ensures r.UnknownTool? ==> r.name == call.name
    ensures r.InvalidArgs? ==> r.tool == call.name && r.rejected == Rejected(FindTool(call.name).value.params, call.args)
    ensures call.name == SummaryToolName && Accepts(call.args, ClientIdField) ==>
      r == SummaryOut(GetMonitoringSummary(kpis, Arg(call.args, ClientIdField)))
    ensures call.name == DetailedToolName && Accepts(call.args, ClientIdField) ==>
      r == DetailedOut(GetClientMonitoringData(kpis, Arg(call.args, ClientIdField)))
    ensures call.name == AnomalyToolName && Accepts(call.args, ClientIdField) ==>
      r == AnomalyOut(DetectAnomalies(kpis, Arg(call.args, ClientIdField)))
    ensures call.name == TrendToolName && Accepts(call.args, ClientIdField) && Accepts(call.args, KpiNameField) ==>
      r == TrendOut(GetTrendAnalysis(kpis, Arg(call.args, ClientIdField), Arg(call.args, KpiNameField)))
  {
    match FindTool(call.name)
    case None => KnownTools(); UnknownTool(call.name)
    case Some(spec) =>
      var rejected := Rejected(spec.params, call.args);
      if rejected != [] then
        ToolSchemas(call);
        InvalidArgs(spec.name, rejected)
      else
        ToolSchemas(call);
        if spec.name == SummaryToolName then
          SummaryOut(GetMonitoringSummary(kpis, Arg(call.args, ClientIdField)))
        else if spec.name == DetailedToolName then
          DetailedOut(GetClientMonitoringData(kpis, Arg(call.args, ClientIdField)))
        else if spec.name == AnomalyToolName then
          AnomalyOut(DetectAnomalies(kpis, Arg(call.args, ClientIdField)))
        else
          RegistryShape();
          assert spec.params == TrendAnalysisInput;
          TrendOut(GetTrendAnalysis(kpis, Arg(call.args, ClientIdField), Arg(call.args, KpiNameField)))
  }

  /** The registry: four tools, summary, detailed, anomalies, trend, with
      distinct names. */
  lemma RegistryShape()
    ensures |AllTools| == 4
    ensures AllTools[0].name == SummaryToolName && AllTools[1].name == DetailedToolName
    ensures AllTools[2].name == AnomalyToolName && AllTools[3].name == TrendToolName
    ensures forall i, j :: 0 <= i < j < |AllTools| ==> AllTools[i].name != AllTools[j].name
  {
    assert |SummaryToolName| == 20 && |DetailedToolName| == 21;
    assert |AnomalyToolName| == 25 && |TrendToolName| == 22;
  }

  /** Looking up each registered name finds that tool's entry. */
  lemma KnownTools()
    ensures FindTool(SummaryToolName) == Some(AllTools[0])
    ensures FindTool(DetailedToolName) == Some(AllTools[1])
    ensures FindTool(AnomalyToolName) == Some(AllTools[2])
    ensures FindTool(TrendToolName) == Some(AllTools[3])
  {
    RegistryShape();
    assert AllTools[1..][1..][1..] == [AllTools[3]];
  }

  /** What each input model demands of the arguments. */
  lemma InputChecks(args: map<string, ArgValue>)
    ensures Rejected(ClientIdInput, args) == [] <==> Accepts(args, ClientIdField)
    ensures Rejected(TrendAnalysisInput, args) == [] <==> Accepts(args, ClientIdField) && Accepts(args, KpiNameField)
  {
    var r := Rejected(TrendAnalysisInput, args);
    if !Accepts(args, KpiNameField) {
      assert KpiNameField in r;
    }
    if !Accepts(args, ClientIdField) {
      assert ClientIdField in r;
      assert ClientIdField in Rejected(ClientIdInput, args);
    }
  }

  /** The summary, detailed and anomaly tools take exactly one required
      string argument, `client_id`; the trend tool requires `client_id` and
      `kpi_name`. */
  lemma ToolSchemas(call: ToolCall)
    requires FindTool(call.name).Some?
    ensures call.name != TrendToolName ==>
      (Rejected(FindTool(call.name).value.params, call.args) == [] <==> Accepts(call.args, ClientIdField))
    ensures call.name == TrendToolName ==>
      (Rejected(FindTool(call.name).value.params, call.args) == []
       <==> Accepts(call.args, ClientIdField) && Accepts(call.args, KpiNameField))
  {
    RegistryShape();
    KnownTools();
    InputChecks(call.args);
    var i :| 0 <= i < |AllTools| && AllTools[i].name == call.name;
    assert i == 0 || i == 1 || i == 2 || i == 3;
  }

  /** Keys the input model does not declare change nothing. */
  lemma ExtraArgsIgnored(call: ToolCall, key: string, v: ArgValue, kpis: seq<KpiDoc>)
    requires key != ClientIdField && key != KpiNameField
    ensures Dispatch(call.(args := call.args[key := v]), kpis) == Dispatch(call, kpis)
  {
    var call' := call.(args := call.args[key := v]);
    match FindTool(call.name)
    case None =>
    case Some(spec) =>
      DeclaredFields(spec);
      RejectedIgnoresOtherKeys(spec.params, call.args, key, v);
      assert ClientIdField in call.args ==> call'.args[ClientIdField] == call.args[ClientIdField];
      assert KpiNameField in call.args ==> call'.args[KpiNameField] == call.args[KpiNameField];
  }

  /** Every registered input model declares only `client_id` and
      `kpi_name`. */
  lemma DeclaredFields(spec: ToolSpec)
    requires spec in AllTools
    ensures forall i :: 0 <= i < |spec.params| ==>
      spec.params[i].name == ClientIdField || spec.params[i].name == KpiNameField
  {
    assert spec.params == ClientIdInput || spec.params == TrendAnalysisInput;
  }

  lemma {:induction false} RejectedIgnoresOtherKeys(params: seq<Param>, args: map<string, ArgValue>, key: string, v: ArgValue)
    requires forall i :: 0 <= i < |params| ==> params[i].name != key
    ensures Rejected(params, args[key := v]) == Rejected(params, args)
  {
    if |params| > 0 {
      RejectedIgnoresOtherKeys(params[1..], args, key, v);
      assert Accepts(args[key := v], params[0].name) == Accepts(args, params[0].name);
    }
  }
}
