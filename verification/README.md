# command_wall_dhyey core, modelled in Dafny

This project models the core of a SaaS KPI assistant. The parts modelled are:

- **Chat agent** (`app/agent/graph.py`). One turn picks a session key and rebuilds
  a ten-message window from the caller's history. It then decides the effective
  client id with the precedence explicit > stored for the session > guessed from
  the text, and records the id and the human message in the store. Next it runs
  the agent/tools loop of the compiled graph and stores the AI answer. It returns
  the answer with the updated history. The base-URL normaliser `_resolve_base_url`
  is modelled as well.
- **Graph state reducers**: `operator.add` on messages and `prefer_new_nonempty` on
  the client id.
- **Tool registry** (`app/agent/agent_tools.py`). It holds four tools with their
  pydantic input schemas, and dispatches a tool call to the services.
- **KPI rule engine** (`app/services/dummy_services.py`). It covers fetching the
  latest five documents, the traffic-light statuses, the itemised monitoring data,
  the summary, anomaly detection and trend analysis.
- **Store** (`app/services/mongo.py`). It covers the seeding of clients and KPIs,
  the session's active client id, and message history with its cursor limit.
- **KPI CSV server** (`dummy/kpi_csv_out/mcp_kpi_server.py`). It covers
  `list_months`, `list_kpis`, `query_kpi_data`, KPI-name normalisation and the
  month range.
- **Data generator** (`dummy/generate_kpi_csvs.py`). It covers the month range,
  `clamp`, the evenly spaced sample times and the row layout of a month's file.
- **Query parser** (`dummy/kpi_csv_out/streamlit_app.py`). `parse_query` pulls
  two dates, a KPI guess and a client id out of free text.

Everything is pure: the store is a value `Db`, and each Mongo call is a function
from store to store. The language model is an oracle parameter from a request to
a reply or an error. A CSV directory is a sequence of named files of rows.

Modules, one per file:

| module | file |
|---|---|
| `Wrappers` | `wrappers.dfy` |
| `Text` | `text.dfy` |
| `Calendar` | `calendar.dfy` |
| `Store` | `store.dfy` |
| `MonitorServices` | `monitor_services.dfy` |
| `AgentTools` | `agent_tools.dfy` |
| `GraphState` | `graph_state.dfy` |
| `IdHeuristic` | `id_heuristic.dfy` |
| `Graph` | `graph.dfy` |
| `BaseUrl` | `base_url.dfy` |
| `KpiServer` | `kpi_server.dfy` |
| `Generator` | `generator.dfy` |
| `ChatQuery` | `chat_query.dfy` |

`Text` holds the ASCII string helpers: strip, lower, replace, split, digits, code-point order and sorting. `Calendar` holds the ISO dates and month arithmetic.

Where the code and its documentation differ, the model follows the code:

- **The id heuristic.** The regex `\b([A-Za-z0-9_\-]{4,})\b` returns the first run of four or more id characters. For "show churn for client42 please" that run is "show", not "client42" (`IdHeuristic.FirstLongWordWins`).
- **A failing language model.** An exception from the model is not turned into the apology text. It escapes `invoke`, after the human message and the active client id have already been written (`Graph.Invoke`, outcome `Failed`).
- **The generator's month range.** The comment says "Aug 2024 -> Jul 2025", but `END_MONTH = 8` yields thirteen months, Aug 2024 through Aug 2025 (`Generator.ConfiguredMonths`).

## Model

| member | source | states |
|---|---|---|
| Store.GetActiveClientId | app/services/mongo.py:87-90 | a session without a document, or without a stored id, reads as ""; otherwise the stored id |
| Store.SetActiveClientId | app/services/mongo.py:93-108 | succeeds exactly when the client is registered; on success the session reads back the new id; on refusal the store is unchanged; every other session keeps its id; clients, messages and KPIs are untouched; store validity is preserved |
| Store.AddMessage | app/services/mongo.py:112-121 | appends one record with the session, role, content and a fresh timestamp; nothing else changes |
| Store.SessionRecordsAscending | app/services/mongo.py:124-130 | a session's records, in insertion order, are sorted by creation time, so the `created_at` sort keeps insertion order |
| Store.GetMessages | app/services/mongo.py:124-134 | returns a prefix of the session's history in creation order; its length is the cursor limit (0 = unlimited, a negative limit counts as its absolute value); at most `limit` entries for a positive limit |
| Store.CursorLimit | app/services/mongo.py:129 | the number of documents a cursor with the given limit yields: all for 0, otherwise the smaller of abs(limit) and what is available |
| Store.AddThenGetMessages | app/services/mongo.py:112-134 | after `add_message`, the full history of that session gains exactly that entry at the end; other sessions' histories are unchanged |
| Store.CreateClient | app/services/mongo.py:143-148 | succeeds exactly when the client id is present, non-empty and not yet registered; appends the client on success; leaves the store unchanged on refusal; keeps ids unique |
| Store.SeedDummyData | app/services/mongo.py:38-83 | seeds the four default clients only into an empty collection, and five KPI documents per client only into empty KPIs; sessions and messages are untouched; the result is never empty and stays valid |
| Store.SeedIdempotent | app/services/mongo.py:40-83 | a second seeding, on any later day, changes nothing |
| Store.SeedKpisLayout | app/services/mongo.py:57-78 | the seeded KPIs are five documents per client, client after client, oldest day first |
| Store.SeedDocValues | app/services/mongo.py:60-76 | the i-th seeded document has mrr = base + 120·i − 60·(i mod 2), users = base + 15·i − 10·(i mod 3), and the date today − 4 + i |
| Store.DefaultClientsDistinct | app/services/mongo.py:41-46 | the four default clients have distinct ids, as the unique index demands |
| MonitorServices.ClientDocs | app/services/dummy_services.py:15 | keeps only documents of the client, drawn from the collection |
| MonitorServices.ClientDocsComplete | app/services/dummy_services.py:15 | every document of the client is kept |
| MonitorServices.SortByDate | app/services/dummy_services.py:16-18 | a date-ordered permutation of its input |
| MonitorServices.FetchKpis | app/services/dummy_services.py:12-20 | the client's documents in chronological order; a sub-multiset of them; exactly min(count, days) of them |
| MonitorServices.FetchKpisKeepsLatest | app/services/dummy_services.py:16-18 | every document of the client that is left out is no newer than any document returned, so the fetch keeps the latest `days` |
| MonitorServices.StatusMrrBands | app/services/dummy_services.py:23-31 | with no or non-positive previous MRR the status is green; otherwise red iff curr < 0.90·prev, yellow iff 0.90·prev ≤ curr < 0.97·prev, green iff curr ≥ 0.97·prev |
| MonitorServices.StatusMrrMonotone | app/services/dummy_services.py:23-31 | a higher current MRR never gives a worse status |
| MonitorServices.StatusChurn | app/services/dummy_services.py:34-39 | red iff churn > 0.05, green iff churn ≤ 0.03 (yellow in between) |
| MonitorServices.StatusChurnMonotone | app/services/dummy_services.py:34-39 | higher churn never gives a better status |
| MonitorServices.StatusActiveUsers | app/services/dummy_services.py:42-47 | red iff users < 650, green iff users ≥ 750 (yellow in between) |
| MonitorServices.StatusActiveUsersMonotone | app/services/dummy_services.py:42-47 | more users never give a worse status |
| MonitorServices.ItemsFromLayout | app/services/dummy_services.py:77-90 | document k yields items 3k..3k+2, and the MRR status is judged against the previous document's MRR |
| MonitorServices.GetClientMonitoringData | app/services/dummy_services.py:71-90 | empty exactly when the client has no documents; three items per fetched document (at most five) in the order MRR, churn, users; the first MRR item is green, since it has no predecessor |
| MonitorServices.RedZone | app/services/dummy_services.py:102-108 | the number of Red lights among the latest churn, the latest active users and, with two documents, the change between the last two MRR values |
| MonitorServices.SummaryInsights | app/services/dummy_services.py:110-116 | holds the attention message of each latest check that is not green and no other message, in the order churn, MRR, active users |
| MonitorServices.AttentionNotStable | app/services/dummy_services.py:117 | any non-empty join of attention messages differs from the all-clear message |
| MonitorServices.SummaryOf | app/services/dummy_services.py:92-124 | no summary for no documents; otherwise 3 KPIs tracked, the client id echoed, `kpis_in_red_zone` equal to the number of Red latest checks; the key insight is the all-clear message iff all latest checks are green, and otherwise the "; "-join of exactly the attention messages of the non-green checks, in churn, MRR, users order |
| MonitorServices.GetMonitoringSummary | app/services/dummy_services.py:92-124 | absent exactly when the client has no documents; otherwise, over the client's five latest documents, the red count and the key insight as SummaryOf states them |
| MonitorServices.TallyCounts | app/services/dummy_services.py:139-161 | from any position on, the loop counts exactly one anomaly per churn hit, per MRR drop from the document before and per active-users hit |
| MonitorServices.TallyOfDocs | app/services/dummy_services.py:135-161 | over all documents, `anomalies_found` is the number of churn hits plus MRR drops plus users hits, and each KPI is flagged iff its rule hits at least once |
| MonitorServices.CriticalList | app/services/dummy_services.py:136-176 | the critical KPI names are sorted and distinct, and a name appears iff its flag is set |
| MonitorServices.AnomalyScore | app/services/dummy_services.py:163 | the score lies in [0, 1]; it equals min(1, found/10); it is 1 exactly when at least ten anomalies were found |
| MonitorServices.Recommendations | app/services/dummy_services.py:165-172 | each KPI's advice appears iff that KPI is critical, in the order churn, MRR, active users; the "no critical anomalies" advice appears alone exactly when nothing is critical |
| MonitorServices.AnomaliesOf | app/services/dummy_services.py:130-179 | no report for no documents; otherwise `anomalies_found` is the number of churn hits plus MRR drops plus users hits; a KPI is critical iff its rule hits somewhere; the critical list is sorted; the score is min(1, found/10); each advice appears iff its KPI is critical |
| MonitorServices.AnomalyCriticalKpis | app/services/dummy_services.py:140-161 | a KPI is critical iff some document crosses its threshold; for MRR, a drop of more than 10% from a positive previous MRR |
| MonitorServices.DetectAnomalies | app/services/dummy_services.py:130-179 | absent exactly when the client has no documents; otherwise, over the client's five latest documents, `anomalies_found` is the number of rule hits (so at most 15), each KPI is critical iff its rule hits, each advice appears iff its KPI is critical, the critical list is sorted, and the score is min(1, found/10), within [0, 1] |
| MonitorServices.MetricOf | app/services/dummy_services.py:182-191 | exactly the four alias names are accepted |
| MonitorServices.PctChange | app/services/dummy_services.py:50-53 | 0 for a zero first value; otherwise r·first = (last − first)·100; for a positive first value the change is positive iff the value grew |
| MonitorServices.SlopeOfConstant | app/services/dummy_services.py:56-65 | the least-squares slope of a constant series is 0 |
| MonitorServices.SlopeOfTwo | app/services/dummy_services.py:56-65 | the least-squares slope of two points is their difference |
| MonitorServices.GetTrendAnalysis | app/services/dummy_services.py:181-232 | an unknown KPI, a client without documents, and a single point are each reported as their own error; otherwise the trend label is taken from the slope of the fetched values, and the change percentage runs from the first to the last value |
| MonitorServices.FlatMetricIsFlat | app/services/dummy_services.py:196-225 | a metric constant over at least two documents is reported "flat" with a 0% change |
| AgentTools.FindTool | app/agent/agent_tools.py:38-43 | a tool is found iff its name is registered, and the one found carries that name |
| AgentTools.Rejected | app/agent/agent_tools.py:10-15 | the rejected fields are exactly the required schema fields that the arguments lack as strings |
| AgentTools.Dispatch | app/agent/agent_tools.py:17-36 | an unknown name and invalid arguments are reported as such; each valid call reaches its service with the given client id (and KPI name for the trend tool) |
| AgentTools.RegistryShape | app/agent/agent_tools.py:38-43 | four tools with distinct names, in the source's order |
| AgentTools.ToolSchemas | app/agent/agent_tools.py:17-36 | three tools need only `client_id`; the trend tool also needs `kpi_name` |
| AgentTools.ExtraArgsIgnored | app/agent/agent_tools.py:10-15 | an argument outside the schema does not change the dispatch result |
| GraphState.PreferNewNonempty | app/agent/graph.py:27-28 | the new id wins unless it is blank, in which case the old id stays |
| GraphState.PreferNewNonemptyAssociative | app/agent/graph.py:27-33 | the client-id reducer is associative, so batching updates does not change the outcome |
| GraphState.ApplyUpdate | app/agent/graph.py:31-33 | messages are appended in order; the client id follows `prefer_new_nonempty` |
| GraphState.ApplyAllFold | app/agent/graph.py:31-33 | a series of updates appends all their messages, and the id is the last non-blank one supplied |
| IdHeuristic.ExtractClientId | app/agent/graph.py:148-151 | none iff no boundary-delimited run of ≥ 4 id characters exists; otherwise the leftmost such run, extended as far as the greedy regex goes |
| IdHeuristic.ExtractedShape | app/agent/graph.py:150 | an extracted id has at least four characters, all letters, digits, `_` or `-` |
| IdHeuristic.MatchAtStart | app/agent/graph.py:150-151 | text that begins with a boundary-delimited id run yields exactly that run |
| IdHeuristic.FirstLongWordWins | app/agent/graph.py:150-151 | "show churn for client42 please" yields "show" |
| Graph.SessionKey | app/agent/graph.py:160 | the session id, or "default_session" when it is absent or empty; never empty |
| Graph.HistoryRoundTrip | app/agent/graph.py:163-209 | converting history to messages and back keeps exactly the human and AI entries |
| Graph.ToHistoryDictsAppend | app/agent/graph.py:204-209 | history conversion distributes over concatenation |
| Graph.RebuildWindow | app/agent/graph.py:163-170 | at most ten messages; the query comes last; only human and AI messages without tool calls |
| Graph.WindowIsSuffix | app/agent/graph.py:169-170 | the window is the tail of the converted history followed by the query |
| Graph.WindowIsTail | app/agent/graph.py:163-170 | as history entries, the window is the last ten entries of (the history's chat entries followed by the query) |
| Graph.EffectiveClientId | app/agent/graph.py:173-178 | the stripped explicit id wins, else the stored id, else the guessed id; the result is "" iff all three are missing |
| Graph.BuildRequest | app/agent/graph.py:122-130 | the system prompt comes first; an active-client note follows iff an id is set; then the state's messages unchanged |
| Graph.Router | app/agent/graph.py:134-138 | routes to the tools iff the last message is an AI message with tool calls |
| Graph.ToolMessages | app/agent/graph.py:132 | one tool message per call, in order, each carrying the call's id and name and the dispatch result |
| Graph.Step | app/agent/graph.py:140-146 | an agent step fails iff the model does; it appends exactly the reply and moves to tools iff the reply has tool calls; a tools step appends the tool results and returns to the agent; the client id and the earlier messages are kept |
| Graph.Run | app/agent/graph.py:140-146 | a successful run keeps the client id and extends the messages |
| Graph.RunFinishes | app/agent/graph.py:144 | a successful run ends on an AI message without tool calls |
| Graph.DirectReplyEndsRun | app/agent/graph.py:134-138 | a reply without tool calls ends the run after one step |
| Graph.ToolRound | app/agent/graph.py:140-146 | a tool-calling reply is followed by its tool results and control returns to the agent |
| Graph.Answer | app/agent/graph.py:193-198 | the last message's content, unless there is none or it asks for tools, then the apology |
| Graph.StoreBeforeRun | app/agent/graph.py:180-185 | records the id for the session only when it is non-empty and registered; always appends the human message; other sessions are untouched |
| Graph.Invoke | app/agent/graph.py:153-211 | the human message is persisted in every outcome; an answered turn also persists the AI answer, which is the final AI message, and the returned history is the human and ai messages of the final state, in order, with tool messages dropped, ending with the answer; a failed turn persists nothing more; clients and KPIs are untouched |
| Graph.ClientIdHandedOver | app/agent/graph.py:172-191 | the graph sees the effective id even when the store refuses it; the session's stored id changes only to a registered id |
| Graph.LastChatEntry | app/agent/graph.py:204-209 | history ending in a plain AI message ends with that AI entry |
| BaseUrl.WithScheme | app/agent/graph.py:78-79 | "http://" is prefixed unless the text already starts with http:// or https:// |
| BaseUrl.ResolvePort | app/agent/graph.py:85 | no port, or a port of value 0, gives 11434; a port in 1..65535 is kept; a non-numeric port or one above 65535 is an error |
| BaseUrl.ResolveHost | app/agent/graph.py:82-84 | an empty host and the wildcards 0.0.0.0, :: and [::] (after folding) become 127.0.0.1; any other host is kept, lower-cased before a `%` zone |
| BaseUrl.WildcardsBecomeLoopback | app/agent/graph.py:83-84 | "0.0.0.0", "::" and "[::]" each resolve to "127.0.0.1" |
| BaseUrl.OrdinaryHostFolded | app/agent/graph.py:82 | an ordinary host is kept, lower-cased: "Ab.C" resolves to "ab.c" |
| BaseUrl.Resolve | app/agent/graph.py:77-85 | fails exactly on bad brackets or a bad port; on success, scheme https iff the text began with https://, the host is the resolved host of the candidate's hostname, and the port is the resolved port of its port text |
| BaseUrl.ResolveBaseUrlAsWritten | app/agent/graph.py:77-87 | the source's rendering, which writes the host unbracketed |
| BaseUrl.AsWrittenRejectsOwnIPv6Result | app/agent/graph.py:86-87 | for an IPv6 host, the source's own result fails when resolved again |
| BaseUrl.IPv6LoopbackExample | app/agent/graph.py:86-87 | "[::1]:8080" renders as "http://::1:8080" as written, that text is rejected, and the corrected rendering is "http://[::1]:8080" |
| BaseUrl.AsWrittenIdempotentWithoutColon | app/agent/graph.py:77-87 | without a colon in the host, the source's rendering is idempotent |
| BaseUrl.ResolveBaseUrl | app/agent/graph.py:77-87 | the corrected rendering: scheme, host and port only (path, query and fragment dropped); IPv6 hosts are bracketed; it agrees with the source whenever the host has no colon |
| BaseUrl.ResolveBaseUrlIdempotent | app/agent/graph.py:77-87 | resolving an already-resolved URL returns it unchanged |
| BaseUrl.BareHostGetsDefaultPort | app/agent/graph.py:78-87 | a bare lower-case host h resolves to "http://h:11434" |
| KpiServer.FileName | dummy/kpi_csv_out/mcp_kpi_server.py:18-67 | a file named by the template matches the `kpis_*.csv` glob, and `list_months` reads its label back as "YYYY-MM" with the month in two digits |
| KpiServer.RowsOfFile | dummy/kpi_csv_out/mcp_kpi_server.py:45-52 | a missing file yields no rows; otherwise the rows of that file |
| KpiServer.NormalizeShape | dummy/kpi_csv_out/mcp_kpi_server.py:38-42 | a normalised name has no surrounding spaces, no upper case, no blanks or hyphens, and "perfomance" occurs nowhere in it |
| Text.ReplaceAllGrows | dummy/kpi_csv_out/mcp_kpi_server.py:41 | `str.replace` with a replacement at least as long as the pattern never shortens the text, and with a strictly longer one it lengthens every text that contains the pattern |
| KpiServer.NormalizeIdempotent | dummy/kpi_csv_out/mcp_kpi_server.py:38-42 | normalising twice equals normalising once |
| KpiServer.NormalizeFixesTrailingTypo | dummy/kpi_csv_out/mcp_kpi_server.py:41 | a normal name ending in "perfomance", with no other "p" before it, ends in "performance" after normalising |
| KpiServer.NormalizeFixesTypo | dummy/kpi_csv_out/mcp_kpi_server.py:39-41 | "on_time_perfomance" normalises to "on_time_performance" |
| KpiServer.FixIdempotent | dummy/kpi_csv_out/mcp_kpi_server.py:41 | the typo fix applied twice equals once |
| KpiServer.GlobNames | dummy/kpi_csv_out/mcp_kpi_server.py:63 | exactly the directory's file names that match `kpis_*.csv` |
| KpiServer.LabelsAppend | dummy/kpi_csv_out/mcp_kpi_server.py:63-69 | labelling goes file by file: the labels of two runs of names are the labels of the first run followed by those of the second |
| KpiServer.ListMonths | dummy/kpi_csv_out/mcp_kpi_server.py:55-70 | empty for a missing directory; otherwise the labels, in order, of a sorted arrangement of exactly the matching names, one label per name whose stem splits into three parts; a label appears iff some matching name yields it |
| KpiServer.ListedMonth | dummy/kpi_csv_out/mcp_kpi_server.py:55-70 | every month with a file in the directory is listed |
| KpiServer.KpiNames | dummy/kpi_csv_out/mcp_kpi_server.py:89-97 | a name is collected iff some row has a non-empty `kpi_name` equal to it |
| KpiServer.ListKpis | dummy/kpi_csv_out/mcp_kpi_server.py:73-98 | sorted and distinct; a name appears iff a row of the sample file carries it |
| KpiServer.MalformedSampleMonth | dummy/kpi_csv_out/mcp_kpi_server.py:81-85 | a sample month that does not split into two integers lists no KPIs |
| KpiServer.UnderscoredSampleMonth | dummy/kpi_csv_out/mcp_kpi_server.py:80-83 | the sample month "2025-0_7" scans the file of July 2025, since `int()` skips an underscore between digits |
| Text.ParseIntUnderscore | dummy/kpi_csv_out/mcp_kpi_server.py:82 | `int("0_7")` is 7 |
| Text.ParseIntDoubledUnderscore | dummy/kpi_csv_out/mcp_kpi_server.py:82 | `int("0__7")` raises |
| Text.ParseIntOuterUnderscore | dummy/kpi_csv_out/mcp_kpi_server.py:82 | `int("_07")` and `int("07_")` raise |
| Text.ParseIntOfNat | dummy/kpi_csv_out/mcp_kpi_server.py:82 | the decimal rendering of a natural number parses back to it |
| KpiServer.Matching | dummy/kpi_csv_out/mcp_kpi_server.py:132-150 | the rows kept pass the filter and are drawn from the input |
| KpiServer.MatchingMembers | dummy/kpi_csv_out/mcp_kpi_server.py:132-150 | a row is kept iff it is scanned and passes the filter |
| KpiServer.Cap | dummy/kpi_csv_out/mcp_kpi_server.py:152 | the effective limit: the limit when it is positive, otherwise 1, because the check runs after the first append |
| KpiServer.Window | dummy/kpi_csv_out/mcp_kpi_server.py:114-124 | fails iff the directory is missing, a date is not canonical YYYY-MM-DD, or the end precedes the start, with the source's distinct errors; a valid window reproduces both date strings |
| KpiServer.Answer | dummy/kpi_csv_out/mcp_kpi_server.py:150-163 | the reply is a prefix of the matching rows with its count; the limit is reached iff the effective limit is hit; otherwise all matching rows are returned |
| KpiServer.Query | dummy/kpi_csv_out/mcp_kpi_server.py:101-163 | errors exactly as the window check says; every row returned passes the filter; the count equals the rows; at most `limit` rows, with `limit_reached` iff exactly `limit` were returned |
| KpiServer.QueryRowsInWindow | dummy/kpi_csv_out/mcp_kpi_server.py:133-148 | every row returned has a date inside the window, the requested KPI after normalisation, and the requested client after stripping |
| KpiServer.QueryComplete | dummy/kpi_csv_out/mcp_kpi_server.py:129-163 | the rows are a prefix of the matching scanned rows, in scan order; when the limit is not hit, a row is returned iff it is scanned and passes |
| KpiServer.ScannedRowsOfMonths | dummy/kpi_csv_out/mcp_kpi_server.py:131-132 | a row is scanned iff it lies in the file of some month of the range |
| KpiServer.DateCheckIsChronological | dummy/kpi_csv_out/mcp_kpi_server.py:137-138 | for canonical dates, the text comparison with the bounds is the chronological comparison |
| KpiServer.Scan | dummy/kpi_csv_out/mcp_kpi_server.py:129-163 | the nested month/row loop with early return computes exactly the capped prefix of the matching rows |
| KpiServer.QueryKpiData | dummy/kpi_csv_out/mcp_kpi_server.py:101-163 | the loop implementation returns the same reply as the functional query |
| Calendar.DaysInMonth | dummy/generate_kpi_csvs.py:170 | 28 to 31 days; 29 exactly for February of a leap year |
| Calendar.MonthsRange | dummy/kpi_csv_out/mcp_kpi_server.py:27-35 | one entry per month from the start to the end inclusive, consecutive, and empty when the end precedes the start |
| Calendar.ParseIsoOfFormat | dummy/kpi_csv_out/mcp_kpi_server.py:23-24 | parsing the ISO text of a valid date gives back the date |
| Calendar.FormatOfParseIso | dummy/kpi_csv_out/mcp_kpi_server.py:23-24 | text that parses is the ISO rendering of its date |
| Calendar.IsoTextOrder | dummy/kpi_csv_out/mcp_kpi_server.py:137-138 | for ISO date texts, text order ≤ holds iff the dates are in chronological order |
| Text.Strip | app/agent/graph.py:174 | the result is the input minus its leading and trailing blanks; it is empty iff the input is blank |
| Text.SortedDistinct | dummy/kpi_csv_out/mcp_kpi_server.py:89-98 | a strictly sorted list with the same members as the input |
| Text.Split | dummy/kpi_csv_out/mcp_kpi_server.py:66 | the parts contain no separator and join back to the input |
| Text.DigitsOrder | dummy/kpi_csv_out/mcp_kpi_server.py:137 | equal-length digit strings compare as text iff their values compare |
| Generator.ConfiguredMonths | dummy/generate_kpi_csvs.py:46-59 | the configured range is thirteen months, Aug 2024 through Aug 2025 |
| Generator.Clamp | dummy/generate_kpi_csvs.py:62-63 | for lo ≤ hi the result lies in [lo, hi], equals v inside, and the nearer bound outside; for hi < lo it is lo |
| Generator.ClampMonotone | dummy/generate_kpi_csvs.py:62-63 | clamping preserves order |
| Generator.Step | dummy/generate_kpi_csvs.py:70-71 | the spacing is the floor of 600 minutes divided by (count − 1), or the whole span for one sample |
| Generator.SampleMinutes | dummy/generate_kpi_csvs.py:66-72 | count samples, evenly spaced from 08:00 |
| Generator.SamplesWithinHours | dummy/generate_kpi_csvs.py:66-72 | every sample lies between 08:00 and 18:00 |
| Generator.SamplesIncreasing | dummy/generate_kpi_csvs.py:71-72 | samples are strictly increasing iff there are at most 601 of them (beyond that the step is 0) |
| Generator.TenSamples | dummy/generate_kpi_csvs.py:193 | ten samples are 66 minutes apart, from 08:00 to 17:54 |
| Generator.LoggedAtText | dummy/generate_kpi_csvs.py:72 | a 19-character timestamp starting with the ISO date and 'T' |
| Generator.Layout | dummy/generate_kpi_csvs.py:191-211 | a month has days × 14 KPIs × 10 samples rows |
| Generator.LayoutAt | dummy/generate_kpi_csvs.py:191-211 | the row for (day, KPI k, sample i) sits at position (day−1)·140 + 10k + i |
| Generator.WriteMonthRows | dummy/generate_kpi_csvs.py:169-211 | the writer's triple loop emits exactly the layout |
| Generator.RecordColumns | dummy/generate_kpi_csvs.py:186-189 | each record has exactly the header's columns |
| Generator.RecordFields | dummy/generate_kpi_csvs.py:195-211 | each record carries its KPI's own unit, frequency and threshold id |
| Generator.RecordValue | dummy/generate_kpi_csvs.py:201-211 | each record carries the value given and a `logged_at` stamp on the row's own day |
| Generator.RecordKeys | dummy/generate_kpi_csvs.py:202-211 | each record carries the ISO date of its day, its KPI's name and client id "2" |
| Generator.RecordsOfMonth | dummy/generate_kpi_csvs.py:191-211 | each written row's date parses back to a day of that month, with client "2" |
| ChatQuery.DatePositions | dummy/kpi_csv_out/streamlit_app.py:81 | the positions of all non-overlapping date tokens, left to right, none skipped |
| ChatQuery.FindDates | dummy/kpi_csv_out/streamlit_app.py:81 | one ten-character token per date position, in order |
| ChatQuery.DatePair | dummy/kpi_csv_out/streamlit_app.py:81-82 | both dates or neither; none iff fewer than two tokens; otherwise the first two tokens in text order |
| ChatQuery.TwoDatesInOrder | dummy/kpi_csv_out/streamlit_app.py:81-82 | "a b" for two date-shaped a and b yields (a, b) |
| ChatQuery.GroupAt | dummy/kpi_csv_out/streamlit_app.py:102 | the longest run of id characters that ends at a word boundary |
| ChatQuery.SearchKeyed | dummy/kpi_csv_out/streamlit_app.py:102-104 | the leftmost `client_id`-style match, if any |
| ChatQuery.SearchPhrased | dummy/kpi_csv_out/streamlit_app.py:106-108 | the leftmost "for client X" match, if any |
| ChatQuery.ClientOf | dummy/kpi_csv_out/streamlit_app.py:101-110 | the keyed form wins whenever it matches anywhere, else the phrased form; none iff neither matches |
| ChatQuery.KeyedFormWins | dummy/kpi_csv_out/streamlit_app.py:102-110 | in "for client ab client_id=cd" the keyed form's "cd" wins over the earlier phrase |
| ChatQuery.ParseQuery | dummy/kpi_csv_out/streamlit_app.py:73-111 | the dates, the client and the KPI guess (none when no KPIs are known) combine as above |

## Left out

- The language model (`ChatOllama`), `ToolNode`, the `MemorySaver` checkpointer and LangGraph's runtime. The model is an oracle parameter. A tool output's rendering into text is a parameter. The checkpointed state of the thread is an input.
- Graph.Run: the agent/tools loop has no bound in the source. The model gives it `fuel` steps, and running out is a model-only failure outcome. Loops longer than the fuel are not modelled.
- The constructor `_init_`, the Ollama preflight and the model-existence check (`graph.py:37-75, 89-108`). Besides the network probes and prints, the constructor builds the chat model (`self.llm`), the checkpointer (`self.memory`) and the compiled graph (`self.graph`) that `invoke` uses. In the model these are the parameters of `Graph.Invoke`: `backend` stands for the chat model, `checkpoint` for what the checkpointer saved for the thread, and `Graph.Step`/`Graph.Run` for the compiled graph. The constructor is misspelt `_init_`, so Python never calls it. `app/main.py:21` passes `model_name` and `base_url` to `GraphWrapper(...)`, which falls through to `object.__init__` and raises `TypeError`. As written, then, the deployed app never reaches `invoke` or `_resolve_base_url`. The model describes the evidently intended `__init__`.
- The system prompt's wording is a constant. What the model does with it is not modelled.
- The Mongo driver, the `get_db`/`ensure_indexes` connection set-up and `list_clients`. The store is a value. The unique index on client ids is the invariant `Store.Valid`.
- `datetime.utcnow()` is a strictly increasing clock counter in the store. `date.today()` is a day-ordinal parameter.
- Store.SeedDocValues: churn is stored as a real with the source's ±0.002 steps. `round(..., 4)` and `float` conversion are not modelled.
- Floating point: values are Dafny reals, and `round(…, 2)` on the anomaly score and change percentage is not modelled.
- MonitorServices.GetTrendAnalysis: it states the label's relation to the slope but not the forecast sentences, which are fixed per label.
- Only the float `isfinite` test of `_pct_change` is dropped. Reals are always finite.
- The random generator and `gen_value` (sine waves, noise). The written value is a parameter of `Generator.ToRecord`. `clamp` is modelled on its own.
- File I/O:
  - Writing, overwrite handling and the alternate path of `write_month_csv` are not modelled.
  - Reading CSV files and `glob` are not modelled. A directory is a sequence of named files, each a sequence of rows, and a row is a map of column to text.
  - `list_months` lists the files sorted by name, as `sorted()` orders the paths of one directory.
- WriteMonthRows: requires a valid year and month. The source raises from `monthrange` otherwise.
- Calendar.ParseIsoDate: accepts only canonical `YYYY-MM-DD`. `strptime` also takes one-digit months and days, and such dates are rejected here instead.
- `difflib.get_close_matches`: the KPI guess of `parse_query` is an input (`fuzzyGuess`). The model fixes only when it is consulted. Tokenising the text for it is not modelled.
- The Streamlit page, `run_query`, `fallback_kpis_from_fs`, `ensure_str_list` and the MCP client. They are UI and transport around the modelled core.
- FastAPI (`app/main.py`, `app/api/chat_router.py`) and the pydantic response schemas.
- `urlsplit` details beyond the ones that matter here: the scheme, the netloc up to `/?#`, userinfo, the port and bracket checks. The detailed IPv6 address validation of `_check_bracketed_host` is not modelled.
- BaseUrl.ResolvePort: follows the port check of current CPython `urllib.parse`, which accepts only ASCII digits (`isdigit() and isascii()`). Older releases converted with `int(port, 10)`, which also accepts a sign, surrounding blanks and digit underscores ("+80", " 80", "8_0"). That behaviour is not modelled.
- Text is ASCII. Unicode case folding, `\s` beyond ASCII whitespace and `\w` beyond ASCII letters and digits are not modelled.

## Findings

| source | as written | input that shows it | evidently intended | confidence | as-written member | corrected member |
|---|---|---|---|---|---|---|
| app/agent/graph.py:86-87 | the netloc is rebuilt as `f"{host}:{port}"` from `parts.hostname`, which strips the brackets of an IPv6 literal | `"[::1]:8080"` gives `"http://::1:8080"`, which `urlsplit` itself rejects when read back (its port text ":1:8080" is not a number) | bracket an IPv6 host, giving `"http://[::1]:8080"`, so the result resolves to itself | not executed | BaseUrl.AsWrittenRejectsOwnIPv6Result | BaseUrl.ResolveBaseUrlIdempotent |
