# Log parser services, verified model

The repository holds three cooperating services for InfiniBand diagnostics. A parser turns archives of `db_csv`
files into nodes, infos and ports; a repository keeps them in four tables, under a log that is first
`processing` and then `parsed` or `failed`; a topology service infers links from a snapshot of one log. This
project models their cores and proves what they promise, alone and together.

`dafny verify dfyconfig.toml` checks everything.

## What is modelled

**Shared vocabulary.** `Domain` has the parsed log and Go's `int32` conversion, `Text` the string functions,
`Seqs`, `SetSizes` and `Sorting` facts about filters, permutations, sizes and sorts. A sort is any sorted
permutation: `sort.Slice` does not say how ties fall.

**Topology.** `HostPhase` is the first phase of `buildEdges`: each active host port in order picks a free switch
port, exact link match first; `ExactMatches` is about how many of those there are. `Backbone` is the second:
neighbouring switches are joined with what is left. `Edges` holds the loops; a ghost `Plan` records the intermediate
lists so that `EdgeProperties` and `EdgeCounting` can speak about them. `TopologyView` is `GetTopology` with its
counters and groups.

**Parser.** `KeyedFold` specifies an index map beside a slice as a keyed fold. `Merging` and `PortKey` are the
merges and the `|`-joined port key, `Finalize` the loops of `finalizeParsedLog`, `FinalizeProperties` and
`Incremental` what follows. `Sections` is the `db_csv` splitter; `SectionProperties` and `SectionPrinting` relate it
to definitions that know no state machine.

**Repository.** `Tables` has the rows, the constraints of the two migrations and the queries. `SaveProgram` is
`SaveParsedLog` one SQL statement at a time; `Flaws` tells from a log alone which error its save must end with;
`SaveSteps` and `SaveCommit` show what the statements and the commit keep. `Storage` is the same code as a class with
loops and early exits, together with a sequential `ParseLog`.

**Lifecycle.** `Lifecycle` interleaves any number of create, save, fail and topology calls, each advancing one
database step at a time; any call may be lost, aborted, or take effect without its caller hearing of it.
`LifecycleInv` and `LifecycleSteps` prove the invariant, `LifecycleRuns` the theorems over runs. `Clients` puts
`ParseLog` processes on top, with requests and replies that can be lost.

**Meaning.** `EdgeMeaning`, `TopologyMeaning`, `SectionMeaning` and `FinalMeaning` tell the results of the main
operations a second time, by the fields and cells of the rows alone: which ports an edge copies which field from, what
a view, a group and the summary say, which rows are markers, comments, headers and records, and which input row each
field of a finalized node, info or port comes from. What they say of a result avoids the functions that the result is
specified with, so the two accounts check each other. `Text` does the same for the string functions.

**Pipeline.** Parser output against the schema, saved rows against the topology service's needs. `ReadBack` follows
saved rows into the snapshot.

## What is assumed of the database

- A row locked with `FOR UPDATE` keeps other lockers and writers of that row waiting.
- An `UPDATE` that waited for a row checks its condition again before it changes the row.
- A repeatable-read transaction sees one committed snapshot.
- Constraints are checked by each statement against the committed rows and the transaction's own rows. That no
  insert ever meets an uncommitted row of another save is proved (`SavesInProgressDoNotMeet`).
- Sequence values are never handed out twice, and a rollback discards everything but used sequence values.

## Where the obvious claim is false

- The host phase does not maximise exact link matches: a fallback may take a port that a later host port matches.
  `ExactMatchesCanBeMissed` gives nodes and ports on which it does. `ExactMatchesAreMaximumIff` says exactly when the
  maximum is reached, at the moment a fallback is taken: whenever the port taken has a known link, the free ports with
  that link outnumber the host ports with that link still to come. `AllExactIff` reads off the input alone when every
  host port gets an exact match.
- A `ParseLog` error does not mean the log failed: `ErrorCanLeaveParsed` is a run that ends parsed.
  `ErrorMeansFailedIff` says exactly when it does mean that, from the answer to the client's own `FailLog`. Without an
  answer, and with nobody else at work on the log, `ErrorOutcomeByCause` says what it is from which of the client's
  calls took effect; an error of the parser never leaves it parsed (`ParserErrorNeverLeavesParsed`). `ErrorOutcome` and
  `ProcessingIsExplained` cover the rest.
- A fail that updated no row can report `processing` (`GuessedFailCanReportProcessing`), exactly when the log was
  created after the update had looked for it (`MissedFailReports`).
- The port key identifies ports not only when GUIDs have no `|`, but exactly when no GUID followed by `|` begins
  another (`KeysIdentifyPortsIff`). Over such sets of GUIDs, and no others, finalization is idempotent
  (`FinalizationIsIdempotentIff`) and finalizing in parts gives the ports of finalizing everything
  (`PortsInPartsIff`).
- Incremental does not always equal batch. Ports can differ as just said. Nodes can lose the kind `unknown` of a
  node that the first part only mentions, when the rows of the second leave the kind empty (`NodesInPartsIff`;
  `KindCanGetLost` has such logs for any GUID).
  There is nothing else: `IncrementalEqualsBatchIff` shows that over a set of port GUIDs lost kinds are all that can
  make a difference exactly when the set is prefix-free. The parser never leaves a kind empty, and GUIDs without a
  bar are prefix-free, so its usual logs are safe (`IncrementalEqualsBatch`).
- A finalized log can be unfit for the schema: the parser tells ports apart by port GUID, the unique index does not
  (`FinalizedLogFitsIff`; `FinalizedLogCanBeUnfit` has such a log). The refused port is then the only error its save can
  meet (`FinalFlawIsAPort`). With prefix-free GUIDs this shows in the input: it happens exactly when two rows agree in
  node GUID and port number but not in port GUID (`PortNumbersAreUniqueIff`).
- A START closes the section that is open, and a bare `START_` leaves none open (`StartClosesLikeEnd`,
  `AcceptanceIff`).

## Model

| member | source | states |
|---|---|---|
| `Domain.Int32` | log-services/topology/core/service.go:113-117 | a Go int32 conversion: the number itself in range, otherwise the number of the same low 32 bits in range |
| `Text.TrimMeaning` | log-services/parser/parser/dbcsv.go:236-242 | trimming takes characters of the cut set from both ends, all of them and nothing else |
| `Text.TrimUndoes` | log-services/parser/parser/dbcsv.go:236-242 | what is put around a trimmed text goes again |
| `Text.SpacesAndQuotes` | log-services/parser/parser/dbcsv.go:236-242 | the white space and the quotes, character by character |
| `Text.CaseMeaning` | log-services/parser/parser/dbcsv.go:236-257 | letters become those at the same place in the other alphabet, nothing else changes |
| `Text.LessMeaning` | log-services/topology/core/service.go:388 | strings are ordered by their first difference, a prefix before what it begins |
| `Text.ItoaMeaning` | log-services/parser/parser/section.go:314 | the decimal notation of the number |
| `HostPhase.PickSwitchPort` | log-services/topology/core/service.go:277-295 | returns the favourite of the host port among the free switch ports: the first with its width and speed, both known, otherwise the first of all; none only when none is free |
| `HostPhase.HostPickIsFavourite` | log-services/topology/core/service.go:161-186 | every host port gets its favourite among what the earlier ones left |
| `HostPhase.HostPicksTakeByLink` | log-services/topology/core/service.go:277-308 | in widths and speeds: every host port gets the first port of its link that the earlier ones left, otherwise the first port they left |
| `HostPhase.HostPicksAreAMatching` | log-services/topology/core/service.go:161-186 | no switch port is handed out twice |
| `HostPhase.HostPhaseIsParetoOptimal` | log-services/topology/core/service.go:161-186 | any assignment that is at least as good for every host port is the one the phase made |
| `HostPhase.MatchingSizeBound` | log-services/topology/core/service.go:161-186 | no assignment of different switch ports links more than min(host ports, switch ports) |
| `HostPhase.HostPhaseIsMaximum` | log-services/topology/core/service.go:161-186 | the phase reaches that bound |
| `HostPhase.FallbackMeansMatchesTaken` | log-services/topology/core/service.go:277-308 | a host port without an exact match: every switch port it matches went to an earlier host port |
| `ExactMatches.PickCases` | log-services/topology/core/service.go:277-295 | an exact match if one is free, otherwise the first free port, which is then the fallback |
| `ExactMatches.ExactMatchesAreMaximumIff` | log-services/topology/core/service.go:288-292 | the number of exact matches is maximum if and only if, at every fallback to a port with a known link, the free ports with that link outnumber the host ports with it still to come |
| `ExactMatches.AllExactIff` | log-services/topology/core/service.go:161-186 | every host port gets an exact match if and only if each knows its link and no link has more host ports than switch ports |
| `ExactMatches.ExactMatchesCanBeMissed` | log-services/topology/core/service.go:288-292 | nodes and ports whose active, sorted lists make the phase miss the maximum |
| `Backbone.FirstUnusedPort` | log-services/topology/core/service.go:324-332 | the first port whose id is not used |
| `Backbone.LinkExistsIff` | log-services/topology/core/service.go:195-227 | link i exists exactly when free(i) less the port spent on link i-1 is at least 1 and free(i+1) is at least 1 |
| `Backbone.EagerMarkingIsUnobservable` | log-services/topology/core/service.go:199-211 | marking the source before the target is known finds the same ports as marking both only when both exist |
| `Backbone.HopsAreABackbone` | log-services/topology/core/service.go:195-227 | the loop's links use free ports of the two switches, no port twice |
| `Backbone.BackboneIsMaximum` | log-services/topology/core/service.go:188-227 | no other set of links between neighbouring switches over the ports left by the host phase is larger |
| `Edges.IndexNodes` | log-services/topology/core/service.go:137-145 | the node index and the switches in input order |
| `EdgeMeaning.IndexKeepsTheLast` | log-services/topology/core/service.go:140-144 | of several rows with one id the index has the last |
| `Edges.ActivePortsForKinds` | log-services/topology/core/service.go:232-254 | exactly the active ports of known nodes of the kinds, in order |
| `Edges.SortPorts` | log-services/topology/core/service.go:263-275 | a permutation sorted by node, port number, id |
| `Edges.SortNodes` | log-services/topology/core/service.go:188-191 | a permutation sorted by id |
| `Edges.GroupPortsByNodeID` | log-services/topology/core/service.go:310-322 | the groups split the ports by node and are sorted |
| `Edges.LinkHosts` | log-services/topology/core/service.go:158-186 | edges and used ids after the first phase are those of the host picks |
| `Edges.LinkPair` | log-services/topology/core/service.go:195-226 | one iteration: the ports it finds, the ids it marks, the edge it appends |
| `Edges.LinkSwitches` | log-services/topology/core/service.go:195-227 | edges of the second phase are those of all iterations |
| `Edges.BuildEdges` | log-services/topology/core/service.go:136-230 | the edges are those of both phases over the active, sorted ports and switches |
| `EdgeProperties.ResortingChangesNothing` | log-services/topology/core/service.go:317-319 | sorting the groups again leaves each in the order of the sorted list |
| `EdgeProperties.EdgesIgnoreInputOrder` | log-services/topology/core/service.go:136-230 | with distinct ids, permuting nodes and ports gives the identical edge sequence |
| `EdgeProperties.LinksAreSound` | log-services/topology/core/service.go:158-261 | every endpoint is an active input port of a node of the kind the relation demands; backbone links go to a larger id |
| `EdgeProperties.BackboneFormsPaths` | log-services/topology/core/service.go:195-227 | backbone links line up by ascending switch id: no cycle, at most two at a switch |
| `EdgeMeaning.ActivePortsAreUsable` | log-services/topology/core/service.go:232-261 | the ports that take part are those of state 4 with positive ids and number on a node whose kind is the word, apart from case and white space |
| `EdgeMeaning.ListsAscend` | log-services/topology/core/service.go:188-191 | host and switch ports are served by ascending node id, then number, then id; switches are visited by ascending id |
| `EdgeMeaning.EdgesShowRows` | log-services/topology/core/service.go:158-227 | every field of every edge, copied from which field of which port or node; the relation says whether the source is a host |
| `EdgeMeaning.ChoicesBecomeEdges` | log-services/topology/core/service.go:158-227 | every pick of the first phase and every link of the second is an edge |
| `EdgeCounting.NoPortServesTwoLinks` | log-services/topology/core/service.go:158-227 | over both phases together no port ends two links |
| `EdgeCounting.EdgeEndpointsAreDistinct` | log-services/topology/core/service.go:170-226 | with unique port numbers per node all (node id, port number) endpoints of the edges differ |
| `EdgeCounting.UsedPortsAreAccountedFor` | log-services/topology/core/service.go:159-211 | used switch ports are host edges, twice backbone edges, and the sources marked in vain |
| `EdgeCounting.HostEdgeCount` | log-services/topology/core/service.go:161-186 | host edges are min(active host ports, active switch ports) |
| `EdgeCounting.BackboneEdgeCount` | log-services/topology/core/service.go:188-227 | backbone edges of the plan are at least as many as any admissible set of links |
| `TopologyView.CountPorts` | log-services/topology/core/service.go:43-53 | both count maps hold the 32-bit numbers of ports per id and per GUID |
| `TopologyView.ViewNode` | log-services/topology/core/service.go:71-90 | a node view with the count by id, or by GUID if that is zero |
| `TopologyView.CountKinds` | log-services/topology/core/service.go:58-69 | the two counters are the 32-bit numbers of hosts and switches |
| `TopologyView.GroupNodes` | log-services/topology/core/service.go:94-104 | one group per kind that occurs, with ids and GUIDs of its nodes in input order |
| `TopologyView.OtherKinds` | log-services/topology/core/service.go:381-388 | all kinds without a fixed place, strictly ascending, whatever the map order |
| `TopologyView.GroupsFromMap` | log-services/topology/core/service.go:365-395 | all groups, ordered host, switch, unknown, then ascending |
| `TopologyView.GetTopology` | log-services/topology/core/service.go:26-134 | the three errors exactly when they are due; otherwise views, groups, edges and summary of the fetched data |
| `TopologyView.GroupsPartitionTheNodes` | log-services/topology/core/service.go:55-107 | distinct kinds, every node in the group of its kind, sizes adding up to the number of nodes |
| `TopologyView.CountersAreGroupSizes` | log-services/topology/core/service.go:58-69 | host and switch counters are the sizes of their groups |
| `TopologyView.FallbackNeverContributes` | log-services/topology/core/service.go:71-74 | on rows as the repository keeps them the count shown is the 32-bit count by id, even where that wraps to zero and the GUID fallback is taken |
| `TopologyView.ParsedPortCountsAddUp` | log-services/topology/core/service.go:43-74 | on such rows the nodes' port counts add up to the summary's: exactly below 2^31 ports, modulo 2^32 always |
| `TopologyMeaning.ViewsShowNodes` | log-services/topology/core/service.go:71-90 | every field of view i comes from the same field of node i or its info; the count is the number of ports with its id, or with its GUID if that is zero |
| `TopologyMeaning.SummaryCounts` | log-services/topology/core/service.go:108-122 | the five counts and the log id, each against what it counts |
| `TopologyMeaning.GroupsAreOrdered` | log-services/topology/core/service.go:340-395 | hosts, switches, unknown, then the other kinds in string order, each under its title |
| `TopologyMeaning.GroupsListNodes` | log-services/topology/core/service.go:92-104 | entries of a group are nodes of its kind in input order, id and GUID of the same node at the same place |
| `TopologyMeaning.NodesAreListed` | log-services/topology/core/service.go:92-104 | every node is an entry of a group |
| `PortKey.KeyIsInjective` | log-services/parser/parser/section.go:314 | equal keys mean the same node GUID, port GUID and number, if neither GUID followed by a bar begins the other |
| `PortKey.NoBarMeansPrefixFree` | log-services/parser/parser/section.go:314 | GUIDs without a bar meet that condition |
| `PortKey.KeysIdentifyPortsIff` | log-services/parser/parser/section.go:314 | over a set of GUIDs keys identify ports exactly under that condition |
| `Merging.MergedNode` | log-services/parser/parser/section.go:332-362 | each field of merged nodes is the last one said; "unknown" says nothing about the kind |
| `Merging.MergedInfo` | log-services/parser/parser/section.go:364-382 | each field of merged infos is the last non-empty one |
| `Merging.MergedPort` | log-services/parser/parser/section.go:384-414 | each field of merged ports is the last one not empty or zero |
| `Merging.MergesAreAssociative` | log-services/parser/parser/section.go:332-414 | all three merges are associative |
| `Merging.PlaceholderIsAnIdentity` | log-services/parser/parser/section.go:261-264 | the unknown node adds nothing; a node on top of it survives exactly when its kind is not empty |
| `Merging.MergeKeepsPort` | log-services/parser/parser/section.go:384-414 | merging values of one port keeps the port and its key |
| `Finalize.MergeInto` | log-services/parser/parser/section.go:294-300 | merging or appending keeps slice and index map a table of one more value |
| `Finalize.EnsureNode` | log-services/parser/parser/section.go:252-266 | like adding a bare unknown node; nothing for the empty GUID |
| `Finalize.MergeNodes` | log-services/parser/parser/section.go:268-281 | the node loop builds the table of the cleaned rows |
| `Finalize.MergeMentions` | log-services/parser/parser/section.go:286-323 | the loops over infos and ports build their tables and add a node per mention |
| `Finalize.FinalizeParsedLog` | log-services/parser/parser/section.go:248-330 | nodes, infos and ports are keyed folds of the cleaned input |
| `FinalizeProperties.NodesAreKeyedFolds` | log-services/parser/parser/section.go:248-330 | nodes in order of first appearance over nodes, infos, ports; each the fold of its rows or the bare unknown node |
| `FinalizeProperties.FinalLogIsConsistent` | log-services/parser/parser/section.go:283-323 | GUIDs trimmed and not empty, infos and ports refer to output nodes, nodes and infos distinct |
| `FinalizeProperties.PortsKeepKeys` | log-services/parser/parser/section.go:314-322 | with prefix-free GUIDs merging never moves a stored port to another key |
| `FinalizeProperties.FinalPortsAreDistinct` | log-services/parser/parser/section.go:303-330 | with prefix-free GUIDs output keys and output ports are distinct |
| `FinalMeaning.FinalNodeFields` | log-services/parser/parser/section.go:248-362 | every field of an output node is the last one said by an input row with its trimmed GUID; without such a row it is the bare unknown node |
| `FinalMeaning.FinalInfoFields` | log-services/parser/parser/section.go:283-301 | the same for infos |
| `FinalMeaning.FinalPortsCollect` | log-services/parser/parser/section.go:303-323 | the same for ports, by key; one port per key, keys in order of first appearance |
| `FinalMeaning.FinalNodesAppear` | log-services/parser/parser/section.go:248-323 | one node per non-empty trimmed GUID of any row, in order of first appearance over nodes, infos, ports |
| `FinalMeaning.FinalInfosAppear` | log-services/parser/parser/section.go:283-301 | one info per such GUID of an info row, in that order |
| `Incremental.InfosInParts` | log-services/parser/parser/section.go:283-301 | finalizing in two steps gives the same infos in the same order |
| `Incremental.PortsInPartsIff` | log-services/parser/parser/section.go:303-323 | over a set of port GUIDs it always gives the same ports exactly when the set is prefix-free |
| `Incremental.NodesInPartsIff` | log-services/parser/parser/section.go:248-281 | the same GUID-to-node map if and only if no kind gets lost |
| `Incremental.KindCanGetLost` | log-services/parser/parser/section.go:332-341 | for any clean GUID two logs whose kind gets lost: the two ways agree on infos and ports and differ in a node |
| `Merging.DerivedKind` | log-services/parser/parser/raw.go:80-100 | an explicit kind wins, otherwise exactly which descriptions and types make a switch, a host or an unknown node; never empty |
| `Incremental.NonEmptyKindsAreKept` | log-services/parser/parser/section.go:339-341 | with non-empty kinds in the second part none gets lost |
| `Incremental.DerivedKindsAreKept` | log-services/parser/parser/raw.go:80-100 | so none gets lost among kinds the parser derived |
| `Incremental.IncrementalEqualsBatchIff` | log-services/parser/parser/section.go:248-414 | over a set of port GUIDs the two ways give the same log exactly when no kind gets lost, if and only if the set is prefix-free |
| `Incremental.NodesAndInfosAreIdempotent` | log-services/parser/parser/section.go:248-301 | finalizing again never changes nodes or infos |
| `Incremental.FinalizationIsIdempotentIff` | log-services/parser/parser/section.go:303-330 | over a set of port GUIDs finalizing again changes nothing exactly when the set is prefix-free |
| `Sections.RowToRecord` | log-services/parser/parser/dbcsv.go:189-214 | the record, or the first extra value |
| `Sections.RecordIffFits` | log-services/parser/parser/dbcsv.go:207-211 | a record exactly when no cell beyond the header is non-blank |
| `Sections.RecordMeaning` | log-services/parser/parser/dbcsv.go:190-205 | its keys are the non-blank headers the row reaches, its values the trimmed cells of the last such column |
| `SectionProperties.FlushKeepsRecords` | log-services/parser/parser/dbcsv.go:111-127 | flushing neither loses nor invents a record |
| `SectionProperties.FlushAddsOneSection` | log-services/parser/parser/dbcsv.go:111-127 | it keeps the sections there are and adds at most one, under the open name and never empty |
| `Sections.SplitSections` | log-services/parser/parser/dbcsv.go:104-187 | the loop computes the sections or the error of the row-by-row specification |
| `SectionProperties.SplittingComposes` | log-services/parser/parser/dbcsv.go:129-186 | after an accepted input, splitting goes on as if from the start, errors included |
| `SectionProperties.BadRowsStayBad` | log-services/parser/parser/dbcsv.go:143-174 | the error of a bad row does not depend on what follows |
| `SectionProperties.StartClosesLikeEnd` | log-services/parser/parser/dbcsv.go:136-141 | a START in an open section acts as if that section's END stood before it |
| `SectionProperties.FirstProblemIsTheError` | log-services/parser/parser/dbcsv.go:129-182 | the first row with a problem decides the error; without one only an open section is an error |
| `SectionProperties.AcceptanceIff` | log-services/parser/parser/dbcsv.go:129-213 | accepted exactly when every END names the section of the nearest marker above, data rows fit their headers, none is open at the end |
| `SectionProperties.RecordsAreNeverEmpty` | log-services/parser/parser/dbcsv.go:175-177 | the filter on empty records never drops one |
| `SectionProperties.RowsAreConserved` | log-services/parser/parser/dbcsv.go:158-177 | every data row becomes exactly one record, in order |
| `SectionPrinting.SectionsAreBlocks` | log-services/parser/parser/dbcsv.go:104-187 | the sections are the blocks of the input: one per named START with data before the next marker |
| `SectionPrinting.SplittingInvertsPrinting` | log-services/parser/parser/dbcsv.go:104-187 | printed sections with any unmarked rows around them are read back unchanged |
| `SectionMeaning.SilentRowsGoAnywhere` | log-services/parser/parser/dbcsv.go:244-257 | a row with a blank or comment cell in front, told by its characters, can be put anywhere without effect |
| `SectionMeaning.MarkerMeaning` | log-services/parser/parser/dbcsv.go:236-242 | a row is a START or END by its first cell without white space and quotes, in any case, with the rest as name |
| `SectionMeaning.SectionIsRead` | log-services/parser/parser/dbcsv.go:129-186 | below a named START the first other row is the header, and each fitting row after it gives one record keyed by it |
| `SectionMeaning.MalformedCell` | log-services/parser/parser/dbcsv.go:207-211 | a row that does not fit is reported with its first non-blank cell beyond the header |
| `SectionMeaning.ErrorsNameTheCause` | log-services/parser/parser/dbcsv.go:143-182 | each of the four errors says of the first row with a problem, or of the end, what is wrong with it |
| `Tables.OnlyParsedLogsHaveRows` | log-services/repository/adapters/db/migrations/000001_create_repository_schema.up.sql:14-66 | in a database in order a log that is not parsed has no row in any table |
| `Flaws.SavableIffFlawless` | log-services/repository/adapters/db/storage.go:97-219 | looking at the rows one after the other as the inserts do finds no flaw exactly when the log fits the schema |
| `Flaws.FlawAfterCleanRows` | log-services/repository/adapters/db/storage.go:97-219 | the first flaw is that of the first row that has one, and such a log does not fit |
| `SaveSteps.ClearStep` | log-services/repository/adapters/db/storage.go:89-95 | the delete finds nothing to remove |
| `SaveSteps.NodeStep` | log-services/repository/adapters/db/storage.go:99-139 | one node insert keeps the transaction in order, or stops with the first flaw of a log that does not fit the schema |
| `SaveSteps.InfoStep` | log-services/repository/adapters/db/storage.go:141-174 | the same for an info |
| `SaveSteps.PortStep` | log-services/repository/adapters/db/storage.go:176-219 | the same for a port |
| `SaveSteps.CompleteMeansSavable` | log-services/repository/adapters/db/migrations/000002_ports_unique.up.sql:1-2 | what was inserted completely fits the schema: sound references, no duplicates, unique port numbers |
| `SaveCommit.CommitKeepsOrder` | log-services/repository/adapters/db/storage.go:221-248 | after the commit the database is in order |
| `SaveCommit.CommitSavesExactly` | log-services/repository/adapters/db/storage.go:221-254 | the log holds exactly what was to be saved, with its counts; every other log is as before |
| `Snapshots.SelectedNodes` | log-services/repository/adapters/db/storage.go:497-523 | one node per row in id order: the left join repeats none |
| `Snapshots.SelectedPorts` | log-services/repository/adapters/db/storage.go:528-554 | the ports of the log, each once |
| `Snapshots.SnapshotsAscend` | log-services/repository/adapters/db/storage.go:497-554 | nodes by ascending id, ports by ascending node id and port number |
| `Snapshots.SnapshotAgreesWithCounts` | log-services/repository/adapters/db/storage.go:464-565 | lists as long as the stored counts if parsed, empty otherwise |
| `Snapshots.SnapshotFitsTopology` | log-services/repository/adapters/db/storage.go:464-565 | distinct ids, unique port numbers, every port's node present with its GUID |
| `ReadBack.NodesAreReadBack` | log-services/repository/adapters/db/storage.go:497-523 | node i of a snapshot is node i of the saved log, with the info saved under its GUID and no other |
| `ReadBack.SnapshotShowsLog` | log-services/repository/adapters/db/storage.go:464-565 | a snapshot shows the whole log as the tables hold it |
| `ReadBack.PortsAreReadBack` | log-services/repository/adapters/db/storage.go:528-554 | the snapshot's ports are the saved ports, each way, field by field |
| `Storage.Store.CreateLog` | log-services/repository/adapters/db/storage.go:48-61 | a new id with a processing row: its path, no counts, no error text |
| `Storage.Store.InsertNodes` | log-services/repository/adapters/db/storage.go:97-139 | all nodes are in and indexed, or the error is the first flaw of a log that does not fit |
| `Storage.Store.InsertInfos` | log-services/repository/adapters/db/storage.go:141-174 | all infos are in, or the error is the first flaw |
| `Storage.Store.InsertPorts` | log-services/repository/adapters/db/storage.go:176-219 | all ports are in, or the error is the first flaw |
| `Storage.Store.WriteLog` | log-services/repository/adapters/db/storage.go:89-254 | on a processing log: the error is the first flaw of the log; without one it is stored exactly, with one the tables are unchanged |
| `Storage.Store.SaveParsedLog` | log-services/repository/adapters/db/storage.go:63-255 | saves exactly the logs that fit, onto logs that are processing; on those the error is the first flaw; every error leaves the tables unchanged |
| `Storage.Store.FailLog` | log-services/repository/adapters/db/storage.go:257-293 | fails a processing log; reports the status of a terminal one, or that there is none |
| `Storage.Store.GetTopologyData` | log-services/repository/adapters/db/storage.go:464-565 | log, nodes and ports of the log, agreeing with the counts and fit for the topology service |
| `Storage.Service.FailLog` | log-services/app/core/service.go:121-145 | fails the log if it is processing, and swallows every error |
| `Storage.Service.ParseLog` | log-services/app/core/service.go:29-59 | left to itself it brings a new log to parsed if the parser's log fits, to failed otherwise, naming its first flaw, and touches no other log |
| `LifecycleSteps.StepInv` | log-services/repository/adapters/db/storage.go:48-293 | every step of every call keeps the invariant |
| `LifecycleSteps.RunInv` | log-services/repository/adapters/db/storage.go:48-293 | every state of every run satisfies it |
| `LifecycleRuns.StepRefines` | log-services/repository/adapters/db/storage.go:63-293 | each step is invisible or one atomic change of one log; a save is one change from open to closed with exactly its log |
| `LifecycleRuns.RunRefines` | log-services/repository/adapters/db/storage.go:63-293 | the same along every run |
| `LifecycleRuns.TerminalForever` | log-services/repository/adapters/db/storage.go:85-87 | the row and contents of a terminal log never change |
| `LifecycleRuns.ReachableDatabase` | log-services/repository/adapters/db/storage.go:48-255 | rows only under parsed logs, counts as many as rows, every port's node in the same log with the same GUID |
| `LifecycleRuns.LogRowsInOrder` | log-services/repository/adapters/db/storage.go:48-61 | every log row was made by a create call and keeps its path; counts and error text are as its status allows, and the counts of a parsed log are those of what it holds |
| `LifecycleRuns.DeleteRemovesNothing` | log-services/repository/adapters/db/storage.go:89-95 | the delete inside a save never removes a row |
| `LifecycleRuns.SavesInProgressDoNotMeet` | log-services/repository/adapters/db/storage.go:72-84 | two saves in progress are for different logs |
| `LifecycleRuns.ExactlyOneWinner` | log-services/repository/adapters/db/storage.go:63-293 | a log is terminal exactly when one save or fail took effect on it, never two, and is what that one made it |
| `LifecycleRuns.RepliesAreTrue` | log-services/repository/adapters/db/storage.go:63-293 | successes happened, reported terminal statuses hold, rejected logs do not fit and the error is their first flaw, topology answers agree with the counts and fit the topology service |
| `LifecycleRuns.RefusalsNameTheCause` | log-services/repository/adapters/db/storage.go:72-87 | a save is turned away exactly for a missing log or a terminal status, and a topology request exactly for a missing log, and each is told which |
| `LifecycleRuns.TopologyShowsTheWinner` | log-services/repository/adapters/db/storage.go:464-565 | a topology answer for a parsed log shows exactly the nodes, infos and ports of the one save that won the log, and its row as it still is |
| `LifecycleRuns.SavableSavesGoThrough` | log-services/repository/adapters/db/storage.go:97-250 | only an abort can stop the save of a log that fits |
| `LifecycleRuns.MissedFailReports` | log-services/repository/adapters/db/storage.go:275-289 | a fail that changed no row of an existing log reports a terminal status; "not found" exactly when there is still no log, "processing" exactly when the log came in between |
| `LifecycleRuns.GuessedFailCanReportProcessing` | log-services/repository/adapters/db/storage.go:275-289 | a concrete run with that report |
| `LifecycleRuns.NoDeadlock` | log-services/repository/adapters/db/storage.go:72-84 | a call that is not done can go on, or waits for a save that can |
| `Clients.MoveKeepsInv` | log-services/app/core/service.go:29-59 | every move of a client keeps its view of the log true |
| `Clients.SuccessIsForever` | log-services/app/core/service.go:40-58 | after a successful `ParseLog` the log holds, in every later state, exactly what the client's parser had given it, and its counts |
| `Clients.ClientLogHasItsPath` | log-services/app/core/service.go:29-38 | the log of a client has the trimmed path that `ParseLog` was called with |
| `Clients.ProcessingIsExplained` | log-services/app/core/service.go:35-50 | when all calls have returned, a log still processing means a lost create reply or a fail without effect |
| `Clients.ErrorMeansFailedIff` | log-services/app/core/service.go:121-145 | if the client's `FailLog` was answered, the log is failed exactly on success or "is failed", and parsed exactly on "is parsed" |
| `Clients.ErrorOutcome` | log-services/app/core/service.go:41-50 | after an error the log is terminal, or the client's fail is under way or had no effect |
| `Clients.ErrorOutcomeByCause` | log-services/app/core/service.go:41-50 | with nobody else at work: parsed exactly if the client's own save took effect, failed exactly if its own fail did, processing if neither did |
| `Clients.ParserErrorNeverLeavesParsed` | log-services/app/core/service.go:40-44 | after a parser error the log is failed, or still processing if the fail had no effect |
| `Clients.ErrorCanLeaveParsed` | log-services/app/core/service.go:46-50 | a concrete run in which an error leaves the log parsed |
| `Pipeline.FinalizedLogFitsIff` | log-services/parser/parser/section.go:303-323 | a finalized log fits the schema exactly when no two ports share node GUID and port number |
| `Pipeline.FinalizedLogCanBeUnfit` | log-services/parser/parser/section.go:303-323 | two rows that differ in nothing but the port GUID make such an unfit log |
| `Pipeline.FinalFlawIsAPort` | log-services/repository/adapters/db/storage.go:176-219 | the one error the schema can have against a finalized log is a constraint violation, exactly when port numbers are not unique |
| `Pipeline.FinalSaveStopsAtAPort` | log-services/repository/adapters/db/storage.go:97-219 | the save of a finalized log stops, if at all, at a port, with all nodes and infos inserted |
| `Pipeline.PortNumbersAreUniqueIff` | log-services/parser/parser/section.go:303-323 | with prefix-free GUIDs port numbers come out unique exactly if rows with one node GUID and port number have one port GUID |
| `Pipeline.FinalizeAndSave` | log-services/repository/adapters/db/storage.go:97-219 | finalizing and saving commits exactly then, onto a processing log; with prefix-free GUIDs, exactly if rows with one node GUID and port number have one port GUID; otherwise nothing changes, and on a processing log the error is a constraint violation |
| `Pipeline.ShowTopology` | log-services/topology/core/service.go:26-134 | the repository's snapshot handed to the topology service: each error exactly when it is due, otherwise the topology of that snapshot, which adds up |
| `Pipeline.SavedLogsAddUp` | log-services/topology/core/service.go:43-74 | the topology of a parsed log accounts for each saved node and port once, and no port ends two edges |
| `Pipeline.TopologyShowsSavedNodes` | log-services/topology/core/service.go:71-90 | the view of a saved node shows, field by field, the node and info that were saved, and the number of ports saved under its GUID |
| `Pipeline.ReadLogsAddUp` | log-services/topology/core/service.go:43-74 | the same for whatever a topology request reads in any run |

## Left out

- Case mapping covers ASCII only; trimming uses Go's full set of white space. For non-ASCII letters upper and lower
  casing need not be inverse to each other, so the printing round trip does not extend to such section names.
- Sorting in place and aliasing of the sorted slices: sorts are modelled as methods that return a sorted permutation.
- The closures `flush` and `ensureNode`, and the two loops over infos and ports: modelled as methods on values, the
  two loops as one method over both kinds of row.
- PostgreSQL's reasons to refuse a value other than the constraints (encoding, NUL bytes, column ranges) and every
  infrastructure failure: an abort at any point of a call.
- Clocks: `uploaded_at`, `parsed_at` and time-outs. A time-out is a reply that is never received.
- Ids are unbounded; `BIGSERIAL` running out is not modelled.
- Group titles whose kind starts with a non-ASCII letter, and the columns of a row that queries only copy.
- The fallback from a `db_csv` file without any section record to plain CSV, CSV tokenising and delimiter choice.
- Key-value sections, field-name lookup, record classification, JSON rendering of raw records and number parsing.
- Archives, files, path resolution and their limits.
- gRPC, protobuf, REST handlers, middleware, logging, configuration and mains.
- Getters for single logs, nodes and ports, and pagination.
