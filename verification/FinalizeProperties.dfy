/** What finalization guarantees about its result. */
module FinalizeProperties {
  import opened Domain
  import opened Seqs
  import opened KeyedFold
  import opened Merging
  import opened PortKey
  import opened Finalize
  import Text

  // ---- Keys stay in place ----

  lemma NodesKeepKeys(items: seq<ParsedNode>, out: seq<ParsedNode>)
    requires IsCollapse(items, NodeKey, MergeNode, out)
    ensures KeepsKeys(items, NodeKey, out)
  {
    forall i | 0 <= i < |out| ensures NodeKey(out[i]) == FirstKeys(items, NodeKey)[i] {
      var k := FirstKeys(items, NodeKey)[i];
      CollapsedInvariant(items, NodeKey, MergeNode, out, i, (n: ParsedNode) => NodeKey(n) == k);
    }
  }

  lemma InfosKeepKeys(items: seq<ParsedInfo>, out: seq<ParsedInfo>)
    requires IsCollapse(items, InfoKey, MergeInfo, out)
    ensures KeepsKeys(items, InfoKey, out)
  {
    forall i | 0 <= i < |out| ensures InfoKey(out[i]) == FirstKeys(items, InfoKey)[i] {
      var k := FirstKeys(items, InfoKey)[i];
      CollapsedInvariant(items, InfoKey, MergeInfo, out, i, (n: ParsedInfo) => InfoKey(n) == k);
    }
  }

  function GUIDsIn(ports: seq<ParsedPort>): set<string> {
    set i | 0 <= i < |ports| :: ports[i].nodeGUID
  }

  /** With prefix-free node GUIDs merging never changes which port a stored port is. */
  lemma PortsKeepKeys(items: seq<ParsedPort>, out: seq<ParsedPort>)
    requires IsCollapse(items, PortKeyOf, MergePort, out)
    requires PrefixFree(GUIDsIn(items))
    ensures KeepsKeys(items, PortKeyOf, out)
  {
    forall i | 0 <= i < |out| ensures PortKeyOf(out[i]) == FirstKeys(items, PortKeyOf)[i] {
      var row := StoredPortIsAnInput(items, out, i);
    }
  }

  /** With prefix-free node GUIDs each stored port is, by GUIDs and number, one of the rows filed under its key. */
  lemma StoredPortIsAnInput(items: seq<ParsedPort>, out: seq<ParsedPort>, i: nat) returns (row: ParsedPort)
    requires IsCollapse(items, PortKeyOf, MergePort, out) && i < |out|
    requires PrefixFree(GUIDsIn(items))
    ensures row in items && SamePort(out[i], row) && PortKeyOf(row) == FirstKeys(items, PortKeyOf)[i]
  {
    var k := FirstKeys(items, PortKeyOf)[i];
    assert IsMergedAt(items, PortKeyOf, MergePort, k, out[i]);
    row := Occurrences(items, PortKeyOf, k)[0];
    assert row in Occurrences(items, PortKeyOf, k);
    forall p | p in items && PortKeyOf(p) == k ensures SamePort(p, row) {
      assert p.nodeGUID in GUIDsIn(items) && row.nodeGUID in GUIDsIn(items);
      KeyIsInjective(p, row);
    }
    var first := row;
    CollapsedInvariant(items, PortKeyOf, MergePort, out, i, (p: ParsedPort) => SamePort(p, first));
  }

  // ---- Order and contents of the nodes ----

  lemma {:induction false} PlaceholderOccurrences(guids: seq<string>, g: string)
    ensures Keys(Placeholders(guids), NodeKey) == guids
    ensures forall n | n in Occurrences(Placeholders(guids), NodeKey, g) :: n == UnknownNode(g)
    ensures Occurrences(Placeholders(guids), NodeKey, g) != [] <==> g in guids
  {
    KeyOccurs(Placeholders(guids), NodeKey, g);
    forall n | n in Occurrences(Placeholders(guids), NodeKey, g) ensures n == UnknownNode(g) {
      assert n in Placeholders(guids);
    }
  }

  lemma {:induction false} FoldThenPlaceholders(ns: seq<ParsedNode>, vs: seq<ParsedNode>, g: string)
    requires ns != [] && forall i | 0 <= i < |vs| :: vs[i] == UnknownNode(g)
    ensures FoldMerge(ns + vs, MergeNode) == FoldMerge(ns, MergeNode)
  {
    if vs == [] {
      assert ns + vs == ns;
    } else {
      var init := vs[..|vs| - 1];
      FoldThenPlaceholders(ns, init, g);
      assert (ns + vs)[..|ns + vs| - 1] == ns + init;
      PlaceholderIsAnIdentity(FoldMerge(ns + init, MergeNode), g);
    }
  }

  /** The node a log stands for under a GUID: the fold of its rows, the placeholder if only mentioned, or none. */
  function ExpectedNode(parsed: ParsedLog, g: string): Option<ParsedNode> {
    var rows := Occurrences(CleanNodes(parsed.nodes), NodeKey, g);
    if rows != [] then Some(FoldMerge(rows, MergeNode))
    else if g in Mentioned(parsed) then Some(UnknownNode(g))
    else None
  }

  /** Placeholders behind the rows of a node add nothing; alone they make the unknown node. */
  lemma RowsThenPlaceholders(rows: seq<ParsedNode>, placeholders: seq<ParsedNode>, g: string)
    requires forall n | n in placeholders :: n == UnknownNode(g)
    ensures rows != [] ==> FoldMerge(rows + placeholders, MergeNode) == FoldMerge(rows, MergeNode)
    ensures rows == [] != placeholders ==> FoldMerge(rows + placeholders, MergeNode) == UnknownNode(g)
  {
    assert forall i | 0 <= i < |placeholders| :: placeholders[i] in placeholders;
    if rows != [] {
      FoldThenPlaceholders(rows, placeholders, g);
    } else if placeholders != [] {
      assert rows + placeholders == [placeholders[0]] + placeholders[1..];
      FoldThenPlaceholders([placeholders[0]], placeholders[1..], g);
    }
  }

  lemma ItemsFoldToExpected(parsed: ParsedLog, g: string)
    ensures g in Keys(NodeItems(parsed), NodeKey) <==> ExpectedNode(parsed, g).Some?
    ensures var occ := Occurrences(NodeItems(parsed), NodeKey, g);
      ExpectedNode(parsed, g) == if occ == [] then None else Some(FoldMerge(occ, MergeNode))
  {
    var rows, ph := CleanNodes(parsed.nodes), Placeholders(Mentioned(parsed));
    var a, b := Occurrences(rows, NodeKey, g), Occurrences(ph, NodeKey, g);
    OccurrencesAppend(rows, ph, NodeKey, g);
    PlaceholderOccurrences(Mentioned(parsed), g);
    KeyOccurs(NodeItems(parsed), NodeKey, g);
    RowsThenPlaceholders(a, b, g);
  }

  /**
   Output nodes come in the order in which their trimmed, non-empty GUID first appears over nodes, then infos,
   then ports. Each is the left fold of the rows with its GUID, or the bare unknown node if it has none.
   */
  lemma NodesAreKeyedFolds(parsed: ParsedLog, out: ParsedLog)
    requires IsFinal(parsed, out)
    ensures Keys(out.nodes, NodeKey) == Dedup(Keys(CleanNodes(parsed.nodes), NodeKey) + Mentioned(parsed))
    ensures Distinct(Keys(out.nodes, NodeKey))
    ensures forall i | 0 <= i < |out.nodes| :: ExpectedNode(parsed, out.nodes[i].nodeGUID) == Some(out.nodes[i])
  {
    var items := NodeItems(parsed);
    NodesKeepKeys(items, out.nodes);
    PlaceholderOccurrences(Mentioned(parsed), "");
    assert Keys(items, NodeKey) == Keys(CleanNodes(parsed.nodes), NodeKey) + Mentioned(parsed);
    DedupElements(Keys(items, NodeKey));
    forall i | 0 <= i < |out.nodes| ensures ExpectedNode(parsed, out.nodes[i].nodeGUID) == Some(out.nodes[i]) {
      assert Keys(out.nodes, NodeKey)[i] == FirstKeys(items, NodeKey)[i];
      assert IsMergedAt(items, NodeKey, MergeNode, FirstKeys(items, NodeKey)[i], out.nodes[i]);
      ItemsFoldToExpected(parsed, out.nodes[i].nodeGUID);
    }
  }

  // ---- References and cleanliness ----

  lemma TidyIsStable(s: string)
    ensures Text.TrimSpace(Text.TrimSpace(s)) == Text.TrimSpace(s)
  {
    Text.TrimIsIdempotent(s, Text.IsSpace);
  }

  predicate IsCleanGUID(g: string) {
    g != "" && Text.TrimSpace(g) == g
  }

  lemma CleanedNodes(s: seq<ParsedNode>)
    ensures forall n | n in CleanNodes(s) :: IsCleanGUID(n.nodeGUID)
  {
    forall n | n in CleanNodes(s) ensures IsCleanGUID(n.nodeGUID) {
      CleanIsTidy(s, TidyNode, NodeKey, n);
      var u :| u in s && TidyNode(u) == n;
      TidyIsStable(u.nodeGUID);
    }
  }

  lemma CleanedInfos(s: seq<ParsedInfo>)
    ensures forall n | n in CleanInfos(s) :: IsCleanGUID(n.nodeGUID)
  {
    forall n | n in CleanInfos(s) ensures IsCleanGUID(n.nodeGUID) {
      CleanIsTidy(s, TidyInfo, InfoKey, n);
      var u :| u in s && TidyInfo(u) == n;
      TidyIsStable(u.nodeGUID);
    }
  }

  lemma CleanedPorts(s: seq<ParsedPort>)
    ensures forall n | n in CleanPorts(s) :: IsCleanGUID(n.nodeGUID)
  {
    forall n | n in CleanPorts(s) ensures IsCleanGUID(n.nodeGUID) {
      CleanIsTidy(s, TidyPort, PortGUIDOf, n);
      var u :| u in s && TidyPort(u) == n;
      TidyIsStable(u.nodeGUID);
    }
  }

  /** Node GUIDs of a finalized log are trimmed and not empty, everywhere. */
  ghost predicate HasCleanGUIDs(log: ParsedLog) {
    && (forall n | n in log.nodes :: IsCleanGUID(n.nodeGUID))
    && (forall i | i in log.infos :: IsCleanGUID(i.nodeGUID))
    && (forall p | p in log.ports :: IsCleanGUID(p.nodeGUID))
  }

  /** Every info and port of the log refers to a node of the log. */
  ghost predicate RefersToItsNodes(log: ParsedLog) {
    && (forall i | i in log.infos :: i.nodeGUID in Keys(log.nodes, NodeKey))
    && (forall p | p in log.ports :: p.nodeGUID in Keys(log.nodes, NodeKey))
  }

  lemma InfosAreMentioned(parsed: ParsedLog)
    ensures forall i | i in CleanInfos(parsed.infos) :: i.nodeGUID in Mentioned(parsed)
  {
    var items := CleanInfos(parsed.infos);
    forall i | i in items ensures i.nodeGUID in Mentioned(parsed) {
      var j :| 0 <= j < |items| && items[j] == i;
      assert Mentioned(parsed)[j] == i.nodeGUID;
    }
  }

  lemma PortsAreMentioned(parsed: ParsedLog)
    ensures forall p | p in CleanPorts(parsed.ports) :: p.nodeGUID in Mentioned(parsed)
  {
    var items := CleanPorts(parsed.ports);
    forall p | p in items ensures p.nodeGUID in Mentioned(parsed) {
      var j :| 0 <= j < |items| && items[j] == p;
      assert Mentioned(parsed)[|CleanInfos(parsed.infos)| + j] == p.nodeGUID;
    }
  }

  lemma InfoFromInput(parsed: ParsedLog, out: ParsedLog, at: nat)
    requires IsFinal(parsed, out) && at < |out.infos|
    ensures IsCleanGUID(out.infos[at].nodeGUID) && out.infos[at].nodeGUID in Mentioned(parsed)
  {
    CleanedInfos(parsed.infos);
    InfosAreMentioned(parsed);
    var mentioned := Mentioned(parsed);
    CollapsedInvariant(CleanInfos(parsed.infos), InfoKey, MergeInfo, out.infos, at,
      (i: ParsedInfo) => IsCleanGUID(i.nodeGUID) && i.nodeGUID in mentioned);
  }

  lemma PortFromInput(parsed: ParsedLog, out: ParsedLog, at: nat)
    requires IsFinal(parsed, out) && at < |out.ports|
    ensures IsCleanGUID(out.ports[at].nodeGUID) && out.ports[at].nodeGUID in Mentioned(parsed)
    ensures out.ports[at].nodeGUID in GUIDsIn(CleanPorts(parsed.ports))
  {
    CleanedPorts(parsed.ports);
    PortsAreMentioned(parsed);
    var mentioned, guids := Mentioned(parsed), GUIDsIn(CleanPorts(parsed.ports));
    CollapsedInvariant(CleanPorts(parsed.ports), PortKeyOf, MergePort, out.ports, at,
      (p: ParsedPort) => IsCleanGUID(p.nodeGUID) && p.nodeGUID in mentioned && p.nodeGUID in guids);
  }

  lemma NodeFromInput(parsed: ParsedLog, out: ParsedLog, at: nat)
    requires IsFinal(parsed, out) && at < |out.nodes|
    ensures IsCleanGUID(out.nodes[at].nodeGUID)
  {
    var items := NodeItems(parsed);
    CleanedNodes(parsed.nodes);
    CleanedInfos(parsed.infos);
    CleanedPorts(parsed.ports);
    forall g | g in Mentioned(parsed) ensures IsCleanGUID(g) {
      var i, p := CleanInfos(parsed.infos), CleanPorts(parsed.ports);
      var j :| 0 <= j < |Mentioned(parsed)| && Mentioned(parsed)[j] == g;
      if j < |i| {
        assert i[j] in i;
      } else {
        assert p[j - |i|] in p;
      }
    }
    forall n | n in items ensures IsCleanGUID(n.nodeGUID) {
      if n !in CleanNodes(parsed.nodes) {
        assert n in Placeholders(Mentioned(parsed));
        var j :| 0 <= j < |Mentioned(parsed)| && Placeholders(Mentioned(parsed))[j] == n;
      }
    }
    CollapsedInvariant(items, NodeKey, MergeNode, out.nodes, at, (n: ParsedNode) => IsCleanGUID(n.nodeGUID));
  }

  lemma FinalGUIDsAreClean(parsed: ParsedLog, out: ParsedLog)
    requires IsFinal(parsed, out)
    ensures HasCleanGUIDs(out)
  {
    forall n | n in out.nodes ensures IsCleanGUID(n.nodeGUID) {
      var at :| 0 <= at < |out.nodes| && out.nodes[at] == n;
      NodeFromInput(parsed, out, at);
    }
    forall i | i in out.infos ensures IsCleanGUID(i.nodeGUID) {
      var at :| 0 <= at < |out.infos| && out.infos[at] == i;
      InfoFromInput(parsed, out, at);
    }
    forall p | p in out.ports ensures IsCleanGUID(p.nodeGUID) {
      var at :| 0 <= at < |out.ports| && out.ports[at] == p;
      PortFromInput(parsed, out, at);
    }
  }

  lemma MentionedAreNodes(parsed: ParsedLog, out: ParsedLog)
    requires IsFinal(parsed, out)
    ensures forall g | g in Mentioned(parsed) :: g in Keys(out.nodes, NodeKey)
  {
    NodesAreKeyedFolds(parsed, out);
    DedupElements(Keys(CleanNodes(parsed.nodes), NodeKey) + Mentioned(parsed));
  }

  lemma FinalReferences(parsed: ParsedLog, out: ParsedLog)
    requires IsFinal(parsed, out)
    ensures RefersToItsNodes(out)
  {
    MentionedAreNodes(parsed, out);
    forall i | i in out.infos ensures i.nodeGUID in Keys(out.nodes, NodeKey) {
      var at :| 0 <= at < |out.infos| && out.infos[at] == i;
      InfoFromInput(parsed, out, at);
    }
    forall p | p in out.ports ensures p.nodeGUID in Keys(out.nodes, NodeKey) {
      var at :| 0 <= at < |out.ports| && out.ports[at] == p;
      PortFromInput(parsed, out, at);
    }
  }

  /** Every info and port of a finalized log refers to one of its nodes; nodes and infos have distinct GUIDs. */
  lemma FinalLogIsConsistent(parsed: ParsedLog, out: ParsedLog)
    requires IsFinal(parsed, out)
    ensures HasCleanGUIDs(out) && RefersToItsNodes(out)
    ensures Distinct(Keys(out.nodes, NodeKey)) && Distinct(Keys(out.infos, InfoKey))
  {
    FinalGUIDsAreClean(parsed, out);
    FinalReferences(parsed, out);
    NodesAreKeyedFolds(parsed, out);
    InfosKeepKeys(CleanInfos(parsed.infos), out.infos);
    DedupElements(Keys(CleanInfos(parsed.infos), InfoKey));
  }

  /** With prefix-free port GUIDs the output ports are different ports, under the keys of the input. */
  lemma FinalPortsAreDistinct(parsed: ParsedLog, out: ParsedLog)
    requires IsFinal(parsed, out) && PrefixFree(GUIDsIn(CleanPorts(parsed.ports)))
    ensures Distinct(Keys(out.ports, PortKeyOf))
    ensures forall i, j | 0 <= i < j < |out.ports| :: !SamePort(out.ports[i], out.ports[j])
  {
    PortsKeepKeys(CleanPorts(parsed.ports), out.ports);
    DedupElements(Keys(CleanPorts(parsed.ports), PortKeyOf));
    forall i, j | 0 <= i < j < |out.ports| ensures !SamePort(out.ports[i], out.ports[j]) {
      assert Keys(out.ports, PortKeyOf)[i] != Keys(out.ports, PortKeyOf)[j];
    }
  }
}
