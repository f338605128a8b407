/** Finalizing in parts, and finalizing twice. */
module Incremental {
  import opened Domain
  import opened KeyedFold
  import opened Merging
  import opened PortKey
  import opened Finalize
  import opened FinalizeProperties
  import Text

  /** Concatenation of two logs, as files and sections are concatenated before finalization. */
  function Concat(a: ParsedLog, b: ParsedLog): ParsedLog {
    ParsedLog(a.nodes + b.nodes, a.ports + b.ports, a.infos + b.infos)
  }

  lemma CleanConcat(a: ParsedLog, b: ParsedLog)
    ensures CleanNodes(Concat(a, b).nodes) == CleanNodes(a.nodes) + CleanNodes(b.nodes)
    ensures CleanInfos(Concat(a, b).infos) == CleanInfos(a.infos) + CleanInfos(b.infos)
    ensures CleanPorts(Concat(a, b).ports) == CleanPorts(a.ports) + CleanPorts(b.ports)
  {
    CleanAppend(a.nodes, b.nodes, TidyNode, NodeKey);
    CleanAppend(a.infos, b.infos, TidyInfo, InfoKey);
    CleanAppend(a.ports, b.ports, TidyPort, PortGUIDOf);
  }

  lemma CleanLogStaysClean(log: ParsedLog)
    requires HasCleanGUIDs(log)
    ensures CleanNodes(log.nodes) == log.nodes
    ensures CleanInfos(log.infos) == log.infos && CleanPorts(log.ports) == log.ports
  {
    CleanChangesNothing(log.nodes, TidyNode, NodeKey);
    CleanChangesNothing(log.infos, TidyInfo, InfoKey);
    CleanChangesNothing(log.ports, TidyPort, PortGUIDOf);
  }

  // ---- Infos and ports ----

  /** Infos come out the same, in the same order, whether two logs are finalized together or in two steps. */
  lemma InfosInParts(a: ParsedLog, b: ParsedLog, fa: ParsedLog, fb: ParsedLog, again: ParsedLog, once: ParsedLog)
    requires IsFinal(a, fa) && IsFinal(b, fb) && IsFinal(Concat(fa, fb), again) && IsFinal(Concat(a, b), once)
    ensures again.infos == once.infos
  {
    FinalGUIDsAreClean(a, fa);
    FinalGUIDsAreClean(b, fb);
    CleanConcat(a, b);
    CleanConcat(fa, fb);
    CleanLogStaysClean(fa);
    CleanLogStaysClean(fb);
    MergesAreAssociative();
    InfosKeepKeys(CleanInfos(a.infos), fa.infos);
    InfosKeepKeys(CleanInfos(b.infos), fb.infos);
    CollapseInParts(CleanInfos(a.infos), CleanInfos(b.infos), InfoKey, MergeInfo,
                    fa.infos, fb.infos, again.infos, once.infos);
  }

  /** Ports come out the same too, when in each log the port GUIDs are prefix-free. */
  lemma PortsInParts(a: ParsedLog, b: ParsedLog, fa: ParsedLog, fb: ParsedLog, again: ParsedLog, once: ParsedLog)
    requires IsFinal(a, fa) && IsFinal(b, fb) && IsFinal(Concat(fa, fb), again) && IsFinal(Concat(a, b), once)
    requires PrefixFree(GUIDsIn(CleanPorts(a.ports))) && PrefixFree(GUIDsIn(CleanPorts(b.ports)))
    ensures again.ports == once.ports
  {
    FinalGUIDsAreClean(a, fa);
    FinalGUIDsAreClean(b, fb);
    CleanConcat(a, b);
    CleanConcat(fa, fb);
    CleanLogStaysClean(fa);
    CleanLogStaysClean(fb);
    MergesAreAssociative();
    PortsKeepKeys(CleanPorts(a.ports), fa.ports);
    PortsKeepKeys(CleanPorts(b.ports), fb.ports);
    CollapseInParts(CleanPorts(a.ports), CleanPorts(b.ports), PortKeyOf, MergePort,
                    fa.ports, fb.ports, again.ports, once.ports);
  }

  // ---- Nodes ----

  /** The merge of what two logs expect under a GUID. */
  function Combine(x: Option<ParsedNode>, y: Option<ParsedNode>): Option<ParsedNode> {
    match (x, y)
    case (Some(m), Some(n)) => Some(MergeNode(m, n))
    case (Some(m), None) => x
    case (None, _) => y
  }

  function AsRows(x: Option<ParsedNode>): seq<ParsedNode> {
    match x case None => [] case Some(n) => [n]
  }

  lemma FinalOccurrences(parsed: ParsedLog, out: ParsedLog, g: string)
    requires IsFinal(parsed, out)
    ensures Occurrences(out.nodes, NodeKey, g) == AsRows(ExpectedNode(parsed, g))
  {
    NodesKeepKeys(NodeItems(parsed), out.nodes);
    CollapsedOccurrence(NodeItems(parsed), NodeKey, MergeNode, out.nodes, g);
    ItemsFoldToExpected(parsed, g);
  }

  lemma MentionedAfterFinal(parsed: ParsedLog, out: ParsedLog, g: string)
    requires IsFinal(parsed, out)
    requires g in Mentioned(out)
    ensures Occurrences(out.nodes, NodeKey, g) != []
  {
    FinalGUIDsAreClean(parsed, out);
    CleanLogStaysClean(out);
    FinalReferences(parsed, out);
    KeyOccurs(out.nodes, NodeKey, g);
    MentionedByRow(out.infos, out.ports, g);
  }

  lemma MentionedByRow(infos: seq<ParsedInfo>, ports: seq<ParsedPort>, g: string)
    requires g in Keys(infos, InfoKey) + Keys(ports, PortGUIDOf)
    ensures (exists i | i in infos :: i.nodeGUID == g) || (exists p | p in ports :: p.nodeGUID == g)
  {
    if g in Keys(infos, InfoKey) {
      var i :| 0 <= i < |infos| && Keys(infos, InfoKey)[i] == g;
      assert infos[i] in infos;
    } else {
      var i :| 0 <= i < |ports| && Keys(ports, PortGUIDOf)[i] == g;
      assert ports[i] in ports;
    }
  }

  lemma KeysAppend<V>(a: seq<V>, b: seq<V>, key: V -> string)
    ensures Keys(a + b, key) == Keys(a, key) + Keys(b, key)
  {
  }

  lemma MentionedSplits(a: ParsedLog, b: ParsedLog, g: string)
    ensures g in Mentioned(Concat(a, b)) <==> g in Mentioned(a) || g in Mentioned(b)
  {
    CleanConcat(a, b);
    KeysAppend(CleanInfos(a.infos), CleanInfos(b.infos), InfoKey);
    KeysAppend(CleanPorts(a.ports), CleanPorts(b.ports), PortGUIDOf);
  }

  lemma RowsTogether(a: ParsedLog, b: ParsedLog, fa: ParsedLog, fb: ParsedLog, g: string)
    requires IsFinal(a, fa) && IsFinal(b, fb)
    ensures Occurrences(CleanNodes(Concat(fa, fb).nodes), NodeKey, g) ==
      Occurrences(fa.nodes, NodeKey, g) + Occurrences(fb.nodes, NodeKey, g)
    ensures g in Mentioned(Concat(fa, fb)) ==>
      Occurrences(fa.nodes, NodeKey, g) + Occurrences(fb.nodes, NodeKey, g) != []
  {
    FinalGUIDsAreClean(a, fa);
    FinalGUIDsAreClean(b, fb);
    CleanConcat(fa, fb);
    CleanLogStaysClean(fa);
    CleanLogStaysClean(fb);
    OccurrencesAppend(fa.nodes, fb.nodes, NodeKey, g);
    MentionedSplits(fa, fb, g);
    if g in Mentioned(fa) {
      MentionedAfterFinal(a, fa, g);
    } else if g in Mentioned(fb) {
      MentionedAfterFinal(b, fb, g);
    }
  }

  lemma CombineRows(x: Option<ParsedNode>, y: Option<ParsedNode>)
    ensures Combine(x, y) ==
      if AsRows(x) + AsRows(y) == [] then None else Some(FoldMerge(AsRows(x) + AsRows(y), MergeNode))
  {
    if x.Some? && y.Some? {
      assert AsRows(x) + AsRows(y) == [x.value, y.value];
      assert [x.value, y.value][..1] == [x.value];
    }
  }

  /** Finalizing two finalized logs together combines, GUID by GUID, what each of them had. */
  lemma ExpectedInParts(a: ParsedLog, b: ParsedLog, fa: ParsedLog, fb: ParsedLog, g: string)
    requires IsFinal(a, fa) && IsFinal(b, fb)
    ensures ExpectedNode(Concat(fa, fb), g) == Combine(ExpectedNode(a, g), ExpectedNode(b, g))
  {
    RowsTogether(a, b, fa, fb, g);
    FinalOccurrences(a, fa, g);
    FinalOccurrences(b, fb, g);
    CombineRows(ExpectedNode(a, g), ExpectedNode(b, g));
  }

  /** The one trouble: log `a` only mentions `g`, and the rows of log `b` leave its kind empty. */
  predicate KindGetsLost(a: ParsedLog, b: ParsedLog, g: string) {
    && Occurrences(CleanNodes(a.nodes), NodeKey, g) == []
    && g in Mentioned(a)
    && Occurrences(CleanNodes(b.nodes), NodeKey, g) != []
    && FoldMerge(Occurrences(CleanNodes(b.nodes), NodeKey, g), MergeNode).nodeKind == ""
  }

  lemma ExpectedTogether(a: ParsedLog, b: ParsedLog, g: string)
    ensures var ra, rb := Occurrences(CleanNodes(a.nodes), NodeKey, g), Occurrences(CleanNodes(b.nodes), NodeKey, g);
      ExpectedNode(Concat(a, b), g) ==
        if ra != [] && rb != [] then Some(MergeNode(FoldMerge(ra, MergeNode), FoldMerge(rb, MergeNode)))
        else if ra != [] then Some(FoldMerge(ra, MergeNode))
        else if rb != [] then Some(FoldMerge(rb, MergeNode))
        else if g in Mentioned(a) || g in Mentioned(b) then Some(UnknownNode(g))
        else None
  {
    CleanConcat(a, b);
    OccurrencesAppend(CleanNodes(a.nodes), CleanNodes(b.nodes), NodeKey, g);
    MentionedSplits(a, b, g);
    MergesAreAssociative();
    var ra, rb := Occurrences(CleanNodes(a.nodes), NodeKey, g), Occurrences(CleanNodes(b.nodes), NodeKey, g);
    if ra != [] && rb != [] {
      FoldAppend(ra, rb, MergeNode);
    } else if ra != [] {
      assert ra + rb == ra;
    } else {
      assert ra + rb == rb;
    }
  }

  lemma FoldKeepsGUID(rows: seq<ParsedNode>, g: string)
    requires rows != [] && forall n | n in rows :: n.nodeGUID == g
    ensures FoldMerge(rows, MergeNode).nodeGUID == g
  {
    FoldInvariant(rows, MergeNode, (n: ParsedNode) => n.nodeGUID == g);
  }

  /** Under one GUID, the two ways of finalizing agree exactly when no kind gets lost there. */
  lemma SameNodeIff(a: ParsedLog, b: ParsedLog, g: string)
    ensures Combine(ExpectedNode(a, g), ExpectedNode(b, g)) == ExpectedNode(Concat(a, b), g) <==> !KindGetsLost(a, b, g)
  {
    ExpectedTogether(a, b, g);
    var ra, rb := Occurrences(CleanNodes(a.nodes), NodeKey, g), Occurrences(CleanNodes(b.nodes), NodeKey, g);
    if ra != [] && rb == [] {
      PlaceholderIsAnIdentity(FoldMerge(ra, MergeNode), g);
    } else if ra == [] && rb != [] {
      FoldKeepsGUID(rb, g);
      PlaceholderIsAnIdentity(FoldMerge(rb, MergeNode), g);
    } else if ra == [] && rb == [] {
      PlaceholderIsAnIdentity(UnknownNode(g), g);
    }
  }

  /** The node a finalized log has under a GUID. */
  function NodeUnder(nodes: seq<ParsedNode>, g: string): Option<ParsedNode> {
    var occ := Occurrences(nodes, NodeKey, g);
    if occ == [] then None else Some(occ[0])
  }

  /** Two logs have the same GUID-to-node map. */
  ghost predicate SameNodes(x: ParsedLog, y: ParsedLog) {
    forall g :: NodeUnder(x.nodes, g) == NodeUnder(y.nodes, g)
  }

  /**
   Incremental equals batch, for nodes: finalizing two logs in parts gives the GUID-to-node map of finalizing
   them together if and only if there is no GUID that the first only mentions while the rows of the second
   leave its kind empty.
   */
  lemma NodesInPartsIff(a: ParsedLog, b: ParsedLog, fa: ParsedLog, fb: ParsedLog, again: ParsedLog, once: ParsedLog)
    requires IsFinal(a, fa) && IsFinal(b, fb) && IsFinal(Concat(fa, fb), again) && IsFinal(Concat(a, b), once)
    ensures SameNodes(again, once) <==> forall g :: !KindGetsLost(a, b, g)
  {
    forall g ensures NodeUnder(again.nodes, g) == NodeUnder(once.nodes, g) <==> !KindGetsLost(a, b, g) {
      NodeInPartsIff(a, b, fa, fb, again, once, g);
    }
  }

  lemma NodeInPartsIff(a: ParsedLog, b: ParsedLog, fa: ParsedLog, fb: ParsedLog, again: ParsedLog, once: ParsedLog,
                       g: string)
    requires IsFinal(a, fa) && IsFinal(b, fb) && IsFinal(Concat(fa, fb), again) && IsFinal(Concat(a, b), once)
    ensures NodeUnder(again.nodes, g) == NodeUnder(once.nodes, g) <==> !KindGetsLost(a, b, g)
  {
    FinalOccurrences(Concat(fa, fb), again, g);
    FinalOccurrences(Concat(a, b), once, g);
    ExpectedInParts(a, b, fa, fb, g);
    SameNodeIff(a, b, g);
  }

  /** Every node's kind came out of `deriveNodeKind`. */
  ghost predicate KindsAreDerived(nodes: seq<ParsedNode>) {
    forall n | n in nodes :: exists kind, desc, nodeType :: n.nodeKind == DeriveNodeKind(kind, desc, nodeType)
  }

  /** Kinds from the parser are never empty, and then no kind gets lost. */
  lemma DerivedKindsAreKept(a: ParsedLog, b: ParsedLog)
    requires KindsAreDerived(b.nodes)
    ensures forall g :: !KindGetsLost(a, b, g)
  {
    forall n | n in b.nodes ensures n.nodeKind != "" {
      var kind, desc, nodeType :| n.nodeKind == DeriveNodeKind(kind, desc, nodeType);
      DerivedKind(kind, desc, nodeType);
    }
    NonEmptyKindsAreKept(a, b);
  }

  lemma NonEmptyKindsAreKept(a: ParsedLog, b: ParsedLog)
    requires forall n | n in b.nodes :: n.nodeKind != ""
    ensures forall g :: !KindGetsLost(a, b, g)
  {
    forall g ensures !KindGetsLost(a, b, g) {
      var rows := Occurrences(CleanNodes(b.nodes), NodeKey, g);
      forall n | n in rows ensures n.nodeKind != "" {
        CleanIsTidy(b.nodes, TidyNode, NodeKey, n);
      }
      if rows != [] {
        FoldInvariant(rows, MergeNode, (n: ParsedNode) => n.nodeKind != "");
      }
    }
  }

  // ---- Finalizing twice ----

  lemma OneMorePlaceholder(items: seq<ParsedNode>, nodes: seq<ParsedNode>, guid: string)
    requires IsCollapse(items, NodeKey, MergeNode, nodes)
    requires guid in FirstKeys(items, NodeKey)
    ensures IsCollapse(items + [UnknownNode(guid)], NodeKey, MergeNode, nodes)
    ensures FirstKeys(items + [UnknownNode(guid)], NodeKey) == FirstKeys(items, NodeKey)
  {
    var at: nat :| at < |FirstKeys(items, NodeKey)| && FirstKeys(items, NodeKey)[at] == guid;
    KnownNodeNeedsNoPlaceholder(items, nodes, guid, at);
  }

  lemma {:induction false} KnownNodesNeedNoPlaceholders(items: seq<ParsedNode>, nodes: seq<ParsedNode>,
                                                        guids: seq<string>)
    requires IsCollapse(items, NodeKey, MergeNode, nodes)
    requires forall g | g in guids :: g in FirstKeys(items, NodeKey)
    ensures IsCollapse(items + Placeholders(guids), NodeKey, MergeNode, nodes)
    ensures FirstKeys(items + Placeholders(guids), NodeKey) == FirstKeys(items, NodeKey)
  {
    if guids == [] {
      assert items + Placeholders(guids) == items;
    } else {
      var init, last := guids[..|guids| - 1], guids[|guids| - 1];
      assert guids == init + [last] && last in guids;
      KnownNodesNeedNoPlaceholders(items, nodes, init);
      assert items + Placeholders(guids) == items + Placeholders(init) + [UnknownNode(last)] by {
        PlaceholdersStep(items, init, last);
      }
      OneMorePlaceholder(items + Placeholders(init), nodes, last);
    }
  }

  lemma NodesAreStable(x: ParsedLog, f: ParsedLog, ff: ParsedLog)
    requires IsFinal(x, f) && IsFinal(f, ff)
    ensures ff.nodes == f.nodes
  {
    FinalLogIsConsistent(x, f);
    CleanLogStaysClean(f);
    DistinctIsCollapsed(f.nodes, NodeKey, MergeNode);
    DedupOfDistinct(Keys(f.nodes, NodeKey));
    forall g | g in Mentioned(f) ensures g in FirstKeys(f.nodes, NodeKey) {
      MentionedByRow(f.infos, f.ports, g);
    }
    KnownNodesNeedNoPlaceholders(f.nodes, f.nodes, Mentioned(f));
    CollapseUnique(NodeItems(f), NodeKey, MergeNode, ff.nodes, f.nodes);
  }

  lemma InfosAreStable(x: ParsedLog, f: ParsedLog, ff: ParsedLog)
    requires IsFinal(x, f) && IsFinal(f, ff)
    ensures ff.infos == f.infos
  {
    FinalLogIsConsistent(x, f);
    CleanLogStaysClean(f);
    DistinctIsCollapsed(f.infos, InfoKey, MergeInfo);
    CollapseUnique(f.infos, InfoKey, MergeInfo, ff.infos, f.infos);
  }

  lemma PortsAreStable(x: ParsedLog, f: ParsedLog, ff: ParsedLog)
    requires IsFinal(x, f) && IsFinal(f, ff)
    requires PrefixFree(GUIDsIn(CleanPorts(x.ports)))
    ensures ff.ports == f.ports
  {
    FinalLogIsConsistent(x, f);
    CleanLogStaysClean(f);
    FinalPortsAreDistinct(x, f);
    DistinctIsCollapsed(f.ports, PortKeyOf, MergePort);
    CollapseUnique(f.ports, PortKeyOf, MergePort, ff.ports, f.ports);
  }

  /** Finalizing a second time changes nothing, for logs whose port rows have their node GUIDs in `guids`. */
  ghost predicate IdempotentOver(guids: set<string>) {
    forall x, f, ff | IsFinal(x, f) && IsFinal(f, ff) && GUIDsIn(CleanPorts(x.ports)) <= guids :: ff == f
  }

  /** Three ports, the first two filed under one key, whose merge collides with the third. */
  function CollidingLog(a: string, rest: string): ParsedLog {
    ParsedLog([], [
      BLANK.(nodeGUID := a, portGUID := rest + [BAR] + "c", portNum := 1),
      BLANK.(nodeGUID := a + [BAR] + rest, portGUID := "c", portNum := 1),
      BLANK.(nodeGUID := a, portGUID := "c", portNum := 1)], [])
  }

  lemma CollidingKeys(a: string, rest: string)
    ensures var ps := CollidingLog(a, rest).ports;
      && PortKeyOf(ps[0]) == PortKeyOf(ps[1]) != PortKeyOf(ps[2])
      && PortKeyOf(MergePort(ps[0], ps[1])) == PortKeyOf(ps[2])
  {
    var ps := CollidingLog(a, rest).ports;
    var tail := [BAR] + Text.Itoa(1);
    assert PortKeyOf(ps[0]) == a + [BAR] + rest + [BAR] + "c" + tail == PortKeyOf(ps[1]);
    assert |PortKeyOf(ps[2])| == |a| + 2 + |tail| < |PortKeyOf(ps[0])|;
  }

  /** Two values with one key collapse to their merge. */
  lemma PairCollapses(p: ParsedPort, q: ParsedPort)
    requires PortKeyOf(p) == PortKeyOf(q)
    ensures IsCollapse([p, q], PortKeyOf, MergePort, [MergePort(p, q)])
    ensures FirstKeys([p, q], PortKeyOf) == [PortKeyOf(p)]
  {
    DistinctIsCollapsed([p], PortKeyOf, MergePort);
    DedupOfDistinct(Keys([p], PortKeyOf));
    MergeInPlace([p], PortKeyOf, MergePort, [p], q, 0);
    assert [p] + [q] == [p, q] && [p][0 := MergePort(p, q)] == [MergePort(p, q)];
  }

  lemma CollidingCollapse(p: ParsedPort, q: ParsedPort, r: ParsedPort, f: seq<ParsedPort>, ff: seq<ParsedPort>)
    requires PortKeyOf(p) == PortKeyOf(q) != PortKeyOf(r) && PortKeyOf(MergePort(p, q)) == PortKeyOf(r)
    requires IsCollapse([p, q, r], PortKeyOf, MergePort, f) && IsCollapse(f, PortKeyOf, MergePort, ff)
    ensures ff != f
  {
    hide IsCollapse, PortKeyOf, MergePort;
    var m := MergePort(p, q);
    assert f == [m, r] by {
      PairCollapses(p, q);
      AppendNew([p, q], PortKeyOf, MergePort, [m], r);
      assert [p, q] + [r] == [p, q, r] && [m] + [r] == [m, r];
      CollapseUnique([p, q, r], PortKeyOf, MergePort, f, [m, r]);
    }
    PairCollapses(m, r);
    CollapseUnique([m, r], PortKeyOf, MergePort, ff, [MergePort(m, r)]);
  }

  lemma CollidingGUIDs(a: string, rest: string, guids: set<string>)
    requires a in guids && a + [BAR] + rest in guids
    ensures GUIDsIn(CollidingLog(a, rest).ports) <= guids
  {
  }

  lemma CollidingLogIsClean(a: string, rest: string)
    requires IsCleanGUID(a) && IsCleanGUID(a + [BAR] + rest)
    ensures CleanPorts(CollidingLog(a, rest).ports) == CollidingLog(a, rest).ports
  {
    var ps := CollidingLog(a, rest).ports;
    forall v | v in ps ensures TidyPort(v) == v && PortGUIDOf(v) != "" {
      assert v.nodeGUID == a || v.nodeGUID == a + [BAR] + rest;
    }
    CleanChangesNothing(ps, TidyPort, PortGUIDOf);
  }

  lemma FinalExists(parsed: ParsedLog) returns (out: ParsedLog)
    ensures IsFinal(parsed, out)
  {
    var nodes := CollapseExists(NodeItems(parsed), NodeKey, MergeNode);
    var infos := CollapseExists(CleanInfos(parsed.infos), InfoKey, MergeInfo);
    var ports := CollapseExists(CleanPorts(parsed.ports), PortKeyOf, MergePort);
    out := ParsedLog(nodes, ports, infos);
  }

  lemma CollidingLogIsNotStable(a: string, rest: string, guids: set<string>)
    requires IsCleanGUID(a) && IsCleanGUID(a + [BAR] + rest)
    requires a in guids && a + [BAR] + rest in guids
    ensures !IdempotentOver(guids)
  {
    var x := CollidingLog(a, rest);
    var f := FinalExists(x);
    var ff := FinalExists(f);
    CollidingLogIsClean(a, rest);
    assert ff.ports != f.ports by {
      FinalGUIDsAreClean(x, f);
      CleanLogStaysClean(f);
      CollidingKeys(a, rest);
      CollidingCollapse(x.ports[0], x.ports[1], x.ports[2], f.ports, ff.ports);
    }
    CollidingGUIDs(a, rest, guids);
  }

  /** Nodes and infos are stable under finalizing again, always. */
  lemma NodesAndInfosAreIdempotent(x: ParsedLog, f: ParsedLog, ff: ParsedLog)
    requires IsFinal(x, f) && IsFinal(f, ff)
    ensures ff.nodes == f.nodes && ff.infos == f.infos
  {
    NodesAreStable(x, f, ff);
    InfosAreStable(x, f, ff);
  }

  /** Finalization is idempotent over a set of clean port GUIDs exactly when the set is prefix-free. */
  lemma FinalizationIsIdempotentIff(guids: set<string>)
    requires forall g | g in guids :: IsCleanGUID(g)
    ensures IdempotentOver(guids) <==> PrefixFree(guids)
  {
    hide IsFinal;
    if PrefixFree(guids) {
      forall x, f, ff | IsFinal(x, f) && IsFinal(f, ff) && GUIDsIn(CleanPorts(x.ports)) <= guids ensures ff == f {
        NodesAndInfosAreIdempotent(x, f, ff);
        PortsAreStable(x, f, ff);
      }
    } else {
      var a, b :| a in guids && b in guids && !Apart(a, b);
      var rest := b[|a| + 1..];
      assert b == a + [BAR] + rest;
      CollidingLogIsNotStable(a, rest, guids);
    }
  }

  // ---- Parts and whole ----

  /** `again` is the result of finalizing in two steps, `once` that of finalizing everything together. */
  ghost predicate TwoWays(a: ParsedLog, b: ParsedLog, again: ParsedLog, once: ParsedLog) {
    && IsFinal(Concat(a, b), once)
    && exists fa, fb :: IsFinal(a, fa) && IsFinal(b, fb) && IsFinal(Concat(fa, fb), again)
  }

  ghost predicate HasPortGUIDsIn(log: ParsedLog, guids: set<string>) {
    GUIDsIn(CleanPorts(log.ports)) <= guids
  }

  /** For logs whose port rows have their node GUIDs in `guids`, both ways give the same ports. */
  ghost predicate PortsAgreeOver(guids: set<string>) {
    forall a, b, again, once |
      TwoWays(a, b, again, once) && HasPortGUIDsIn(a, guids) && HasPortGUIDsIn(b, guids) :: again.ports == once.ports
  }

  lemma PrefixFreeSubset(part: set<string>, all: set<string>)
    requires part <= all && PrefixFree(all)
    ensures PrefixFree(part)
  {
  }

  lemma PrefixFreePortsAgree(guids: set<string>, a: ParsedLog, b: ParsedLog, again: ParsedLog, once: ParsedLog)
    requires PrefixFree(guids) && TwoWays(a, b, again, once) && HasPortGUIDsIn(a, guids) && HasPortGUIDsIn(b, guids)
    ensures again.ports == once.ports
  {
    var fa, fb :| IsFinal(a, fa) && IsFinal(b, fb) && IsFinal(Concat(fa, fb), again);
    PrefixFreeSubset(GUIDsIn(CleanPorts(a.ports)), guids);
    PrefixFreeSubset(GUIDsIn(CleanPorts(b.ports)), guids);
    PortsInParts(a, b, fa, fb, again, once);
  }

  /** Two ports filed under one key, and then the first of them again: the merge of the two is filed elsewhere. */
  lemma PartsCollapseApart(p: ParsedPort, q: ParsedPort, ca: seq<ParsedPort>, cb: seq<ParsedPort>,
                           again: seq<ParsedPort>, once: seq<ParsedPort>)
    requires PortKeyOf(p) == PortKeyOf(q) != PortKeyOf(MergePort(p, q))
    requires IsCollapse([p, q], PortKeyOf, MergePort, ca) && IsCollapse([p], PortKeyOf, MergePort, cb)
    requires IsCollapse(ca + cb, PortKeyOf, MergePort, again) && IsCollapse([p, q] + [p], PortKeyOf, MergePort, once)
    ensures |once| == 1 && |again| == 2
  {
    hide MergePort, PortKeyOf;
    var m := MergePort(p, q);
    PairCollapses(p, q);
    CollapseUnique([p, q], PortKeyOf, MergePort, ca, [m]);
    DistinctIsCollapsed([p], PortKeyOf, MergePort);
    CollapseUnique([p], PortKeyOf, MergePort, cb, [p]);
    assert ca + cb == [m, p];
    assert |once| == 1 by {
      MergeInPlace([p, q], PortKeyOf, MergePort, [m], p, 0);
    }
    assert |again| == 2 by {
      DedupOfDistinct(Keys([m, p], PortKeyOf));
    }
  }

  /** The first two of the colliding ports, and the first of them. */
  function CollidingPart(a: string, rest: string): ParsedLog {
    ParsedLog([], CollidingLog(a, rest).ports[..2], [])
  }

  function RepeatedPart(a: string, rest: string): ParsedLog {
    ParsedLog([], [CollidingLog(a, rest).ports[0]], [])
  }

  lemma PortsOfFinal(parsed: ParsedLog, f: ParsedLog)
    requires IsFinal(parsed, f) && CleanPorts(parsed.ports) == parsed.ports
    ensures IsCollapse(parsed.ports, PortKeyOf, MergePort, f.ports)
    ensures CleanPorts(f.ports) == f.ports
  {
    FinalGUIDsAreClean(parsed, f);
    CleanLogStaysClean(f);
  }

  lemma CollidingPartsAreClean(a: string, rest: string)
    requires IsCleanGUID(a) && IsCleanGUID(a + [BAR] + rest)
    ensures CleanPorts(CollidingPart(a, rest).ports) == CollidingPart(a, rest).ports
    ensures CleanPorts(RepeatedPart(a, rest).ports) == RepeatedPart(a, rest).ports
  {
    var ps := CollidingLog(a, rest).ports;
    forall v | v in ps ensures TidyPort(v) == v && PortGUIDOf(v) != "" {
      assert v.nodeGUID == a || v.nodeGUID == a + [BAR] + rest;
    }
    CleanChangesNothing(ps[..2], TidyPort, PortGUIDOf);
    CleanChangesNothing([ps[0]], TidyPort, PortGUIDOf);
  }

  lemma PortsOfTwoWays(a: ParsedLog, b: ParsedLog, again: ParsedLog, once: ParsedLog)
    returns (ca: seq<ParsedPort>, cb: seq<ParsedPort>)
    requires TwoWays(a, b, again, once) && CleanPorts(a.ports) == a.ports && CleanPorts(b.ports) == b.ports
    ensures IsCollapse(a.ports, PortKeyOf, MergePort, ca) && IsCollapse(b.ports, PortKeyOf, MergePort, cb)
    ensures IsCollapse(ca + cb, PortKeyOf, MergePort, again.ports)
    ensures IsCollapse(a.ports + b.ports, PortKeyOf, MergePort, once.ports)
  {
    var fa, fb :| IsFinal(a, fa) && IsFinal(b, fb) && IsFinal(Concat(fa, fb), again);
    PortsOfFinal(a, fa);
    PortsOfFinal(b, fb);
    CleanConcat(fa, fb);
    CleanConcat(a, b);
    ca, cb := fa.ports, fb.ports;
  }

  lemma CollidingPartsDisagree(a: string, rest: string, again: ParsedLog, once: ParsedLog)
    requires IsCleanGUID(a) && IsCleanGUID(a + [BAR] + rest)
    requires TwoWays(CollidingPart(a, rest), RepeatedPart(a, rest), again, once)
    ensures again.ports != once.ports
  {
    var x, y := CollidingPart(a, rest), RepeatedPart(a, rest);
    var p, q := x.ports[0], x.ports[1];
    CollidingPartsAreClean(a, rest);
    var cx, cy := PortsOfTwoWays(x, y, again, once);
    CollidingKeys(a, rest);
    assert x.ports == [p, q] && y.ports == [p];
    PartsCollapseApart(p, q, cx, cy, again.ports, once.ports);
  }

  lemma TwoWaysExist(a: ParsedLog, b: ParsedLog) returns (again: ParsedLog, once: ParsedLog)
    ensures TwoWays(a, b, again, once)
  {
    var fa := FinalExists(a);
    var fb := FinalExists(b);
    again := FinalExists(Concat(fa, fb));
    once := FinalExists(Concat(a, b));
  }

  lemma CollidingPartsGUIDs(a: string, rest: string, guids: set<string>)
    requires IsCleanGUID(a) && IsCleanGUID(a + [BAR] + rest) && a in guids && a + [BAR] + rest in guids
    ensures HasPortGUIDsIn(CollidingPart(a, rest), guids) && HasPortGUIDsIn(RepeatedPart(a, rest), guids)
  {
    CollidingPartsAreClean(a, rest);
  }

  /** A set that is not prefix-free has two logs, without any node row, on whose ports the two ways disagree. */
  lemma DisagreementExists(guids: set<string>)
    returns (a: ParsedLog, b: ParsedLog, again: ParsedLog, once: ParsedLog)
    requires !PrefixFree(guids) && forall g | g in guids :: IsCleanGUID(g)
    ensures TwoWays(a, b, again, once) && HasPortGUIDsIn(a, guids) && HasPortGUIDsIn(b, guids)
    ensures a.nodes == [] && b.nodes == [] && again.ports != once.ports
  {
    var g, h :| g in guids && h in guids && !Apart(g, h);
    var rest := h[|g| + 1..];
    assert h == g + [BAR] + rest;
    a, b := CollidingPart(g, rest), RepeatedPart(g, rest);
    again, once := TwoWaysExist(a, b);
    CollidingPartsGUIDs(g, rest, guids);
    CollidingPartsDisagree(g, rest, again, once);
  }

  /** Over a set of clean GUIDs finalizing in parts never changes the ports exactly when the set is prefix-free. */
  lemma PortsInPartsIff(guids: set<string>)
    requires forall g | g in guids :: IsCleanGUID(g)
    ensures PortsAgreeOver(guids) <==> PrefixFree(guids)
  {
    if PrefixFree(guids) {
      forall a, b, again, once | TwoWays(a, b, again, once) && HasPortGUIDsIn(a, guids) && HasPortGUIDsIn(b, guids)
        ensures again.ports == once.ports
      {
        PrefixFreePortsAgree(guids, a, b, again, once);
      }
    } else {
      var a, b, again, once := DisagreementExists(guids);
    }
  }

  /** The same infos and ports in the same order, and the same GUID-to-node map. */
  ghost predicate SameLog(x: ParsedLog, y: ParsedLog) {
    x.infos == y.infos && x.ports == y.ports && SameNodes(x, y)
  }

  ghost predicate NoKindGetsLost(a: ParsedLog, b: ParsedLog) {
    forall g :: !KindGetsLost(a, b, g)
  }

  /** Lost kinds are all that can make the two ways differ, for logs whose port GUIDs lie in `guids`. */
  ghost predicate OnlyKindsMatterOver(guids: set<string>) {
    forall a, b, again, once |
      TwoWays(a, b, again, once) && HasPortGUIDsIn(a, guids) && HasPortGUIDsIn(b, guids) ::
      SameLog(again, once) <==> NoKindGetsLost(a, b)
  }

  lemma WaysDifferInKindsOnly(guids: set<string>, a: ParsedLog, b: ParsedLog, again: ParsedLog, once: ParsedLog)
    requires PrefixFree(guids) && TwoWays(a, b, again, once) && HasPortGUIDsIn(a, guids) && HasPortGUIDsIn(b, guids)
    ensures SameLog(again, once) <==> NoKindGetsLost(a, b)
  {
    PrefixFreePortsAgree(guids, a, b, again, once);
    var fa, fb :| IsFinal(a, fa) && IsFinal(b, fb) && IsFinal(Concat(fa, fb), again);
    InfosInParts(a, b, fa, fb, again, once);
    NodesInPartsIff(a, b, fa, fb, again, once);
  }

  lemma NoRowsNoKinds(a: ParsedLog, b: ParsedLog)
    requires b.nodes == []
    ensures NoKindGetsLost(a, b)
  {
  }

  /**
   Incremental equals batch, exactly: over a set of clean port GUIDs the two ways give the same log whenever, and
   only when, no kind gets lost, if and only if the set is prefix-free.
   */
  lemma IncrementalEqualsBatchIff(guids: set<string>)
    requires forall g | g in guids :: IsCleanGUID(g)
    ensures OnlyKindsMatterOver(guids) <==> PrefixFree(guids)
  {
    if PrefixFree(guids) {
      forall a, b, again, once | TwoWays(a, b, again, once) && HasPortGUIDsIn(a, guids) && HasPortGUIDsIn(b, guids)
        ensures SameLog(again, once) <==> NoKindGetsLost(a, b)
      {
        WaysDifferInKindsOnly(guids, a, b, again, once);
      }
    } else {
      var a, b, again, once := DisagreementExists(guids);
      NoRowsNoKinds(a, b);
    }
  }

  /** A log that only mentions a GUID, and one whose row for it has an empty kind. */
  function MentioningLog(g: string): ParsedLog {
    ParsedLog([], [], [ParsedInfo(g, "", "", "", "", "")])
  }

  function KindlessLog(g: string): ParsedLog {
    ParsedLog([UnknownNode(g).(nodeKind := "")], [], [])
  }

  lemma KindlessLogLosesKind(g: string)
    requires IsCleanGUID(g)
    ensures KindGetsLost(MentioningLog(g), KindlessLog(g), g)
  {
    var a, b := MentioningLog(g), KindlessLog(g);
    assert CleanPorts(a.ports) == [];
    CleanChangesNothing(a.infos, TidyInfo, InfoKey);
    CleanChangesNothing(b.nodes, TidyNode, NodeKey);
    assert Keys(a.infos, InfoKey)[0] == g;
    assert Occurrences(b.nodes, NodeKey, g) == b.nodes;
  }

  /** The kind can really get lost, for any node: the two ways then differ in it, and in nothing but a node. */
  lemma KindCanGetLost(g: string) returns (again: ParsedLog, once: ParsedLog)
    requires IsCleanGUID(g)
    ensures TwoWays(MentioningLog(g), KindlessLog(g), again, once)
    ensures again.infos == once.infos && again.ports == once.ports && !SameNodes(again, once)
  {
    again, once := TwoWaysExist(MentioningLog(g), KindlessLog(g));
    KindlessLogLosesKind(g);
    PrefixFreePortsAgree({}, MentioningLog(g), KindlessLog(g), again, once);
    var fa, fb :| IsFinal(MentioningLog(g), fa) && IsFinal(KindlessLog(g), fb) && IsFinal(Concat(fa, fb), again);
    InfosInParts(MentioningLog(g), KindlessLog(g), fa, fb, again, once);
    NodesInPartsIff(MentioningLog(g), KindlessLog(g), fa, fb, again, once);
  }

  /** Incremental equals batch for the logs the parser builds: kinds set, node GUIDs without a bar. */
  lemma IncrementalEqualsBatch(a: ParsedLog, b: ParsedLog, fa: ParsedLog, fb: ParsedLog, again: ParsedLog,
                               once: ParsedLog)
    requires IsFinal(a, fa) && IsFinal(b, fb) && IsFinal(Concat(fa, fb), again) && IsFinal(Concat(a, b), once)
    requires forall n | n in b.nodes :: n.nodeKind != ""
    requires forall p | p in CleanPorts(a.ports) + CleanPorts(b.ports) :: BAR !in p.nodeGUID
    ensures again.infos == once.infos && again.ports == once.ports && SameNodes(again, once)
  {
    InfosInParts(a, b, fa, fb, again, once);
    forall p | p in CleanPorts(a.ports) || p in CleanPorts(b.ports) ensures BAR !in p.nodeGUID {
      assert p in CleanPorts(a.ports) + CleanPorts(b.ports);
    }
    NoBarMeansPrefixFree(GUIDsIn(CleanPorts(a.ports)));
    NoBarMeansPrefixFree(GUIDsIn(CleanPorts(b.ports)));
    PortsInParts(a, b, fa, fb, again, once);
    NonEmptyKindsAreKept(a, b);
    NodesInPartsIff(a, b, fa, fb, again, once);
  }
}
