/** `finalizeParsedLog`: deduplicated nodes, infos and ports, and a node for every GUID that is mentioned. */
module Finalize {
  import opened Domain
  import opened KeyedFold
  import opened Merging
  import opened PortKey
  import Text

  // ---- Cleaning: trim the node GUID, drop what has none ----

  function TidyNode(n: ParsedNode): ParsedNode {
    n.(nodeGUID := Text.TrimSpace(n.nodeGUID))
  }

  function TidyInfo(i: ParsedInfo): ParsedInfo {
    i.(nodeGUID := Text.TrimSpace(i.nodeGUID))
  }

  function TidyPort(p: ParsedPort): ParsedPort {
    p.(nodeGUID := Text.TrimSpace(p.nodeGUID))
  }

  function PortGUIDOf(p: ParsedPort): string {
    p.nodeGUID
  }

  function Clean<V>(s: seq<V>, tidy: V -> V, guid: V -> string): seq<V> {
    if s == [] then []
    else
      var last := tidy(s[|s| - 1]);
      Clean(s[..|s| - 1], tidy, guid) + if guid(last) == "" then [] else [last]
  }

  lemma {:induction false} CleanAppend<V>(a: seq<V>, b: seq<V>, tidy: V -> V, guid: V -> string)
    ensures Clean(a + b, tidy, guid) == Clean(a, tidy, guid) + Clean(b, tidy, guid)
  {
    if b == [] {
      assert a + b == a;
    } else {
      assert (a + b)[..|a + b| - 1] == a + b[..|b| - 1];
      CleanAppend(a, b[..|b| - 1], tidy, guid);
    }
  }

  lemma {:induction false} CleanIsTidy<V>(s: seq<V>, tidy: V -> V, guid: V -> string, v: V)
    requires v in Clean(s, tidy, guid)
    ensures guid(v) != "" && exists u :: u in s && tidy(u) == v
  {
    var init, last := s[..|s| - 1], s[|s| - 1];
    if v in Clean(init, tidy, guid) {
      CleanIsTidy(init, tidy, guid, v);
    } else {
      assert last in s && tidy(last) == v;
    }
  }

  lemma {:induction false} CleanChangesNothing<V>(s: seq<V>, tidy: V -> V, guid: V -> string)
    requires forall v | v in s :: tidy(v) == v && guid(v) != ""
    ensures Clean(s, tidy, guid) == s
  {
    if s != [] {
      var init, last := s[..|s| - 1], s[|s| - 1];
      assert s == init + [last] && last in s;
      CleanChangesNothing(init, tidy, guid);
    }
  }

  function CleanNodes(s: seq<ParsedNode>): seq<ParsedNode> {
    Clean(s, TidyNode, NodeKey)
  }

  function CleanInfos(s: seq<ParsedInfo>): seq<ParsedInfo> {
    Clean(s, TidyInfo, InfoKey)
  }

  function CleanPorts(s: seq<ParsedPort>): seq<ParsedPort> {
    Clean(s, TidyPort, PortGUIDOf)
  }

  // ---- What the result must be ----

  function Placeholders(guids: seq<string>): (s: seq<ParsedNode>)
    ensures |s| == |guids|
  {
    seq(|guids|, i requires 0 <= i < |guids| => UnknownNode(guids[i]))
  }

  /** GUIDs that infos and then ports mention, in order. */
  function Mentioned(parsed: ParsedLog): seq<string> {
    Keys(CleanInfos(parsed.infos), InfoKey) + Keys(CleanPorts(parsed.ports), PortGUIDOf)
  }

  /** Everything that says something about a node: the nodes, and a placeholder for each mention. */
  function NodeItems(parsed: ParsedLog): seq<ParsedNode> {
    CleanNodes(parsed.nodes) + Placeholders(Mentioned(parsed))
  }

  ghost predicate IsFinal(parsed: ParsedLog, out: ParsedLog) {
    && IsCollapse(NodeItems(parsed), NodeKey, MergeNode, out.nodes)
    && IsCollapse(CleanInfos(parsed.infos), InfoKey, MergeInfo, out.infos)
    && IsCollapse(CleanPorts(parsed.ports), PortKeyOf, MergePort, out.ports)
  }

  // ---- The loops ----

  /** A slice with its index map, as they stand after the values `items`. */
  ghost predicate IsTable<V>(items: seq<V>, key: V -> string, merge: (V, V) -> V, index: map<string, nat>,
                             out: seq<V>) {
    IsCollapse(items, key, merge, out) && Indexes(index, FirstKeys(items, key))
  }

  method MergeInto<V>(index: map<string, nat>, out: seq<V>, v: V, key: V -> string, merge: (V, V) -> V,
                      ghost items: seq<V>)
    returns (index': map<string, nat>, out': seq<V>)
    requires IsTable(items, key, merge, index, out)
    ensures IsTable(items + [v], key, merge, index', out')
  {
    index', out' := index, out;
    var k := key(v);
    if k in index {
      var at := index[k];
      MergeInPlace(items, key, merge, out, v, at);
      out' := out[at := merge(out[at], v)];
    } else {
      assert k !in FirstKeys(items, key);
      AppendNew(items, key, merge, out, v);
      index' := index[k := |out|];
      out' := out + [v];
    }
  }

  lemma KnownNodeNeedsNoPlaceholder(items: seq<ParsedNode>, nodes: seq<ParsedNode>, guid: string, at: nat)
    requires IsCollapse(items, NodeKey, MergeNode, nodes)
    requires at < |nodes| && FirstKeys(items, NodeKey)[at] == guid
    ensures IsCollapse(items + [UnknownNode(guid)], NodeKey, MergeNode, nodes)
    ensures FirstKeys(items + [UnknownNode(guid)], NodeKey) == FirstKeys(items, NodeKey)
  {
    MergeInPlace(items, NodeKey, MergeNode, nodes, UnknownNode(guid), at);
    PlaceholderIsAnIdentity(nodes[at], guid);
    assert nodes[at := nodes[at]] == nodes;
  }

  method EnsureNode(guid: string, index: map<string, nat>, nodes: seq<ParsedNode>, ghost items: seq<ParsedNode>)
    returns (index': map<string, nat>, nodes': seq<ParsedNode>)
    requires IsTable(items, NodeKey, MergeNode, index, nodes)
    ensures guid == "" ==> index' == index && nodes' == nodes
    ensures guid != "" ==> IsTable(items + [UnknownNode(guid)], NodeKey, MergeNode, index', nodes')
  {
    index', nodes' := index, nodes;
    if guid == "" {
      return;
    }
    if guid in index {
      KnownNodeNeedsNoPlaceholder(items, nodes, guid, index[guid]);
      return;
    }
    AppendNew(items, NodeKey, MergeNode, nodes, UnknownNode(guid));
    index' := index[guid := |nodes|];
    nodes' := nodes + [UnknownNode(guid)];
  }

  lemma EmptyTable<V>(key: V -> string, merge: (V, V) -> V)
    ensures IsTable([], key, merge, map[], [])
  {
  }

  lemma CleanStep<V>(s: seq<V>, i: nat, tidy: V -> V, guid: V -> string)
    requires i < |s|
    ensures var v := tidy(s[i]);
      Clean(s[..i + 1], tidy, guid) ==
        if guid(v) == "" then Clean(s[..i], tidy, guid) else Clean(s[..i], tidy, guid) + [v]
  {
    assert s[..i + 1][..i] == s[..i];
  }

  method MergeNodes(parsed: seq<ParsedNode>) returns (index: map<string, nat>, nodes: seq<ParsedNode>)
    ensures IsTable(CleanNodes(parsed), NodeKey, MergeNode, index, nodes)
  {
    index, nodes := map[], [];
    EmptyTable(NodeKey, MergeNode);
    for i := 0 to |parsed|
      invariant IsTable(CleanNodes(parsed[..i]), NodeKey, MergeNode, index, nodes)
    {
      CleanStep(parsed, i, TidyNode, NodeKey);
      var node := TidyNode(parsed[i]);
      if node.nodeGUID == "" {
        continue;
      }
      index, nodes := MergeInto(index, nodes, node, NodeKey, MergeNode, CleanNodes(parsed[..i]));
    }
    assert parsed[..|parsed|] == parsed;
  }

  lemma PlaceholdersAppend(items: seq<ParsedNode>, a: seq<string>, b: seq<string>)
    ensures items + Placeholders(a + b) == (items + Placeholders(a)) + Placeholders(b)
  {
  }

  lemma PlaceholdersStep(items: seq<ParsedNode>, guids: seq<string>, guid: string)
    ensures items + Placeholders(guids + [guid]) == items + Placeholders(guids) + [UnknownNode(guid)]
  {
  }

  /** The tables after the loop has seen the values `done`. */
  ghost predicate AreTables<V>(items: seq<ParsedNode>, done: seq<V>,
                               guid: V -> string, key: V -> string, merge: (V, V) -> V,
                               index: map<string, nat>, nodes: seq<ParsedNode>,
                               outIndex: map<string, nat>, out: seq<V>) {
    && IsTable(items + Placeholders(Keys(done, guid)), NodeKey, MergeNode, index, nodes)
    && IsTable(done, key, merge, outIndex, out)
  }

  lemma TablesStep<V>(items: seq<ParsedNode>, done: seq<V>, v: V, guid: V -> string)
    ensures items + Placeholders(Keys(done + [v], guid)) ==
      items + Placeholders(Keys(done, guid)) + [UnknownNode(guid(v))]
  {
    assert Keys(done + [v], guid) == Keys(done, guid) + [guid(v)];
    PlaceholdersStep(items, Keys(done, guid), guid(v));
  }

  /** The loop over infos, and the loop over ports: both ensure the node and then merge by key. */
  method MergeMentions<V>(parsed: seq<V>, tidy: V -> V, guid: V -> string, key: V -> string, merge: (V, V) -> V,
                          index0: map<string, nat>, nodes0: seq<ParsedNode>, ghost items: seq<ParsedNode>)
    returns (index: map<string, nat>, nodes: seq<ParsedNode>, out: seq<V>)
    requires IsTable(items, NodeKey, MergeNode, index0, nodes0)
    ensures IsTable(items + Placeholders(Keys(Clean(parsed, tidy, guid), guid)), NodeKey, MergeNode, index, nodes)
    ensures IsCollapse(Clean(parsed, tidy, guid), key, merge, out)
  {
    index, nodes := index0, nodes0;
    var outIndex: map<string, nat>;
    outIndex, out := map[], [];
    EmptyTable(key, merge);
    assert items + Placeholders(Keys([], guid)) == items;
    for i := 0 to |parsed|
      invariant AreTables(items, Clean(parsed[..i], tidy, guid), guid, key, merge, index, nodes, outIndex, out)
    {
      CleanStep(parsed, i, tidy, guid);
      var v := tidy(parsed[i]);
      if guid(v) == "" {
        continue;
      }
      ghost var done := Clean(parsed[..i], tidy, guid);
      TablesStep(items, done, v, guid);
      index, nodes := EnsureNode(guid(v), index, nodes, items + Placeholders(Keys(done, guid)));
      outIndex, out := MergeInto(outIndex, out, v, key, merge, done);
    }
    assert parsed[..|parsed|] == parsed;
  }

  method FinalizeParsedLog(parsed: ParsedLog) returns (out: ParsedLog)
    ensures IsFinal(parsed, out)
  {
    ghost var items := CleanNodes(parsed.nodes);
    ghost var fromInfos := Keys(CleanInfos(parsed.infos), InfoKey);
    ghost var fromPorts := Keys(CleanPorts(parsed.ports), PortGUIDOf);
    var index, nodes := MergeNodes(parsed.nodes);
    var infos, ports;
    index, nodes, infos := MergeMentions(parsed.infos, TidyInfo, InfoKey, InfoKey, MergeInfo, index, nodes, items);
    index, nodes, ports := MergeMentions(parsed.ports, TidyPort, PortGUIDOf, PortKeyOf, MergePort, index, nodes,
                                         items + Placeholders(fromInfos));
    PlaceholdersAppend(items, fromInfos, fromPorts);
    out := ParsedLog(nodes, ports, infos);
  }
}
