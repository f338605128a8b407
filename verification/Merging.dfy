/** The parser's three merges: a patch overrides what it knows and leaves the rest. */
module Merging {
  import opened Domain
  import opened KeyedFold
  import opened PortKey
  import Text

  const UNKNOWN := "unknown"

  function Override(base: string, patch: string): string {
    if patch != "" then patch else base
  }

  function OverrideNum(base: int, patch: int): int {
    if patch != 0 then patch else base
  }

  function MergeNode(base: ParsedNode, patch: ParsedNode): ParsedNode {
    ParsedNode(
      base.nodeGUID,
      Override(base.nodeDesc, patch.nodeDesc),
      OverrideNum(base.nodeType, patch.nodeType),
      if patch.nodeKind != "" && patch.nodeKind != UNKNOWN then patch.nodeKind else base.nodeKind,
      OverrideNum(base.numPorts, patch.numPorts),
      OverrideNum(base.classVersion, patch.classVersion),
      OverrideNum(base.baseVersion, patch.baseVersion),
      Override(base.systemImageGUID, patch.systemImageGUID),
      Override(base.portGUID, patch.portGUID),
      Override(base.rawJSON, patch.rawJSON))
  }

  function MergeInfo(base: ParsedInfo, patch: ParsedInfo): ParsedInfo {
    ParsedInfo(
      base.nodeGUID,
      Override(base.serialNumber, patch.serialNumber),
      Override(base.partNumber, patch.partNumber),
      Override(base.revision, patch.revision),
      Override(base.productName, patch.productName),
      Override(base.rawJSON, patch.rawJSON))
  }

  function MergePort(base: ParsedPort, patch: ParsedPort): ParsedPort {
    ParsedPort(
      base.nodeGUID,
      Override(base.portGUID, patch.portGUID),
      OverrideNum(base.portNum, patch.portNum),
      OverrideNum(base.lid, patch.lid),
      OverrideNum(base.localPortNum, patch.localPortNum),
      OverrideNum(base.portState, patch.portState),
      OverrideNum(base.portPhyState, patch.portPhyState),
      OverrideNum(base.linkWidthActive, patch.linkWidthActive),
      OverrideNum(base.linkSpeedActive, patch.linkSpeedActive),
      Override(base.rawJSON, patch.rawJSON))
  }

  /** The placeholder for a node that only infos or ports mention. */
  function UnknownNode(guid: string): ParsedNode {
    ParsedNode(guid, "", 0, UNKNOWN, 0, 0, 0, "", "", "")
  }

  /** `deriveNodeKind`: an explicit kind, else a guess from the description, else one from the type. */
  function DeriveNodeKind(kind: string, desc: string, nodeType: int): string {
    var explicit, lowered := Text.ToLower(Text.TrimSpace(kind)), Text.ToLower(desc);
    if explicit != "" then explicit
    else if Text.Contains(lowered, "switch") || Text.Contains(lowered, "sw") then "switch"
    else if Text.Contains(lowered, "host") || Text.Contains(lowered, "hca") || Text.Contains(lowered, "ca") then "host"
    else if nodeType == 2 then "switch"
    else if nodeType == 1 then "host"
    else UNKNOWN
  }

  lemma {:induction false} LowerKeepsLength(s: string)
    ensures |Text.ToLower(s)| == |s|
  {
    if s != "" {
      LowerKeepsLength(s[1..]);
    }
  }

  lemma ContainsPart(s: string, whole: string, from: nat, part: string)
    requires Text.Contains(s, whole) && from <= |whole| && part <= whole[from..]
    ensures Text.Contains(s, part)
  {
    var i :| 0 <= i <= |s| && whole <= s[i..];
    assert s[i..][..|whole|] == whole;
    assert s[i + from..][..|part|] == whole[from..][..|part|] == part;
  }

  /**
   A derived kind is never empty. An explicit kind wins; without one the node is a switch exactly if its description
   mentions "sw", or says nothing of "host" or "ca" and the type is 2, and a host exactly if it mentions those instead,
   or nothing and the type is 1. The tests for "switch" and "hca" decide nothing of their own.
   */
  lemma DerivedKind(kind: string, desc: string, nodeType: int)
    ensures var r, lowered := DeriveNodeKind(kind, desc, nodeType), Text.ToLower(desc);
      var sw, ca := Text.Contains(lowered, "sw"), Text.Contains(lowered, "host") || Text.Contains(lowered, "ca");
      && r != ""
      && (Text.TrimSpace(kind) != "" ==> r == Text.ToLower(Text.TrimSpace(kind)))
      && (Text.TrimSpace(kind) == "" ==>
        && (r == "switch" <==> sw || (!ca && nodeType == 2))
        && (r == "host" <==> !sw && (ca || nodeType == 1))
        && (r in {"switch", "host"} || r == UNKNOWN))
  {
    var lowered := Text.ToLower(desc);
    LowerKeepsLength(Text.TrimSpace(kind));
    if Text.Contains(lowered, "switch") {
      ContainsPart(lowered, "switch", 0, "sw");
    }
    if Text.Contains(lowered, "hca") {
      ContainsPart(lowered, "hca", 1, "ca");
    }
  }

  function NodeKey(n: ParsedNode): string {
    n.nodeGUID
  }

  function InfoKey(i: ParsedInfo): string {
    i.nodeGUID
  }

  lemma MergesAreAssociative()
    ensures Associative(MergeNode)
    ensures Associative(MergeInfo)
    ensures Associative(MergePort)
  {
  }

  /** The placeholder adds nothing to a node; a node put on top of it survives unless its kind is empty. */
  lemma PlaceholderIsAnIdentity(n: ParsedNode, guid: string)
    ensures MergeNode(n, UnknownNode(guid)) == n
    ensures MergeNode(UnknownNode(n.nodeGUID), n) == n <==> n.nodeKind != ""
  {
  }

  /** Merging two values of the same port keeps the port. */
  lemma MergeKeepsPort(base: ParsedPort, patch: ParsedPort)
    requires SamePort(base, patch)
    ensures SamePort(MergePort(base, patch), base)
    ensures PortKeyOf(MergePort(base, patch)) == PortKeyOf(base)
  {
  }

  // ---- The last one to say something wins ----

  /** `x` is what the last element that is not silent says, or what the first one says if all are silent. */
  ghost predicate LastSaid<V, X>(vs: seq<V>, f: V -> X, silent: X -> bool, x: X)
    requires vs != []
  {
    || (exists i :: LastToSpeak(vs, f, silent, i) && x == f(vs[i]))
    || ((forall i | 0 <= i < |vs| :: silent(f(vs[i]))) && x == f(vs[0]))
  }

  ghost predicate LastToSpeak<V, X>(vs: seq<V>, f: V -> X, silent: X -> bool, i: int) {
    0 <= i < |vs| && !silent(f(vs[i])) && forall j | i < j < |vs| :: silent(f(vs[j]))
  }

  lemma {:induction false} LastWins<V(!new), X>(vs: seq<V>, merge: (V, V) -> V, f: V -> X, silent: X -> bool)
    requires vs != []
    requires forall a, b :: f(merge(a, b)) == if silent(f(b)) then f(a) else f(b)
    ensures LastSaid(vs, f, silent, f(FoldMerge(vs, merge)))
  {
    var init, last := vs[..|vs| - 1], |vs| - 1;
    if init == [] {
      assert !silent(f(vs[0])) ==> LastToSpeak(vs, f, silent, 0);
    } else {
      LastWins(init, merge, f, silent);
      if !silent(f(vs[last])) {
        assert LastToSpeak(vs, f, silent, last);
      } else if i :| LastToSpeak(init, f, silent, i) && f(FoldMerge(init, merge)) == f(init[i]) {
        assert LastToSpeak(vs, f, silent, i);
      }
    }
  }

  predicate IsBlank(s: string) {
    s == ""
  }

  predicate IsZero(n: int) {
    n == 0
  }

  predicate NamesNoKind(kind: string) {
    kind == "" || kind == UNKNOWN
  }

  /** Each field of merged infos is the last non-empty one. */
  lemma MergedInfo(vs: seq<ParsedInfo>)
    requires vs != []
    ensures var m := FoldMerge(vs, MergeInfo);
      && m.nodeGUID == vs[0].nodeGUID
      && LastSaid(vs, (v: ParsedInfo) => v.serialNumber, IsBlank, m.serialNumber)
      && LastSaid(vs, (v: ParsedInfo) => v.partNumber, IsBlank, m.partNumber)
      && LastSaid(vs, (v: ParsedInfo) => v.revision, IsBlank, m.revision)
      && LastSaid(vs, (v: ParsedInfo) => v.productName, IsBlank, m.productName)
      && LastSaid(vs, (v: ParsedInfo) => v.rawJSON, IsBlank, m.rawJSON)
  {
    FirstKeeps(vs, MergeInfo, InfoKey);
    LastWins(vs, MergeInfo, (v: ParsedInfo) => v.serialNumber, IsBlank);
    LastWins(vs, MergeInfo, (v: ParsedInfo) => v.partNumber, IsBlank);
    LastWins(vs, MergeInfo, (v: ParsedInfo) => v.revision, IsBlank);
    LastWins(vs, MergeInfo, (v: ParsedInfo) => v.productName, IsBlank);
    LastWins(vs, MergeInfo, (v: ParsedInfo) => v.rawJSON, IsBlank);
  }

  lemma {:induction false} FirstKeeps<V(!new), X>(vs: seq<V>, merge: (V, V) -> V, f: V -> X)
    requires vs != []
    requires forall a, b :: f(merge(a, b)) == f(a)
    ensures f(FoldMerge(vs, merge)) == f(vs[0])
  {
    if |vs| > 1 {
      FirstKeeps(vs[..|vs| - 1], merge, f);
    }
  }

  /** Each field of merged ports is the last one that is not empty or zero. */
  lemma MergedPort(vs: seq<ParsedPort>)
    requires vs != []
    ensures var m := FoldMerge(vs, MergePort);
      && m.nodeGUID == vs[0].nodeGUID
      && LastSaid(vs, (v: ParsedPort) => v.portGUID, IsBlank, m.portGUID)
      && LastSaid(vs, (v: ParsedPort) => v.portNum, IsZero, m.portNum)
      && LastSaid(vs, (v: ParsedPort) => v.lid, IsZero, m.lid)
      && LastSaid(vs, (v: ParsedPort) => v.localPortNum, IsZero, m.localPortNum)
      && LastSaid(vs, (v: ParsedPort) => v.portState, IsZero, m.portState)
      && LastSaid(vs, (v: ParsedPort) => v.portPhyState, IsZero, m.portPhyState)
      && LastSaid(vs, (v: ParsedPort) => v.linkWidthActive, IsZero, m.linkWidthActive)
      && LastSaid(vs, (v: ParsedPort) => v.linkSpeedActive, IsZero, m.linkSpeedActive)
      && LastSaid(vs, (v: ParsedPort) => v.rawJSON, IsBlank, m.rawJSON)
  {
    FirstKeeps(vs, MergePort, (v: ParsedPort) => v.nodeGUID);
    LastWins(vs, MergePort, (v: ParsedPort) => v.portGUID, IsBlank);
    LastWins(vs, MergePort, (v: ParsedPort) => v.portNum, IsZero);
    LastWins(vs, MergePort, (v: ParsedPort) => v.lid, IsZero);
    LastWins(vs, MergePort, (v: ParsedPort) => v.localPortNum, IsZero);
    LastWins(vs, MergePort, (v: ParsedPort) => v.portState, IsZero);
    LastWins(vs, MergePort, (v: ParsedPort) => v.portPhyState, IsZero);
    LastWins(vs, MergePort, (v: ParsedPort) => v.linkWidthActive, IsZero);
    LastWins(vs, MergePort, (v: ParsedPort) => v.linkSpeedActive, IsZero);
    LastWins(vs, MergePort, (v: ParsedPort) => v.rawJSON, IsBlank);
  }

  /** Each field of merged nodes is the last one that is not empty or zero; "unknown" does not count as a kind. */
  lemma MergedNode(vs: seq<ParsedNode>)
    requires vs != []
    ensures var m := FoldMerge(vs, MergeNode);
      && m.nodeGUID == vs[0].nodeGUID
      && LastSaid(vs, (v: ParsedNode) => v.nodeDesc, IsBlank, m.nodeDesc)
      && LastSaid(vs, (v: ParsedNode) => v.nodeType, IsZero, m.nodeType)
      && LastSaid(vs, (v: ParsedNode) => v.nodeKind, NamesNoKind, m.nodeKind)
      && LastSaid(vs, (v: ParsedNode) => v.numPorts, IsZero, m.numPorts)
      && LastSaid(vs, (v: ParsedNode) => v.classVersion, IsZero, m.classVersion)
      && LastSaid(vs, (v: ParsedNode) => v.baseVersion, IsZero, m.baseVersion)
      && LastSaid(vs, (v: ParsedNode) => v.systemImageGUID, IsBlank, m.systemImageGUID)
      && LastSaid(vs, (v: ParsedNode) => v.portGUID, IsBlank, m.portGUID)
      && LastSaid(vs, (v: ParsedNode) => v.rawJSON, IsBlank, m.rawJSON)
  {
    FirstKeeps(vs, MergeNode, NodeKey);
    LastWins(vs, MergeNode, (v: ParsedNode) => v.nodeDesc, IsBlank);
    LastWins(vs, MergeNode, (v: ParsedNode) => v.nodeType, IsZero);
    LastWins(vs, MergeNode, (v: ParsedNode) => v.nodeKind, NamesNoKind);
    LastWins(vs, MergeNode, (v: ParsedNode) => v.numPorts, IsZero);
    LastWins(vs, MergeNode, (v: ParsedNode) => v.classVersion, IsZero);
    LastWins(vs, MergeNode, (v: ParsedNode) => v.baseVersion, IsZero);
    LastWins(vs, MergeNode, (v: ParsedNode) => v.systemImageGUID, IsBlank);
    LastWins(vs, MergeNode, (v: ParsedNode) => v.portGUID, IsBlank);
    LastWins(vs, MergeNode, (v: ParsedNode) => v.rawJSON, IsBlank);
  }
}
