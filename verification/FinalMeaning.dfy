/** What a finalized log says, told by the rows it comes from: field by field, and GUID by GUID. */
module FinalMeaning {
  import opened Domain
  import opened Seqs
  import opened KeyedFold
  import opened Merging
  import opened PortKey
  import opened Finalize
  import opened FinalizeProperties
  import Text

  // ---- The last row to speak ----

  ghost predicate SpeaksLast<V, X>(rows: seq<V>, about: V -> bool, f: V -> X, silent: X -> bool, i: int) {
    && 0 <= i < |rows| && about(rows[i]) && !silent(f(rows[i]))
    && forall j | i < j < |rows| && about(rows[j]) :: silent(f(rows[j]))
  }

  ghost predicate IsFirst<V>(rows: seq<V>, about: V -> bool, i: int) {
    0 <= i < |rows| && about(rows[i]) && forall j | 0 <= j < i :: !about(rows[j])
  }

  /** Of the rows this is about, the last that is not silent says `x`, or the first one if all of them are silent. */
  ghost predicate LastAmong<V, X>(rows: seq<V>, about: V -> bool, f: V -> X, silent: X -> bool, x: X) {
    || (exists i :: SpeaksLast(rows, about, f, silent, i) && x == f(rows[i]))
    || ((forall i | 0 <= i < |rows| && about(rows[i]) :: silent(f(rows[i]))) &&
        exists i :: IsFirst(rows, about, i) && x == f(rows[i]))
  }

  lemma SilentRowChangesNothing<V, X>(rows: seq<V>, v: V, about: V -> bool, f: V -> X, silent: X -> bool, x: X)
    requires LastAmong(rows, about, f, silent, x) && (about(v) ==> silent(f(v)))
    ensures LastAmong(rows + [v], about, f, silent, x)
  {
    var all := rows + [v];
    if i :| SpeaksLast(rows, about, f, silent, i) && x == f(rows[i]) {
      assert SpeaksLast(all, about, f, silent, i);
    } else {
      var i :| IsFirst(rows, about, i) && x == f(rows[i]);
      assert IsFirst(all, about, i);
    }
  }

  lemma LastSaidBefore<V, X>(vs: seq<V>, w: V, f: V -> X, silent: X -> bool, x: X)
    requires vs != [] && silent(f(w)) && LastSaid(vs + [w], f, silent, x)
    ensures LastSaid(vs, f, silent, x)
  {
    var all := vs + [w];
    if i :| LastToSpeak(all, f, silent, i) && x == f(all[i]) {
      assert i < |vs|;
      assert forall j | i < j < |vs| :: vs[j] == all[j];
      assert LastToSpeak(vs, f, silent, i);
    } else {
      assert forall j | 0 <= j < |vs| :: vs[j] == all[j];
    }
  }

  lemma LastSaidNow<V, X>(vs: seq<V>, w: V, f: V -> X, silent: X -> bool, x: X)
    requires (vs == [] || !silent(f(w))) && LastSaid(vs + [w], f, silent, x)
    ensures x == f(w)
  {
    var all := vs + [w];
    assert all[|vs|] == w;
    if i :| LastToSpeak(all, f, silent, i) && x == f(all[i]) {
      assert i == |vs|;
    } else {
      assert all[0] == w;
    }
  }

  /** The row says `x`, and it either speaks or is the only one. */
  lemma NewRowDecides<V, X>(rows: seq<V>, v: V, about: V -> bool, f: V -> X, silent: X -> bool)
    requires about(v) && (!silent(f(v)) || forall i | 0 <= i < |rows| :: !about(rows[i]))
    ensures LastAmong(rows + [v], about, f, silent, f(v))
  {
    var all := rows + [v];
    assert all[|rows|] == v;
    assert forall i | 0 <= i < |rows| :: all[i] == rows[i];
    if silent(f(v)) {
      assert IsFirst(all, about, |rows|);
    } else {
      assert SpeaksLast(all, about, f, silent, |rows|);
    }
  }

  lemma OccurrencesOfCleanStep<V>(rows: seq<V>, tidy: V -> V, guid: V -> string, key: V -> string, k: string)
    requires rows != []
    ensures var v := tidy(rows[|rows| - 1]);
      var before := Occurrences(Clean(rows[..|rows| - 1], tidy, guid), key, k);
      Occurrences(Clean(rows, tidy, guid), key, k) == before + if guid(v) != "" && key(v) == k then [v] else []
  {
    hide Occurrences;
    var n := |rows| - 1;
    CleanStep(rows, n, tidy, guid);
    assert rows[..n + 1] == rows;
    OccurrencesStep(Clean(rows[..n], tidy, guid), key, tidy(rows[n]), k);
  }

  /** What the cleaned rows under a key say last, the rows themselves say last. */
  lemma {:induction false} LastSaidAmong<V(!new), X>(rows: seq<V>, tidy: V -> V, guid: V -> string, key: V -> string,
                                                     k: string, about: V -> bool, f: V -> X, silent: X -> bool, x: X)
    requires forall v :: f(tidy(v)) == f(v)
    requires forall v :: about(v) <==> guid(tidy(v)) != "" && key(tidy(v)) == k
    requires Occurrences(Clean(rows, tidy, guid), key, k) != []
    requires LastSaid(Occurrences(Clean(rows, tidy, guid), key, k), f, silent, x)
    ensures LastAmong(rows, about, f, silent, x)
  {
    hide LastSaid, LastAmong, Occurrences;
    if rows == [] {
      NothingAbout(rows, tidy, guid, key, k, about);
    } else {
      var n := |rows| - 1;
      var last, before := rows[n], Occurrences(Clean(rows[..n], tidy, guid), key, k);
      OccurrencesOfCleanStep(rows, tidy, guid, key, k);
      assert rows == rows[..n] + [last];
      if about(last) && (before == [] || !silent(f(last))) {
        LastSaidNow(before, tidy(last), f, silent, x);
        NothingAbout(rows[..n], tidy, guid, key, k, about);
        NewRowDecides(rows[..n], last, about, f, silent);
      } else {
        if about(last) {
          LastSaidBefore(before, tidy(last), f, silent, x);
        } else {
          assert before + [] == before;
        }
        LastSaidAmong(rows[..n], tidy, guid, key, k, about, f, silent, x);
        SilentRowChangesNothing(rows[..n], last, about, f, silent, x);
      }
    }
  }

  lemma {:induction false} NothingAbout<V(!new)>(rows: seq<V>, tidy: V -> V, guid: V -> string, key: V -> string,
                                                 k: string, about: V -> bool)
    requires forall v :: about(v) <==> guid(tidy(v)) != "" && key(tidy(v)) == k
    ensures Occurrences(Clean(rows, tidy, guid), key, k) == [] <==> forall i | 0 <= i < |rows| :: !about(rows[i])
  {
    if rows != [] {
      var n := |rows| - 1;
      OccurrencesOfCleanStep(rows, tidy, guid, key, k);
      NothingAbout(rows[..n], tidy, guid, key, k, about);
      assert forall i | 0 <= i < n :: rows[i] == rows[..n][i];
    }
  }

  // ---- Nodes ----

  /** The rows about a node: those with its GUID, white space around it aside. */
  function NodesAbout(guid: string): ParsedNode -> bool {
    (r: ParsedNode) => Text.TrimSpace(r.nodeGUID) == guid
  }

  ghost predicate HasNodeRow(parsed: ParsedLog, guid: string) {
    exists i :: 0 <= i < |parsed.nodes| && NodesAbout(guid)(parsed.nodes[i])
  }

  /** Every field is what the last row with something to say about it says. */
  ghost predicate CollectsNode(rows: seq<ParsedNode>, n: ParsedNode) {
    var about := NodesAbout(n.nodeGUID);
    && LastAmong(rows, about, (v: ParsedNode) => v.nodeDesc, IsBlank, n.nodeDesc)
    && LastAmong(rows, about, (v: ParsedNode) => v.nodeType, IsZero, n.nodeType)
    && LastAmong(rows, about, (v: ParsedNode) => v.nodeKind, NamesNoKind, n.nodeKind)
    && LastAmong(rows, about, (v: ParsedNode) => v.numPorts, IsZero, n.numPorts)
    && LastAmong(rows, about, (v: ParsedNode) => v.classVersion, IsZero, n.classVersion)
    && LastAmong(rows, about, (v: ParsedNode) => v.baseVersion, IsZero, n.baseVersion)
    && LastAmong(rows, about, (v: ParsedNode) => v.systemImageGUID, IsBlank, n.systemImageGUID)
    && LastAmong(rows, about, (v: ParsedNode) => v.portGUID, IsBlank, n.portGUID)
    && LastAmong(rows, about, (v: ParsedNode) => v.rawJSON, IsBlank, n.rawJSON)
  }

  lemma OccurrenceHasKey<V>(items: seq<V>, key: V -> string, k: string)
    requires Occurrences(items, key, k) != []
    ensures key(Occurrences(items, key, k)[0]) == k
  {
    assert Occurrences(items, key, k)[0] in Occurrences(items, key, k);
  }

  lemma MergedNodeCollects(rows: seq<ParsedNode>, g: string)
    requires g != "" && Occurrences(CleanNodes(rows), NodeKey, g) != []
    ensures CollectsNode(rows, FoldMerge(Occurrences(CleanNodes(rows), NodeKey, g), MergeNode))
    ensures FoldMerge(Occurrences(CleanNodes(rows), NodeKey, g), MergeNode).nodeGUID == g
  {
    hide LastSaid, LastAmong, MergeNode, Text.TrimSpace, Occurrences, FoldMerge;
    var occ := Occurrences(CleanNodes(rows), NodeKey, g);
    var m, about := FoldMerge(occ, MergeNode), NodesAbout(g);
    OccurrenceHasKey(CleanNodes(rows), NodeKey, g);
    MergedNode(occ);
    LastSaidAmong(rows, TidyNode, NodeKey, NodeKey, g, about, (v: ParsedNode) => v.nodeDesc, IsBlank, m.nodeDesc);
    LastSaidAmong(rows, TidyNode, NodeKey, NodeKey, g, about, (v: ParsedNode) => v.nodeType, IsZero, m.nodeType);
    LastSaidAmong(rows, TidyNode, NodeKey, NodeKey, g, about, (v: ParsedNode) => v.nodeKind, NamesNoKind, m.nodeKind);
    LastSaidAmong(rows, TidyNode, NodeKey, NodeKey, g, about, (v: ParsedNode) => v.numPorts, IsZero, m.numPorts);
    LastSaidAmong(rows, TidyNode, NodeKey, NodeKey, g, about,
      (v: ParsedNode) => v.classVersion, IsZero, m.classVersion);
    LastSaidAmong(rows, TidyNode, NodeKey, NodeKey, g, about, (v: ParsedNode) => v.baseVersion, IsZero, m.baseVersion);
    LastSaidAmong(rows, TidyNode, NodeKey, NodeKey, g, about,
      (v: ParsedNode) => v.systemImageGUID, IsBlank, m.systemImageGUID);
    LastSaidAmong(rows, TidyNode, NodeKey, NodeKey, g, about, (v: ParsedNode) => v.portGUID, IsBlank, m.portGUID);
    LastSaidAmong(rows, TidyNode, NodeKey, NodeKey, g, about, (v: ParsedNode) => v.rawJSON, IsBlank, m.rawJSON);
  }

  /**
   A node of the result collects the rows of the input about it, or, if there are none, is a bare node of unknown kind.
   */
  lemma FinalNodeFields(parsed: ParsedLog, f: ParsedLog, i: nat)
    requires IsFinal(parsed, f) && i < |f.nodes|
    ensures if HasNodeRow(parsed, f.nodes[i].nodeGUID) then CollectsNode(parsed.nodes, f.nodes[i])
      else f.nodes[i] == ParsedNode(f.nodes[i].nodeGUID, "", 0, "unknown", 0, 0, 0, "", "", "")
  {
    var g := f.nodes[i].nodeGUID;
    NodesAreKeyedFolds(parsed, f);
    FinalGUIDsAreClean(parsed, f);
    assert f.nodes[i] in f.nodes;
    NothingAbout(parsed.nodes, TidyNode, NodeKey, NodeKey, g, NodesAbout(g));
    if HasNodeRow(parsed, g) {
      MergedNodeCollects(parsed.nodes, g);
    }
  }

  // ---- Infos ----

  function InfosAbout(guid: string): ParsedInfo -> bool {
    (r: ParsedInfo) => Text.TrimSpace(r.nodeGUID) == guid
  }

  ghost predicate CollectsInfo(rows: seq<ParsedInfo>, info: ParsedInfo) {
    var about := InfosAbout(info.nodeGUID);
    && LastAmong(rows, about, (v: ParsedInfo) => v.serialNumber, IsBlank, info.serialNumber)
    && LastAmong(rows, about, (v: ParsedInfo) => v.partNumber, IsBlank, info.partNumber)
    && LastAmong(rows, about, (v: ParsedInfo) => v.revision, IsBlank, info.revision)
    && LastAmong(rows, about, (v: ParsedInfo) => v.productName, IsBlank, info.productName)
    && LastAmong(rows, about, (v: ParsedInfo) => v.rawJSON, IsBlank, info.rawJSON)
  }

  /** An info of the result collects the rows of the input about its node. */
  lemma FinalInfoFields(parsed: ParsedLog, f: ParsedLog, i: nat)
    requires IsFinal(parsed, f) && i < |f.infos|
    ensures CollectsInfo(parsed.infos, f.infos[i])
  {
    var rows, g := parsed.infos, f.infos[i].nodeGUID;
    InfosKeepKeys(CleanInfos(rows), f.infos);
    FinalGUIDsAreClean(parsed, f);
    assert f.infos[i] in f.infos && InfoKey(f.infos[i]) == g;
    assert IsMergedAt(CleanInfos(rows), InfoKey, MergeInfo, g, f.infos[i]);
    var occ := Occurrences(CleanInfos(rows), InfoKey, g);
    var m, about := f.infos[i], InfosAbout(g);
    MergedInfo(occ);
    hide LastSaid, LastAmong, MergeInfo, Text.TrimSpace, Occurrences;
    LastSaidAmong(rows, TidyInfo, InfoKey, InfoKey, g, about,
      (v: ParsedInfo) => v.serialNumber, IsBlank, m.serialNumber);
    LastSaidAmong(rows, TidyInfo, InfoKey, InfoKey, g, about, (v: ParsedInfo) => v.partNumber, IsBlank, m.partNumber);
    LastSaidAmong(rows, TidyInfo, InfoKey, InfoKey, g, about, (v: ParsedInfo) => v.revision, IsBlank, m.revision);
    LastSaidAmong(rows, TidyInfo, InfoKey, InfoKey, g, about, (v: ParsedInfo) => v.productName, IsBlank, m.productName);
    LastSaidAmong(rows, TidyInfo, InfoKey, InfoKey, g, about, (v: ParsedInfo) => v.rawJSON, IsBlank, m.rawJSON);
  }

  // ---- Ports ----

  /** The rows that are filed under this key. */
  function PortsUnder(key: string): ParsedPort -> bool {
    (r: ParsedPort) =>
      var guid := Text.TrimSpace(r.nodeGUID);
      guid != "" && KeyOf(guid, r.portGUID, r.portNum) == key
  }

  /** The GUID is that of the first row filed under the key. */
  ghost predicate NamedByFirst(rows: seq<ParsedPort>, key: string, guid: string) {
    exists i :: IsFirst(rows, PortsUnder(key), i) && guid == Text.TrimSpace(rows[i].nodeGUID)
  }

  ghost predicate CollectsPort(rows: seq<ParsedPort>, key: string, p: ParsedPort) {
    var about := PortsUnder(key);
    && NamedByFirst(rows, key, p.nodeGUID)
    && LastAmong(rows, about, (v: ParsedPort) => v.portGUID, IsBlank, p.portGUID)
    && LastAmong(rows, about, (v: ParsedPort) => v.portNum, IsZero, p.portNum)
    && LastAmong(rows, about, (v: ParsedPort) => v.lid, IsZero, p.lid)
    && LastAmong(rows, about, (v: ParsedPort) => v.localPortNum, IsZero, p.localPortNum)
    && LastAmong(rows, about, (v: ParsedPort) => v.portState, IsZero, p.portState)
    && LastAmong(rows, about, (v: ParsedPort) => v.portPhyState, IsZero, p.portPhyState)
    && LastAmong(rows, about, (v: ParsedPort) => v.linkWidthActive, IsZero, p.linkWidthActive)
    && LastAmong(rows, about, (v: ParsedPort) => v.linkSpeedActive, IsZero, p.linkSpeedActive)
    && LastAmong(rows, about, (v: ParsedPort) => v.rawJSON, IsBlank, p.rawJSON)
  }

  lemma {:induction false} FirstOccurrence(rows: seq<ParsedPort>, key: string)
    requires Occurrences(CleanPorts(rows), PortKeyOf, key) != []
    ensures NamedByFirst(rows, key, Occurrences(CleanPorts(rows), PortKeyOf, key)[0].nodeGUID)
  {
    hide Text.TrimSpace, KeyOf;
    var about := PortsUnder(key);
    if rows != [] {
      var n := |rows| - 1;
      OccurrencesOfCleanStep(rows, TidyPort, PortGUIDOf, PortKeyOf, key);
      if Occurrences(CleanPorts(rows[..n]), PortKeyOf, key) != [] {
        FirstOccurrence(rows[..n], key);
        var i :| IsFirst(rows[..n], about, i) &&
          Occurrences(CleanPorts(rows[..n]), PortKeyOf, key)[0].nodeGUID == Text.TrimSpace(rows[..n][i].nodeGUID);
        assert IsFirst(rows, about, i);
      } else {
        assert forall v: ParsedPort :: about(v) <==> PortGUIDOf(TidyPort(v)) != "" && PortKeyOf(TidyPort(v)) == key;
        NothingAbout(rows[..n], TidyPort, PortGUIDOf, PortKeyOf, key, about);
        assert IsFirst(rows, about, n);
      }
    }
  }

  lemma FinalPortFields(parsed: ParsedLog, f: ParsedLog, i: nat, key: string)
    requires IsFinal(parsed, f) && i < |f.ports| && key == FirstKeys(CleanPorts(parsed.ports), PortKeyOf)[i]
    ensures CollectsPort(parsed.ports, key, f.ports[i])
  {
    var rows := parsed.ports;
    assert IsMergedAt(CleanPorts(rows), PortKeyOf, MergePort, key, f.ports[i]);
    var occ := Occurrences(CleanPorts(rows), PortKeyOf, key);
    var m, about := f.ports[i], PortsUnder(key);
    MergedPort(occ);
    FirstOccurrence(rows, key);
    hide LastSaid, LastAmong, MergePort, Text.TrimSpace, Occurrences;
    LastSaidAmong(rows, TidyPort, PortGUIDOf, PortKeyOf, key, about,
      (v: ParsedPort) => v.portGUID, IsBlank, m.portGUID);
    LastSaidAmong(rows, TidyPort, PortGUIDOf, PortKeyOf, key, about, (v: ParsedPort) => v.portNum, IsZero, m.portNum);
    LastSaidAmong(rows, TidyPort, PortGUIDOf, PortKeyOf, key, about, (v: ParsedPort) => v.lid, IsZero, m.lid);
    LastSaidAmong(rows, TidyPort, PortGUIDOf, PortKeyOf, key, about,
      (v: ParsedPort) => v.localPortNum, IsZero, m.localPortNum);
    LastSaidAmong(rows, TidyPort, PortGUIDOf, PortKeyOf, key, about,
      (v: ParsedPort) => v.portState, IsZero, m.portState);
    LastSaidAmong(rows, TidyPort, PortGUIDOf, PortKeyOf, key, about,
      (v: ParsedPort) => v.portPhyState, IsZero, m.portPhyState);
    LastSaidAmong(rows, TidyPort, PortGUIDOf, PortKeyOf, key, about,
      (v: ParsedPort) => v.linkWidthActive, IsZero, m.linkWidthActive);
    LastSaidAmong(rows, TidyPort, PortGUIDOf, PortKeyOf, key, about,
      (v: ParsedPort) => v.linkSpeedActive, IsZero, m.linkSpeedActive);
    LastSaidAmong(rows, TidyPort, PortGUIDOf, PortKeyOf, key, about, (v: ParsedPort) => v.rawJSON, IsBlank, m.rawJSON);
  }

  // ---- Order of first appearance ----

  ghost predicate AppearsBefore(raw: seq<string>, a: string, b: string, n: nat) {
    n <= |raw| && a in raw[..n] && b !in raw[..n]
  }

  ghost predicate IsSaidBefore(raw: seq<string>, a: string, b: string) {
    exists n: nat :: AppearsBefore(raw, a, b, n)
  }

  /** `out` has every non-empty string of `raw` once, in the order in which they first appear. */
  ghost predicate InOrderOfAppearance(out: seq<string>, raw: seq<string>) {
    && (forall g :: g in out <==> g in raw && g != "")
    && (forall i, j | 0 <= i < j < |out| :: IsSaidBefore(raw, out[i], out[j]))
  }

  predicate IsSaid(s: string) {
    s != ""
  }

  lemma LaterAppearance(raw: seq<string>, last: string, out: seq<string>)
    requires InOrderOfAppearance(out, raw)
    ensures InOrderOfAppearance(if last == "" || last in out then out else out + [last], raw + [last])
  {
    var all, out' := raw + [last], if last == "" || last in out then out else out + [last];
    assert forall g :: g in all <==> g in raw || g == last;
    assert forall g :: g in out' <==> g in out || (g == last && last != "");
    forall i, j | 0 <= i < j < |out'| ensures IsSaidBefore(all, out'[i], out'[j]) {
      if j < |out| {
        assert IsSaidBefore(raw, out[i], out[j]);
        var n: nat :| AppearsBefore(raw, out[i], out[j], n);
        assert all[..n] == raw[..n];
        assert AppearsBefore(all, out'[i], out'[j], n);
      } else {
        assert all[..|raw|] == raw && out[i] in out;
        assert AppearsBefore(all, out'[i], out'[j], |raw|);
      }
    }
  }

  lemma {:induction false} DedupKeepsAppearance(raw: seq<string>)
    ensures InOrderOfAppearance(Dedup(Filter(raw, IsSaid)), raw)
  {
    if raw != [] {
      var init, last := raw[..|raw| - 1], raw[|raw| - 1];
      var before := Filter(init, IsSaid);
      DedupKeepsAppearance(init);
      assert raw == init + [last];
      FilterAppend(init, [last], IsSaid);
      if IsSaid(last) {
        var said := before + [last];
        assert Filter(raw, IsSaid) == said && said[..|said| - 1] == before && said[|said| - 1] == last;
      } else {
        assert Filter(raw, IsSaid) == before + [] == before;
      }
      LaterAppearance(init, last, Dedup(before));
    }
  }

  /** The key each row is filed under, nothing for a row without a GUID. */
  function RawKeys<V>(rows: seq<V>, tidy: V -> V, guid: V -> string, key: V -> string): seq<string> {
    seq(|rows|, i requires 0 <= i < |rows| => if guid(tidy(rows[i])) == "" then "" else key(tidy(rows[i])))
  }

  lemma CleanKeysStep<V>(rows: seq<V>, n: nat, tidy: V -> V, guid: V -> string, key: V -> string)
    requires n < |rows|
    ensures Keys(Clean(rows[..n + 1], tidy, guid), key) == Keys(Clean(rows[..n], tidy, guid), key) +
      if guid(tidy(rows[n])) == "" then [] else [key(tidy(rows[n]))]
  {
    CleanStep(rows, n, tidy, guid);
  }

  lemma RawKeysStep<V>(rows: seq<V>, n: nat, tidy: V -> V, guid: V -> string, key: V -> string)
    requires n + 1 == |rows|
    ensures RawKeys(rows, tidy, guid, key) ==
      RawKeys(rows[..n], tidy, guid, key) + [if guid(tidy(rows[n])) == "" then "" else key(tidy(rows[n]))]
  {
  }

  lemma OneMoreRawKey<V>(rows: seq<V>, n: nat, tidy: V -> V, guid: V -> string, key: V -> string)
    requires n + 1 == |rows| && (guid(tidy(rows[n])) != "" ==> key(tidy(rows[n])) != "")
    requires Keys(Clean(rows[..n], tidy, guid), key) == Filter(RawKeys(rows[..n], tidy, guid, key), IsSaid)
    ensures Keys(Clean(rows, tidy, guid), key) == Filter(RawKeys(rows, tidy, guid, key), IsSaid)
  {
    hide RawKeys, Clean, Keys;
    var last := if guid(tidy(rows[n])) == "" then "" else key(tidy(rows[n]));
    RawKeysStep(rows, n, tidy, guid, key);
    FilterAppend(RawKeys(rows[..n], tidy, guid, key), [last], IsSaid);
    assert Filter([last], IsSaid) == if last == "" then [] else [last];
    assert rows[..n + 1] == rows;
    CleanKeysStep(rows, n, tidy, guid, key);
  }

  lemma {:induction false} CleanKeysAreRaw<V(!new)>(rows: seq<V>, tidy: V -> V, guid: V -> string, key: V -> string)
    requires forall v :: guid(v) != "" ==> key(v) != ""
    ensures Keys(Clean(rows, tidy, guid), key) == Filter(RawKeys(rows, tidy, guid, key), IsSaid)
  {
    if rows != [] {
      CleanKeysAreRaw(rows[..|rows| - 1], tidy, guid, key);
      OneMoreRawKey(rows, |rows| - 1, tidy, guid, key);
    }
  }

  function NodeGUID(n: ParsedNode): string {
    Text.TrimSpace(n.nodeGUID)
  }

  function InfoGUID(i: ParsedInfo): string {
    Text.TrimSpace(i.nodeGUID)
  }

  function PortGUID(p: ParsedPort): string {
    Text.TrimSpace(p.nodeGUID)
  }

  /** The GUIDs of all rows in the order nodes, infos, ports, without the white space around them. */
  function GUIDsSaid(parsed: ParsedLog): seq<string> {
    Keys(parsed.nodes, NodeGUID) + Keys(parsed.infos, InfoGUID) + Keys(parsed.ports, PortGUID)
  }

  lemma RawGUIDs<V(!new)>(rows: seq<V>, tidy: V -> V, guid: V -> string, trimmed: V -> string)
    requires forall v :: trimmed(v) == guid(tidy(v))
    ensures RawKeys(rows, tidy, guid, guid) == Keys(rows, trimmed)
  {
  }

  lemma GUIDsSaidAreRaw(parsed: ParsedLog)
    ensures GUIDsSaid(parsed) ==
      RawKeys(parsed.nodes, TidyNode, NodeKey, NodeKey) + (RawKeys(parsed.infos, TidyInfo, InfoKey, InfoKey) +
      RawKeys(parsed.ports, TidyPort, PortGUIDOf, PortGUIDOf))
  {
    RawGUIDs(parsed.nodes, TidyNode, NodeKey, NodeGUID);
    RawGUIDs(parsed.infos, TidyInfo, InfoKey, InfoGUID);
    RawGUIDs(parsed.ports, TidyPort, PortGUIDOf, PortGUID);
    hide RawKeys, Keys;
  }

  lemma FiltersAppend(a: seq<string>, b: seq<string>, c: seq<string>)
    ensures Filter(a + (b + c), IsSaid) == Filter(a, IsSaid) + (Filter(b, IsSaid) + Filter(c, IsSaid))
  {
    FilterAppend(a, b + c, IsSaid);
    FilterAppend(b, c, IsSaid);
  }

  lemma CleanGUIDsAreSaid(parsed: ParsedLog)
    ensures Keys(CleanNodes(parsed.nodes), NodeKey) + Mentioned(parsed) == Filter(GUIDsSaid(parsed), IsSaid)
  {
    GUIDsSaidAreRaw(parsed);
    CleanKeysAreRaw(parsed.nodes, TidyNode, NodeKey, NodeKey);
    CleanKeysAreRaw(parsed.infos, TidyInfo, InfoKey, InfoKey);
    CleanKeysAreRaw(parsed.ports, TidyPort, PortGUIDOf, PortGUIDOf);
    hide RawKeys, GUIDsSaid;
    FiltersAppend(RawKeys(parsed.nodes, TidyNode, NodeKey, NodeKey),
                  RawKeys(parsed.infos, TidyInfo, InfoKey, InfoKey),
                  RawKeys(parsed.ports, TidyPort, PortGUIDOf, PortGUIDOf));
  }

  lemma DedupAppears(out: seq<string>, said: seq<string>, raw: seq<string>)
    requires out == Dedup(said) && said == Filter(raw, IsSaid)
    ensures InOrderOfAppearance(out, raw)
  {
    DedupKeepsAppearance(raw);
  }

  /** The result has a node for every GUID that any row says, in the order in which they are first said. */
  lemma FinalNodesAppear(parsed: ParsedLog, f: ParsedLog)
    requires IsFinal(parsed, f)
    ensures InOrderOfAppearance(Keys(f.nodes, NodeKey), GUIDsSaid(parsed))
  {
    hide IsFinal, GUIDsSaid, InOrderOfAppearance;
    NodesAreKeyedFolds(parsed, f);
    CleanGUIDsAreSaid(parsed);
    DedupAppears(Keys(f.nodes, NodeKey), Keys(CleanNodes(parsed.nodes), NodeKey) + Mentioned(parsed),
                 GUIDsSaid(parsed));
  }

  /** It has an info for every GUID that an info row says, in that order. */
  lemma FinalInfosAppear(parsed: ParsedLog, f: ParsedLog)
    requires IsFinal(parsed, f)
    ensures InOrderOfAppearance(Keys(f.infos, InfoKey), GUIDsSaid(ParsedLog([], [], parsed.infos)))
  {
    hide GUIDsSaid, InOrderOfAppearance;
    var infos := ParsedLog([], [], parsed.infos);
    InfosKeepKeys(CleanInfos(parsed.infos), f.infos);
    CleanGUIDsAreSaid(infos);
    assert Keys(CleanNodes([]), NodeKey) + Mentioned(infos) == Keys(CleanInfos(parsed.infos), InfoKey);
    assert Keys(f.infos, InfoKey) == FirstKeys(CleanInfos(parsed.infos), InfoKey);
    DedupAppears(Keys(f.infos, InfoKey), Keys(CleanInfos(parsed.infos), InfoKey), GUIDsSaid(infos));
  }

  /** The keys of the port rows: node GUID, port GUID and number with bars between, nothing without a node GUID. */
  function KeysSaid(ports: seq<ParsedPort>): seq<string> {
    seq(|ports|, i requires 0 <= i < |ports| =>
      var guid := Text.TrimSpace(ports[i].nodeGUID);
      if guid == "" then "" else guid + "|" + ports[i].portGUID + "|" + Text.Itoa(ports[i].portNum))
  }

  /** It has a port for every such key, in that order, and each collects the rows filed under its key. */
  lemma FinalPortsCollect(parsed: ParsedLog, f: ParsedLog) returns (keys: seq<string>)
    requires IsFinal(parsed, f)
    ensures InOrderOfAppearance(keys, KeysSaid(parsed.ports)) && |keys| == |f.ports|
    ensures forall i | 0 <= i < |f.ports| :: CollectsPort(parsed.ports, keys[i], f.ports[i])
  {
    keys := FirstKeys(CleanPorts(parsed.ports), PortKeyOf);
    var raw := RawKeys(parsed.ports, TidyPort, PortGUIDOf, PortKeyOf);
    CleanKeysAreRaw(parsed.ports, TidyPort, PortGUIDOf, PortKeyOf);
    DedupKeepsAppearance(raw);
    assert raw == KeysSaid(parsed.ports);
    forall i | 0 <= i < |f.ports| ensures CollectsPort(parsed.ports, keys[i], f.ports[i]) {
      FinalPortFields(parsed, f, i, keys[i]);
    }
  }
}
