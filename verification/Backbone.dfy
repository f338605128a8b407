/**
 The second phase of edge inference: switches in id order, each linked to the next one through the first
 active ports the host phase left free. One `Hop` is one iteration of that loop.
 */
module Backbone {
  import opened Domain
  import opened Seqs
  import opened TopologyModel

  /** The ports an iteration found on the two switches; a link needs both. */
  datatype Hop = Hop(source: Option<Port>, target: Option<Port>) {
    predicate Linked() {
      source.Some? && target.Some?
    }
  }

  /** Switch ports by node id; a node id without ports reads as no ports. */
  type Groups = map<int, seq<Port>>

  function PortsAt(groups: Groups, nodeID: int): seq<Port> {
    if nodeID in groups then groups[nodeID] else []
  }

  function PortsOf(sp: seq<Port>, nodeID: int): seq<Port> {
    Filter(sp, (p: Port) => p.nodeID == nodeID)
  }

  lemma PortsOfNobody(sp: seq<Port>, nodeID: int)
    requires forall i | 0 <= i < |sp| :: sp[i].nodeID != nodeID
    ensures PortsOf(sp, nodeID) == []
  {
    FilterNone(sp, (p: Port) => p.nodeID == nodeID);
  }

  /** The groups split the ports `sp` by node, in the order of `sp`. */
  ghost predicate Splits(groups: Groups, sp: seq<Port>) {
    DistinctPortIDs(sp) && forall n :: PortsAt(groups, n) == PortsOf(sp, n)
  }

  lemma SameIDSamePort(groups: Groups, sp: seq<Port>, n: int, p: Port, m: int, q: Port)
    requires Splits(groups, sp)
    requires p in PortsAt(groups, n) && q in PortsAt(groups, m) && p.id == q.id
    ensures p == q && n == m
  {
    assert p in PortsOf(sp, n) && q in PortsOf(sp, m);
    var i :| 0 <= i < |sp| && sp[i] == p;
    var j :| 0 <= j < |sp| && sp[j] == q;
    assert PortID(sp[i]) == PortID(sp[j]);
  }

  lemma GroupIDsDistinct(groups: Groups, sp: seq<Port>, n: int)
    requires Splits(groups, sp)
    ensures DistinctPortIDs(PortsAt(groups, n))
  {
    FilterDistinctBy(sp, (p: Port) => p.nodeID == n, PortID);
    assert PortsAt(groups, n) == PortsOf(sp, n);
  }

  function FreePorts(ports: seq<Port>, used: set<int>): seq<Port> {
    Filter(ports, (p: Port) => p.id !in used)
  }

  method FirstUnusedPort(ports: seq<Port>, used: set<int>) returns (r: Option<Port>)
    ensures r == FirstUnused(ports, used)
  {
    for i := 0 to |ports|
      invariant FirstUnused(ports, used) == FirstUnused(ports[i..], used)
    {
      if ports[i].id !in used {
        return Some(ports[i]);
      }
    }
    return None;
  }

  function FirstUnused(ports: seq<Port>, used: set<int>): (r: Option<Port>)
    ensures r == if FreePorts(ports, used) == [] then None else Some(FreePorts(ports, used)[0])
  {
    if ports == [] then None
    else if ports[0].id !in used then Some(ports[0])
    else FirstUnused(ports[1..], used)
  }

  /**
   One iteration between switches `a` and `b`. The `eager` form is the one in the service: it marks the
   source port used before it looks at the target switch. The other form waits until both ports exist.
   */
  function TakeHop(groups: Groups, a: int, b: int, used: set<int>, eager: bool): Hop {
    match FirstUnused(PortsAt(groups, a), used)
    case None => Hop(None, None)
    case Some(source) =>
      Hop(Some(source), FirstUnused(PortsAt(groups, b), if eager then used + {source.id} else used))
  }

  function Marked(hop: Hop, eager: bool): set<int> {
    (if hop.source.Some? && (eager || hop.target.Some?) then {hop.source.value.id} else {}) +
    (if hop.target.Some? then {hop.target.value.id} else {})
  }

  function UsedAfter(used: set<int>, hops: seq<Hop>, eager: bool): set<int> {
    if hops == [] then used
    else UsedAfter(used, hops[..|hops| - 1], eager) + Marked(hops[|hops| - 1], eager)
  }

  /** The first `n` iterations. */
  function Hops(sw: seq<Node>, groups: Groups, used: set<int>, n: nat, eager: bool): (hops: seq<Hop>)
    requires n == 0 || n < |sw|
    ensures |hops| == n
  {
    if n == 0 then [] else
      var before := Hops(sw, groups, used, n - 1, eager);
      before + [TakeHop(groups, sw[n - 1].id, sw[n].id, UsedAfter(used, before, eager), eager)]
  }

  lemma {:induction false} HopsPrefix(sw: seq<Node>, groups: Groups, used: set<int>, k: nat, n: nat, eager: bool)
    requires k <= n && (n == 0 || n < |sw|)
    ensures Hops(sw, groups, used, n, eager)[..k] == Hops(sw, groups, used, k, eager)
  {
    hide TakeHop;
    if k < n {
      HopsPrefix(sw, groups, used, k, n - 1, eager);
    }
  }

  /** Iteration `k` works with the ports used by the host phase and the iterations before it. */
  lemma HopIsTaken(sw: seq<Node>, groups: Groups, used: set<int>, k: nat, n: nat, eager: bool)
    requires k < n < |sw|
    ensures Hops(sw, groups, used, n, eager)[k] ==
      TakeHop(groups, sw[k].id, sw[k + 1].id, UsedAfter(used, Hops(sw, groups, used, n, eager)[..k], eager), eager)
  {
    var hops, first := Hops(sw, groups, used, n, eager), Hops(sw, groups, used, k, eager);
    var upto := Hops(sw, groups, used, k + 1, eager);
    assert hops[..k] == first by { HopsPrefix(sw, groups, used, k, n, eager); }
    assert hops[..k + 1] == upto by { HopsPrefix(sw, groups, used, k + 1, n, eager); }
    HeadOfPrefix(hops, k);
    assert upto[k] == TakeHop(groups, sw[k].id, sw[k + 1].id, UsedAfter(used, first, eager), eager) by {
      LastHopIsTaken(sw, groups, used, k, eager);
    }
  }

  lemma HeadOfPrefix(hops: seq<Hop>, k: nat)
    requires k < |hops|
    ensures hops[k] == hops[..k + 1][k]
  {
  }

  lemma LastHopIsTaken(sw: seq<Node>, groups: Groups, used: set<int>, k: nat, eager: bool)
    requires k + 1 < |sw|
    ensures Hops(sw, groups, used, k + 1, eager)[k] ==
      TakeHop(groups, sw[k].id, sw[k + 1].id, UsedAfter(used, Hops(sw, groups, used, k, eager), eager), eager)
  {
  }

  // ---- Closed form of an iteration ----

  /** Ports of the k-th switch that the host phase left free, in order. */
  function FreeAt(sw: seq<Node>, groups: Groups, used: set<int>, k: nat): seq<Port>
    requires k < |sw|
  {
    FreePorts(PortsAt(groups, sw[k].id), used)
  }

  /** What iteration `k` must find, given whether the iteration before it made a link. */
  function ExpectedHop(sw: seq<Node>, groups: Groups, used: set<int>, k: nat, linkedBefore: bool): Hop
    requires k + 1 < |sw|
  {
    var here, there := FreeAt(sw, groups, used, k), FreeAt(sw, groups, used, k + 1);
    var spent := if linkedBefore then 1 else 0;
    if |here| <= spent then Hop(None, None)
    else Hop(Some(here[spent]), if there == [] then None else Some(there[0]))
  }

  predicate IsExpected(sw: seq<Node>, groups: Groups, used: set<int>, k: nat, hop: Hop)
    requires k + 1 < |sw|
  {
    hop == ExpectedHop(sw, groups, used, k, false) || hop == ExpectedHop(sw, groups, used, k, true)
  }

  lemma {:induction false} FreeAfterFirst(ports: seq<Port>, used: set<int>, used': set<int>)
    requires DistinctPortIDs(ports)
    requires FreePorts(ports, used) != []
    requires forall p | p in ports :: p.id in used' <==> p.id in used || p == FreePorts(ports, used)[0]
    ensures FreePorts(ports, used') == FreePorts(ports, used)[1..]
  {
    if ports[0].id in used {
      FreeAfterFirst(ports[1..], used, used');
    } else {
      assert FreePorts(ports, used)[0] == ports[0];
      forall p | p in ports[1..] ensures p.id in used' <==> p.id in used {
        assert PortID(p) != PortID(ports[0]);
      }
      FilterSameOn(ports[1..], (p: Port) => p.id !in used', (p: Port) => p.id !in used);
    }
  }

  lemma FreeUnchanged(ports: seq<Port>, used: set<int>, used': set<int>)
    requires forall p | p in ports :: p.id in used' <==> p.id in used
    ensures FreePorts(ports, used') == FreePorts(ports, used)
  {
    FilterSameOn(ports, (p: Port) => p.id !in used', (p: Port) => p.id !in used);
  }

  /** On these ports, `now` has used what `used` has, and `extra`. */
  ghost predicate UsedExactly(ports: seq<Port>, used: set<int>, now: set<int>, extra: Option<Port>) {
    forall p | p in ports :: p.id in now <==> p.id in used || extra == Some(p)
  }

  /**
   Before iteration `k`, switches from `k` on have lost at most the one port that iteration `k - 1` took on switch
   `k`.
   */
  ghost predicate OnlyTargetTaken(sw: seq<Node>, groups: Groups, used: set<int>, hops: seq<Hop>, eager: bool) {
    forall j | |hops| <= j < |sw| ::
      UsedExactly(PortsAt(groups, sw[j].id), used, UsedAfter(used, hops, eager),
        if j == |hops| && 0 < j then hops[j - 1].target else None)
  }

  lemma HopTakesFromItsSwitches(groups: Groups, a: int, b: int, used: set<int>, eager: bool)
    ensures var h := TakeHop(groups, a, b, used, eager);
      && (h.source.Some? ==> h.source.value in PortsAt(groups, a) && h.source.value.id !in used)
      && (h.target.Some? ==> h.source.Some? && h.target.value in PortsAt(groups, b) && h.target.value.id !in used)
      && (h.target.Some? && eager ==> h.target.value.id != h.source.value.id)
  {
  }

  /** A port of one switch is not among the ports of another, so using it up changes nothing there. */
  lemma FreeElsewhere(groups: Groups, sp: seq<Port>, a: int, b: int, used: set<int>, now: set<int>, source: Port)
    requires Splits(groups, sp) && a != b && source in PortsAt(groups, a)
    requires forall p | p in PortsAt(groups, b) :: p.id in now <==> p.id in used
    ensures FreePorts(PortsAt(groups, b), now + {source.id}) == FreePorts(PortsAt(groups, b), used)
  {
    var there := PortsAt(groups, b);
    forall p | p in there ensures p.id != source.id {
      if p.id == source.id {
        SameIDSamePort(groups, sp, a, source, b, p);
      }
    }
    FreeUnchanged(there, used, now + {source.id});
  }

  /** What an iteration finds free on its own switch: all but the port the link before took. */
  lemma FreeHere(sw: seq<Node>, groups: Groups, sp: seq<Port>, used: set<int>, hops: seq<Hop>, eager: bool)
    requires Splits(groups, sp) && |hops| < |sw|
    requires OnlyTargetTaken(sw, groups, used, hops, eager)
    requires 0 < |hops| && hops[|hops| - 1].target.Some? ==>
      var free := FreeAt(sw, groups, used, |hops|);
      hops[|hops| - 1].Linked() && free != [] && hops[|hops| - 1].target == Some(free[0])
    ensures var k, free := |hops|, FreeAt(sw, groups, used, |hops|);
      FreePorts(PortsAt(groups, sw[k].id), UsedAfter(used, hops, eager)) ==
      if 0 < k && hops[k - 1].Linked() then free[1..] else free
  {
    var k, now := |hops|, UsedAfter(used, hops, eager);
    var here := PortsAt(groups, sw[k].id);
    if 0 < k && hops[k - 1].Linked() {
      GroupIDsDistinct(groups, sp, sw[k].id);
      FreeAfterFirst(here, used, now);
    } else {
      FreeUnchanged(here, used, now);
    }
  }

  /** What it finds free on the next switch: everything the host phase left. */
  lemma FreeThere(sw: seq<Node>, groups: Groups, sp: seq<Port>, used: set<int>, hops: seq<Hop>, eager: bool,
                  source: Port)
    requires Splits(groups, sp) && DistinctNodeIDs(sw) && |hops| + 1 < |sw|
    requires OnlyTargetTaken(sw, groups, used, hops, eager)
    requires source in PortsAt(groups, sw[|hops|].id)
    ensures var now := UsedAfter(used, hops, eager);
      FreePorts(PortsAt(groups, sw[|hops| + 1].id), if eager then now + {source.id} else now) ==
      FreeAt(sw, groups, used, |hops| + 1)
  {
    hide Splits;
    var k, now := |hops|, UsedAfter(used, hops, eager);
    assert NodeID(sw[k]) != NodeID(sw[k + 1]);
    FreeUnchanged(PortsAt(groups, sw[k + 1].id), used, now);
    FreeElsewhere(groups, sp, sw[k].id, sw[k + 1].id, used, now, source);
  }

  lemma HopTakesFirstFree(groups: Groups, a: int, b: int, now: set<int>, eager: bool, here: seq<Port>,
                          there: seq<Port>)
    requires here == FreePorts(PortsAt(groups, a), now)
    requires here != [] ==> there == FreePorts(PortsAt(groups, b), if eager then now + {here[0].id} else now)
    ensures TakeHop(groups, a, b, now, eager) ==
      if here == [] then Hop(None, None) else Hop(Some(here[0]), if there == [] then None else Some(there[0]))
  {
  }

  lemma OneHop(sw: seq<Node>, groups: Groups, sp: seq<Port>, used: set<int>, hops: seq<Hop>, eager: bool)
    requires Splits(groups, sp) && DistinctNodeIDs(sw)
    requires |hops| + 1 < |sw|
    requires OnlyTargetTaken(sw, groups, used, hops, eager)
    requires 0 < |hops| && hops[|hops| - 1].target.Some? ==>
      var free := FreeAt(sw, groups, used, |hops|);
      hops[|hops| - 1].Linked() && free != [] && hops[|hops| - 1].target == Some(free[0])
    ensures var k := |hops|;
      TakeHop(groups, sw[k].id, sw[k + 1].id, UsedAfter(used, hops, eager), eager) ==
      ExpectedHop(sw, groups, used, k, 0 < k && hops[k - 1].Linked())
  {
    hide Splits, OnlyTargetTaken, TakeHop, UsedAfter, FreeAt;
    var k, now := |hops|, UsedAfter(used, hops, eager);
    var here := FreePorts(PortsAt(groups, sw[k].id), now);
    FreeHere(sw, groups, sp, used, hops, eager);
    if here != [] {
      assert here[0] in here;
      FreeThere(sw, groups, sp, used, hops, eager, here[0]);
    }
    HopTakesFirstFree(groups, sw[k].id, sw[k + 1].id, now, eager, here, FreeAt(sw, groups, used, k + 1));
  }

  lemma MarkedElsewhere(groups: Groups, sp: seq<Port>, a: int, b: int, c: int, used: set<int>, now: set<int>, h: Hop,
                        eager: bool)
    requires Splits(groups, sp) && a != c && b != c
    requires h == TakeHop(groups, a, b, now, eager)
    requires UsedExactly(PortsAt(groups, c), used, now, None)
    ensures UsedExactly(PortsAt(groups, c), used, now + Marked(h, eager), None)
  {
    hide Splits, TakeHop, PortsAt;
    HopTakesFromItsSwitches(groups, a, b, now, eager);
    forall p | p in PortsAt(groups, c) ensures p.id !in Marked(h, eager) {
      if h.source.Some? && h.source.value.id == p.id {
        SameIDSamePort(groups, sp, a, h.source.value, c, p);
      }
      if h.target.Some? && h.target.value.id == p.id {
        SameIDSamePort(groups, sp, b, h.target.value, c, p);
      }
    }
  }

  lemma MarkedAtTarget(groups: Groups, sp: seq<Port>, a: int, b: int, used: set<int>, now: set<int>, h: Hop,
                       eager: bool)
    requires Splits(groups, sp) && a != b
    requires h == TakeHop(groups, a, b, now, eager)
    requires UsedExactly(PortsAt(groups, b), used, now, None)
    ensures UsedExactly(PortsAt(groups, b), used, now + Marked(h, eager), h.target)
  {
    hide Splits, TakeHop, PortsAt;
    HopTakesFromItsSwitches(groups, a, b, now, eager);
    forall p | p in PortsAt(groups, b) ensures p.id in Marked(h, eager) <==> h.target == Some(p) {
      if h.source.Some? && h.source.value.id == p.id {
        SameIDSamePort(groups, sp, a, h.source.value, b, p);
      }
      if h.target.Some? && h.target.value.id == p.id {
        SameIDSamePort(groups, sp, b, h.target.value, b, p);
      }
    }
  }

  lemma TakenAfterHop(sw: seq<Node>, groups: Groups, sp: seq<Port>, used: set<int>, hops: seq<Hop>, next: Hop,
                      eager: bool)
    requires Splits(groups, sp) && DistinctNodeIDs(sw)
    requires |hops| + 1 < |sw|
    requires OnlyTargetTaken(sw, groups, used, hops, eager)
    requires next == TakeHop(groups, sw[|hops|].id, sw[|hops| + 1].id, UsedAfter(used, hops, eager), eager)
    ensures OnlyTargetTaken(sw, groups, used, hops + [next], eager)
  {
    hide Splits, PortsAt, TakeHop;
    var k := |hops|;
    var now := UsedAfter(used, hops, eager);
    var all := hops + [next];
    assert all[..k] == hops && UsedAfter(used, all, eager) == now + Marked(next, eager);
    forall j | k + 1 <= j < |sw|
      ensures UsedExactly(PortsAt(groups, sw[j].id), used, now + Marked(next, eager),
                          if j == k + 1 then next.target else None)
    {
      assert NodeID(sw[k]) != NodeID(sw[j]);
      if j == k + 1 {
        MarkedAtTarget(groups, sp, sw[k].id, sw[j].id, used, now, next, eager);
      } else {
        assert NodeID(sw[k + 1]) != NodeID(sw[j]);
        MarkedElsewhere(groups, sp, sw[k].id, sw[k + 1].id, sw[j].id, used, now, next, eager);
      }
    }
  }

  /** Every iteration, eager or not, finds exactly the expected ports. */
  lemma {:induction false} HopClosedForm(sw: seq<Node>, groups: Groups, sp: seq<Port>, used: set<int>, n: nat,
                                         eager: bool)
    requires Splits(groups, sp) && DistinctNodeIDs(sw)
    requires n == 0 || n < |sw|
    ensures OnlyTargetTaken(sw, groups, used, Hops(sw, groups, used, n, eager), eager)
    ensures 0 < n ==> Hops(sw, groups, used, n, eager)[n - 1] == ExpectedHop(sw, groups, used, n - 1,
      1 < n && Hops(sw, groups, used, n - 1, eager)[n - 2].Linked())
  {
    hide Splits, TakeHop;
    if 0 < n {
      var before := Hops(sw, groups, used, n - 1, eager);
      HopClosedForm(sw, groups, sp, used, n - 1, eager);
      NextHopClosedForm(sw, groups, sp, used, before, eager);
      HopsStep(sw, groups, used, n - 1, eager);
    }
  }

  lemma HopsStep(sw: seq<Node>, groups: Groups, used: set<int>, n: nat, eager: bool)
    requires n + 1 < |sw|
    ensures var before := Hops(sw, groups, used, n, eager);
      Hops(sw, groups, used, n + 1, eager) ==
        before + [TakeHop(groups, sw[n].id, sw[n + 1].id, UsedAfter(used, before, eager), eager)]
  {
  }

  lemma NextHopClosedForm(sw: seq<Node>, groups: Groups, sp: seq<Port>, used: set<int>, before: seq<Hop>, eager: bool)
    requires Splits(groups, sp) && DistinctNodeIDs(sw) && |before| + 1 < |sw|
    requires OnlyTargetTaken(sw, groups, used, before, eager)
    requires 0 < |before| ==> IsExpected(sw, groups, used, |before| - 1, before[|before| - 1])
    ensures var k := |before|;
      var next := TakeHop(groups, sw[k].id, sw[k + 1].id, UsedAfter(used, before, eager), eager);
      && OnlyTargetTaken(sw, groups, used, before + [next], eager)
      && next == ExpectedHop(sw, groups, used, k, 0 < k && before[k - 1].Linked())
  {
    hide Splits, FreeAt, TakeHop;
    var k := |before|;
    var next := TakeHop(groups, sw[k].id, sw[k + 1].id, UsedAfter(used, before, eager), eager);
    assert next == ExpectedHop(sw, groups, used, k, 0 < k && before[k - 1].Linked()) by {
      ExpectedTarget(sw, groups, used, before);
      OneHop(sw, groups, sp, used, before, eager);
    }
    TakenAfterHop(sw, groups, sp, used, before, next, eager);
  }

  lemma ExpectedTarget(sw: seq<Node>, groups: Groups, used: set<int>, before: seq<Hop>)
    requires |before| + 1 < |sw|
    requires 0 < |before| ==> IsExpected(sw, groups, used, |before| - 1, before[|before| - 1])
    ensures 0 < |before| && before[|before| - 1].target.Some? ==>
      var free := FreeAt(sw, groups, used, |before|);
      before[|before| - 1].Linked() && free != [] && before[|before| - 1].target == Some(free[0])
  {
  }

  lemma HopInRun(sw: seq<Node>, groups: Groups, sp: seq<Port>, used: set<int>, k: nat, n: nat, eager: bool)
    requires Splits(groups, sp) && DistinctNodeIDs(sw)
    requires k < n < |sw|
    ensures Hops(sw, groups, used, n, eager)[k] ==
      ExpectedHop(sw, groups, used, k, 0 < k && Hops(sw, groups, used, n, eager)[k - 1].Linked())
  {
    HopsPrefix(sw, groups, used, k, n, eager);
    HopsPrefix(sw, groups, used, k + 1, n, eager);
    HopClosedForm(sw, groups, sp, used, k + 1, eager);
    var hops := Hops(sw, groups, used, n, eager);
    assert hops[k] == hops[..k + 1][k] && (0 < k ==> hops[k - 1] == hops[..k][k - 1]);
  }

  /** Number of ports iteration `k` finds spent on its own switch: the one the link before it took, if there was one. */
  function SpentBefore(hops: seq<Hop>, k: nat): nat
    requires k < |hops|
  {
    if 0 < k && hops[k - 1].Linked() then 1 else 0
  }

  /**
   Iteration `k` makes a link exactly when its switch has a port left after the link before, and the next has one at
   all.
   */
  lemma LinkExistsIff(sw: seq<Node>, groups: Groups, sp: seq<Port>, used: set<int>, k: nat, n: nat, eager: bool)
    requires Splits(groups, sp) && DistinctNodeIDs(sw)
    requires k < n < |sw|
    ensures Hops(sw, groups, used, n, eager)[k].Linked() <==>
      && |FreeAt(sw, groups, used, k)| - SpentBefore(Hops(sw, groups, used, n, eager), k) >= 1
      && |FreeAt(sw, groups, used, k + 1)| >= 1
  {
    HopInRun(sw, groups, sp, used, k, n, eager);
  }

  lemma {:induction false} SameHop(sw: seq<Node>, groups: Groups, sp: seq<Port>, used: set<int>, k: nat, n: nat)
    requires Splits(groups, sp) && DistinctNodeIDs(sw)
    requires k < n < |sw|
    ensures Hops(sw, groups, used, n, true)[k] == Hops(sw, groups, used, n, false)[k]
  {
    hide Splits, FreeAt, Hops;
    if 0 < k {
      SameHop(sw, groups, sp, used, k - 1, n);
    }
    HopInRun(sw, groups, sp, used, k, n, true);
    HopInRun(sw, groups, sp, used, k, n, false);
  }

  /** Marking the source port early is unobservable: both forms of the loop find the same ports. */
  lemma EagerMarkingIsUnobservable(sw: seq<Node>, groups: Groups, sp: seq<Port>, used: set<int>, n: nat)
    requires Splits(groups, sp) && DistinctNodeIDs(sw)
    requires n == 0 || n < |sw|
    ensures Hops(sw, groups, used, n, true) == Hops(sw, groups, used, n, false)
  {
    forall k | 0 <= k < n ensures Hops(sw, groups, used, n, true)[k] == Hops(sw, groups, used, n, false)[k] {
      SameHop(sw, groups, sp, used, k, n);
    }
  }

  // ---- Maximality ----

  /**
   A set of links between neighbouring switches, any ports: `links[k]` names the port of switch `k` and the
   port of switch `k + 1` that it connects. Ports must have been left free by the host phase, and no port
   serves two links.
   */
  ghost predicate IsBackbone(sw: seq<Node>, groups: Groups, used: set<int>, links: seq<Hop>) {
    && |links| + 1 == |sw|
    && (forall k | 0 <= k < |links| && links[k].Linked() ::
          links[k].source.value in FreeAt(sw, groups, used, k)
          && links[k].target.value in FreeAt(sw, groups, used, k + 1))
    && (forall k | 0 < k < |links| && links[k - 1].Linked() && links[k].Linked() ::
          links[k - 1].target.value != links[k].source.value)
  }

  function LinksIn(hops: seq<Hop>): nat {
    if hops == [] then 0
    else LinksIn(hops[..|hops| - 1]) + if hops[|hops| - 1].Linked() then 1 else 0
  }

  /** The loop itself produces such a set of links. */
  lemma HopsAreABackbone(sw: seq<Node>, groups: Groups, sp: seq<Port>, used: set<int>)
    requires Splits(groups, sp) && DistinctNodeIDs(sw) && sw != []
    ensures IsBackbone(sw, groups, used, Hops(sw, groups, used, |sw| - 1, true))
  {
    hide Splits, Hops;
    var n := |sw| - 1;
    var hops := Hops(sw, groups, used, n, true);
    forall k | 0 <= k < n
      ensures hops[k].Linked() ==>
        && hops[k].source.value in FreeAt(sw, groups, used, k)
        && hops[k].target.value in FreeAt(sw, groups, used, k + 1)
        && (0 < k && hops[k - 1].Linked() ==> hops[k - 1].target.value != hops[k].source.value)
    {
      HopInRun(sw, groups, sp, used, k, n, true);
      if 0 < k && hops[k].Linked() && hops[k - 1].Linked() {
        HopInRun(sw, groups, sp, used, k - 1, n, true);
        GroupIDsDistinct(groups, sp, sw[k].id);
        FilterDistinctBy(PortsAt(groups, sw[k].id), (p: Port) => p.id !in used, PortID);
        var free := FreeAt(sw, groups, used, k);
        assert PortID(free[0]) != PortID(free[1]);
      }
    }
  }

  /** Two links at a switch need two free ports there. */
  lemma NeighbouringLinksNeedTwoPorts(sw: seq<Node>, groups: Groups, used: set<int>, links: seq<Hop>, k: nat)
    requires IsBackbone(sw, groups, used, links)
    requires 0 < k < |links| && links[k - 1].Linked() && links[k].Linked()
    ensures |FreeAt(sw, groups, used, k)| >= 2
  {
    var free := FreeAt(sw, groups, used, k);
    var i :| 0 <= i < |free| && free[i] == links[k - 1].target.value;
    var j :| 0 <= j < |free| && free[j] == links[k].source.value;
    assert i != j;
  }

  lemma LinksInStep(hops: seq<Hop>, k: nat)
    requires k < |hops|
    ensures LinksIn(hops[..k + 1]) == LinksIn(hops[..k]) + if hops[k].Linked() then 1 else 0
  {
    assert hops[..k + 1][..k] == hops[..k];
  }

  lemma LinkNeedsPorts(sw: seq<Node>, groups: Groups, used: set<int>, links: seq<Hop>, k: nat)
    requires IsBackbone(sw, groups, used, links)
    requires k < |links| && links[k].Linked()
    ensures |FreeAt(sw, groups, used, k)| >= 1 && |FreeAt(sw, groups, used, k + 1)| >= 1
  {
  }

  /** Where `links` goes on and `hops` does not, `hops` made a link just before and `links` did not. */
  ghost predicate NeverFallsBehind(links: seq<Hop>, hops: seq<Hop>) {
    && |links| == |hops|
    && forall k | 0 <= k < |links| :: links[k].Linked() && !hops[k].Linked() ==>
         0 < k && hops[k - 1].Linked() && !links[k - 1].Linked()
  }

  lemma LoopStopsForCause(sw: seq<Node>, groups: Groups, sp: seq<Port>, used: set<int>, k: nat, n: nat)
    requires Splits(groups, sp) && DistinctNodeIDs(sw)
    requires k < n < |sw| && !Hops(sw, groups, used, n, true)[k].Linked()
    requires |FreeAt(sw, groups, used, k)| >= 1 && |FreeAt(sw, groups, used, k + 1)| >= 1
    ensures 0 < k && Hops(sw, groups, used, n, true)[k - 1].Linked() && |FreeAt(sw, groups, used, k)| == 1
  {
    LinkExistsIff(sw, groups, sp, used, k, n, true);
  }

  lemma LoopNeverFallsBehind(sw: seq<Node>, groups: Groups, sp: seq<Port>, used: set<int>, links: seq<Hop>,
                             hops: seq<Hop>)
    requires Splits(groups, sp) && DistinctNodeIDs(sw)
    requires IsBackbone(sw, groups, used, links)
    requires hops == Hops(sw, groups, used, |sw| - 1, true)
    ensures NeverFallsBehind(links, hops)
  {
    hide Splits, FreeAt, Hops;
    forall k | 0 <= k < |links| && links[k].Linked() && !hops[k].Linked()
      ensures 0 < k && hops[k - 1].Linked() && !links[k - 1].Linked()
    {
      LinkNeedsPorts(sw, groups, used, links, k);
      LoopStopsForCause(sw, groups, sp, used, k, |sw| - 1);
      if links[k - 1].Linked() {
        NeighbouringLinksNeedTwoPorts(sw, groups, used, links, k);
      }
    }
  }

  /** The loop stays ahead of any other set of links, switch by switch. */
  lemma {:induction false} StaysAhead(links: seq<Hop>, hops: seq<Hop>, k: nat)
    requires NeverFallsBehind(links, hops) && k <= |links|
    ensures LinksIn(links[..k]) <= LinksIn(hops[..k])
  {
    if 0 < k {
      StaysAhead(links, hops, k - 1);
      LinksInStep(links, k - 1);
      LinksInStep(hops, k - 1);
      if links[k - 1].Linked() && !hops[k - 1].Linked() {
        StaysAhead(links, hops, k - 2);
        LinksInStep(links, k - 2);
        LinksInStep(hops, k - 2);
      }
    }
  }

  /** The backbone is maximum: no set of links over the ports left by the host phase has more of them. */
  lemma BackboneIsMaximum(sw: seq<Node>, groups: Groups, sp: seq<Port>, used: set<int>, links: seq<Hop>)
    requires Splits(groups, sp) && DistinctNodeIDs(sw)
    requires IsBackbone(sw, groups, used, links)
    ensures LinksIn(links) <= LinksIn(Hops(sw, groups, used, |sw| - 1, true))
  {
    var hops := Hops(sw, groups, used, |sw| - 1, true);
    LoopNeverFallsBehind(sw, groups, sp, used, links, hops);
    StaysAhead(links, hops, |links|);
    assert links[..|links|] == links && hops[..|links|] == hops;
  }
}
