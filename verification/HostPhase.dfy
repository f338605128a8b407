/**
 The first phase of edge inference. Host ports are served in sorted order, each taking the free switch
 port it likes best: an exact link match before any other, and then the earlier sorted position.

 A choice is recorded as a position in the sorted switch ports; `None` is a host port left without a link.
 */
module HostPhase {
  import opened Domain
  import opened TopologyModel
  import opened SetSizes

  /** `h` ranks position `j` of the switch ports before position `k`. */
  predicate Prefers(h: Port, sp: seq<Port>, j: nat, k: nat)
    requires j < |sp| && k < |sp|
  {
    || (SameLink(h, sp[j]) && !SameLink(h, sp[k]))
    || (SameLink(h, sp[j]) == SameLink(h, sp[k]) && j < k)
  }

  /** `r` is the favourite of `h` among the ports whose id is not used. */
  ghost predicate IsFavourite(h: Port, sp: seq<Port>, used: set<int>, r: Option<nat>) {
    match r
    case None => forall k | 0 <= k < |sp| :: sp[k].id in used
    case Some(j) =>
      && j < |sp| && sp[j].id !in used
      && forall k | 0 <= k < |sp| && sp[k].id !in used && k != j :: Prefers(h, sp, j, k)
  }

  /** First free position from `i` on; with `exact`, first free position with the same link. */
  function FirstFree(h: Port, sp: seq<Port>, used: set<int>, exact: bool, i: nat): (r: nat)
    requires i <= |sp|
    ensures i <= r <= |sp|
    ensures r < |sp| ==> sp[r].id !in used && (exact ==> SameLink(h, sp[r]))
    ensures forall k | i <= k < r :: sp[k].id in used || (exact && !SameLink(h, sp[k]))
    decreases |sp| - i
  {
    if i == |sp| || (sp[i].id !in used && (exact ==> SameLink(h, sp[i]))) then i
    else FirstFree(h, sp, used, exact, i + 1)
  }

  function Favourite(h: Port, sp: seq<Port>, used: set<int>): (r: Option<nat>)
    ensures IsFavourite(h, sp, used, r)
  {
    var matching := FirstFree(h, sp, used, true, 0);
    if matching < |sp| then Some(matching)
    else
      var any := FirstFree(h, sp, used, false, 0);
      if any < |sp| then Some(any) else None
  }

  lemma FavouriteUnique(h: Port, sp: seq<Port>, used: set<int>, r: Option<nat>)
    requires IsFavourite(h, sp, used, r)
    ensures r == Favourite(h, sp, used)
  {
  }

  /**
   The same choice, told by widths and speeds alone: the first free port of the host port's width and speed, both of
   them known, if there is one; otherwise the first free port of all.
   */
  ghost predicate TakesByLink(h: Port, sp: seq<Port>, used: set<int>, r: Option<nat>) {
    && (r.None? ==> forall k | 0 <= k < |sp| :: sp[k].id in used)
    && (r.Some? ==> r.value < |sp| && sp[r.value].id !in used)
    && (forall k: nat | k < |sp| && sp[k].id !in used
          && sp[k].linkWidthActive == h.linkWidthActive != 0 && sp[k].linkSpeedActive == h.linkSpeedActive != 0 ::
          && r.Some? && r.value <= k
          && sp[r.value].linkWidthActive == h.linkWidthActive && sp[r.value].linkSpeedActive == h.linkSpeedActive)
    && (forall k: nat | r.Some? && k < r.value && sp[k].id !in used ::
          && sp[r.value].linkWidthActive == h.linkWidthActive != 0
          && sp[r.value].linkSpeedActive == h.linkSpeedActive != 0)
  }

  lemma FavouriteTakesByLink(h: Port, sp: seq<Port>, used: set<int>, r: Option<nat>)
    requires IsFavourite(h, sp, used, r)
    ensures TakesByLink(h, sp, used, r)
  {
    forall k: nat | k < |sp| && sp[k].id !in used && r.Some? && k != r.value
      ensures Prefers(h, sp, r.value, k)
    {
    }
  }

  method PickSwitchPort(h: Port, sp: seq<Port>, used: set<int>) returns (r: Option<nat>)
    ensures IsFavourite(h, sp, used, r)
    ensures TakesByLink(h, sp, used, r)
  {
    for i := 0 to |sp|
      invariant forall k | 0 <= k < i :: sp[k].id in used || !SameLink(h, sp[k])
    {
      if sp[i].id in used {
        continue;
      }
      if SameLink(h, sp[i]) {
        FavouriteTakesByLink(h, sp, used, Some(i));
        return Some(i);
      }
    }
    for i := 0 to |sp|
      invariant forall k | 0 <= k < i :: sp[k].id in used
    {
      if sp[i].id !in used {
        FavouriteTakesByLink(h, sp, used, Some(i));
        return Some(i);
      }
    }
    return None;
  }

  /** Ids of the switch ports behind a list of choices. */
  function TakenIDs(sp: seq<Port>, picks: seq<Option<nat>>): set<int> {
    set i | 0 <= i < |picks| && picks[i].Some? && picks[i].value < |sp| :: sp[picks[i].value].id
  }

  function TakenPositions(picks: seq<Option<nat>>): set<nat> {
    set i | 0 <= i < |picks| && picks[i].Some? :: picks[i].value
  }

  /** The choices of the phase, one per host port. */
  function HostPicks(hp: seq<Port>, sp: seq<Port>): (picks: seq<Option<nat>>)
    ensures |picks| == |hp|
    ensures forall i | 0 <= i < |picks| && picks[i].Some? :: picks[i].value < |sp|
  {
    if hp == [] then [] else
      var before := HostPicks(hp[..|hp| - 1], sp);
      before + [Favourite(hp[|hp| - 1], sp, TakenIDs(sp, before))]
  }

  lemma TakenIDsStep(sp: seq<Port>, picks: seq<Option<nat>>, pick: Option<nat>)
    requires pick.Some? ==> pick.value < |sp|
    ensures TakenIDs(sp, picks + [pick]) == TakenIDs(sp, picks) + if pick.Some? then {sp[pick.value].id} else {}
  {
    var all := picks + [pick];
    forall i | 0 <= i < |picks| ensures all[i] == picks[i] {}
    if pick.Some? {
      assert all[|picks|] == pick;
    }
  }

  lemma {:induction false} HostPicksPrefix(hp: seq<Port>, sp: seq<Port>, n: nat)
    requires n <= |hp|
    ensures HostPicks(hp, sp)[..n] == HostPicks(hp[..n], sp)
  {
    if n < |hp| {
      assert hp[..|hp| - 1][..n] == hp[..n];
      HostPicksPrefix(hp[..|hp| - 1], sp, n);
    } else {
      assert hp[..n] == hp;
    }
  }

  /** Each host port gets its favourite among what the earlier ones left. */
  lemma HostPickIsFavourite(hp: seq<Port>, sp: seq<Port>, i: nat)
    requires i < |hp|
    ensures IsFavourite(hp[i], sp, TakenIDs(sp, HostPicks(hp, sp)[..i]), HostPicks(hp, sp)[i])
  {
    HostPicksPrefix(hp, sp, i);
    HostPicksPrefix(hp, sp, i + 1);
    assert hp[..i + 1][..i] == hp[..i];
    assert HostPicks(hp, sp)[i] == HostPicks(hp, sp)[..i + 1][i];
  }

  /** In fields: host port `i` takes by link among the ports that the earlier host ports did not take. */
  lemma HostPicksTakeByLink(hp: seq<Port>, sp: seq<Port>, i: nat)
    requires i < |hp|
    ensures TakesByLink(hp[i], sp, TakenIDs(sp, HostPicks(hp, sp)[..i]), HostPicks(hp, sp)[i])
  {
    HostPickIsFavourite(hp, sp, i);
    FavouriteTakesByLink(hp[i], sp, TakenIDs(sp, HostPicks(hp, sp)[..i]), HostPicks(hp, sp)[i]);
  }

  /** Any way to give host ports different switch ports. */
  ghost predicate IsMatching(hp: seq<Port>, sp: seq<Port>, m: seq<Option<nat>>) {
    && |m| == |hp|
    && (forall i | 0 <= i < |m| && m[i].Some? :: m[i].value < |sp|)
    && (forall i, j | 0 <= i < j < |m| && m[i].Some? && m[j].Some? :: m[i] != m[j])
  }

  /** With distinct ids, a position is taken exactly when its id is. */
  lemma TakenMeansChosen(sp: seq<Port>, picks: seq<Option<nat>>, k: nat)
    requires DistinctPortIDs(sp)
    requires forall i | 0 <= i < |picks| && picks[i].Some? :: picks[i].value < |sp|
    requires k < |sp|
    ensures sp[k].id in TakenIDs(sp, picks) <==> Some(k) in picks
  {
    if Some(k) in picks {
      var i :| 0 <= i < |picks| && picks[i] == Some(k);
    }
    forall i | 0 <= i < |picks| && picks[i].Some? && sp[picks[i].value].id == sp[k].id ensures picks[i] == Some(k) {
      assert PortID(sp[picks[i].value]) == PortID(sp[k]);
    }
  }

  /** The phase hands out every switch port at most once. */
  lemma HostPicksAreAMatching(hp: seq<Port>, sp: seq<Port>)
    requires DistinctPortIDs(sp)
    ensures IsMatching(hp, sp, HostPicks(hp, sp))
  {
    var picks := HostPicks(hp, sp);
    forall i, j | 0 <= i < j < |picks| && picks[i].Some? && picks[j].Some? ensures picks[i] != picks[j] {
      HostPickIsFavourite(hp, sp, j);
      TakenMeansChosen(sp, picks[..j], picks[j].value);
      assert picks[i] == picks[..j][i];
    }
  }

  /** For `h`, ending up with `a` is no worse than ending up with `b`. */
  predicate AtLeastAsGood(h: Port, sp: seq<Port>, a: Option<nat>, b: Option<nat>)
    requires a.Some? ==> a.value < |sp|
    requires b.Some? ==> b.value < |sp|
  {
    b.None? || (a.Some? && (a == b || Prefers(h, sp, a.value, b.value)))
  }

  lemma OnlyFavouriteIsAsGood(h: Port, sp: seq<Port>, used: set<int>, favourite: Option<nat>, a: Option<nat>)
    requires IsFavourite(h, sp, used, favourite)
    requires a.Some? ==> a.value < |sp| && sp[a.value].id !in used
    requires AtLeastAsGood(h, sp, a, favourite)
    ensures a == favourite
  {
  }

  lemma ChoiceIsFree(hp: seq<Port>, sp: seq<Port>, m: seq<Option<nat>>, i: nat)
    requires DistinctPortIDs(sp) && IsMatching(hp, sp, m)
    requires i < |m| && m[i].Some?
    ensures sp[m[i].value].id !in TakenIDs(sp, m[..i])
  {
    TakenMeansChosen(sp, m[..i], m[i].value);
    assert forall j | 0 <= j < i :: m[..i][j] == m[j] && m[j] != m[i];
  }

  lemma {:induction false} AgreesWithPhase(hp: seq<Port>, sp: seq<Port>, other: seq<Option<nat>>, n: nat)
    requires DistinctPortIDs(sp) && IsMatching(hp, sp, other) && n <= |hp|
    requires forall i | 0 <= i < |hp| :: AtLeastAsGood(hp[i], sp, other[i], HostPicks(hp, sp)[i])
    ensures other[..n] == HostPicks(hp, sp)[..n]
  {
    if 0 < n {
      var i := n - 1;
      AgreesWithPhase(hp, sp, other, i);
      if other[i].Some? {
        ChoiceIsFree(hp, sp, other, i);
      }
      HostPickIsFavourite(hp, sp, i);
      OnlyFavouriteIsAsGood(hp[i], sp, TakenIDs(sp, other[..i]), HostPicks(hp, sp)[i], other[i]);
    }
  }

  /**
   Pareto optimality, in its strong form: a matching that is no worse for any host port is the matching
   the phase produced. So no matching is better for one host port without being worse for another.
   */
  lemma HostPhaseIsParetoOptimal(hp: seq<Port>, sp: seq<Port>, other: seq<Option<nat>>)
    requires DistinctPortIDs(sp)
    requires IsMatching(hp, sp, other)
    requires forall i | 0 <= i < |hp| :: AtLeastAsGood(hp[i], sp, other[i], HostPicks(hp, sp)[i])
    ensures other == HostPicks(hp, sp)
  {
    AgreesWithPhase(hp, sp, other, |hp|);
    assert other[..|hp|] == other && HostPicks(hp, sp)[..|hp|] == HostPicks(hp, sp);
  }

  /** Number of links a list of choices stands for. */
  function LinkCount(picks: seq<Option<nat>>): nat {
    if picks == [] then 0
    else LinkCount(picks[..|picks| - 1]) + if picks[|picks| - 1].Some? then 1 else 0
  }

  lemma TakenPositionsStep(m: seq<Option<nat>>)
    requires m != []
    ensures var last := m[|m| - 1];
      TakenPositions(m) == TakenPositions(m[..|m| - 1]) + if last.Some? then {last.value} else {}
  {
    var init, n := m[..|m| - 1], |m| - 1;
    assert forall i | 0 <= i < n :: init[i] == m[i];
  }

  lemma {:induction false} LinkCountIsPositions(hp: seq<Port>, sp: seq<Port>, m: seq<Option<nat>>)
    requires IsMatching(hp, sp, m)
    ensures LinkCount(m) == |TakenPositions(m)|
    ensures LinkCount(m) <= |m|
  {
    if m != [] {
      var n := |m| - 1;
      LinkCountIsPositions(hp[..n], sp, m[..n]);
      TakenPositionsStep(m);
      assert m[n].Some? ==> m[n].value !in TakenPositions(m[..n]);
    }
  }

  /** No matching has more links than there are switch ports or host ports. */
  lemma MatchingSizeBound(hp: seq<Port>, sp: seq<Port>, m: seq<Option<nat>>)
    requires IsMatching(hp, sp, m)
    ensures LinkCount(m) <= |hp| && LinkCount(m) <= |sp|
  {
    LinkCountIsPositions(hp, sp, m);
    assert TakenPositions(m) <= Below(|sp|);
    SubsetSize(TakenPositions(m), Below(|sp|));
  }

  /** A host port left without a link means every switch port went to an earlier one. */
  lemma NoLinkMeansAllTaken(hp: seq<Port>, sp: seq<Port>, n: nat)
    requires DistinctPortIDs(sp) && n < |hp| && HostPicks(hp, sp)[n].None?
    ensures |sp| <= LinkCount(HostPicks(hp, sp)[..n])
  {
    var before := HostPicks(hp, sp)[..n];
    HostPickIsFavourite(hp, sp, n);
    forall k: nat | k in Below(|sp|) ensures k in TakenPositions(before) {
      TakenMeansChosen(sp, before, k);
    }
    SubsetSize(Below(|sp|), TakenPositions(before));
    HostPicksPrefix(hp, sp, n);
    HostPicksAreAMatching(hp[..n], sp);
    LinkCountIsPositions(hp[..n], sp, before);
  }

  /** The phase links as many host ports as any matching could: min(host ports, switch ports). */
  lemma {:induction false} HostPhaseIsMaximum(hp: seq<Port>, sp: seq<Port>)
    requires DistinctPortIDs(sp)
    ensures LinkCount(HostPicks(hp, sp)) == if |hp| <= |sp| then |hp| else |sp|
  {
    HostPicksAreAMatching(hp, sp);
    MatchingSizeBound(hp, sp, HostPicks(hp, sp));
    if hp != [] {
      var n := |hp| - 1;
      HostPicksPrefix(hp, sp, n);
      HostPhaseIsMaximum(hp[..n], sp);
      if HostPicks(hp, sp)[n].None? {
        NoLinkMeansAllTaken(hp, sp, n);
      }
    }
  }

  predicate IsExact(h: Port, sp: seq<Port>, pick: Option<nat>) {
    pick.Some? && pick.value < |sp| && SameLink(h, sp[pick.value])
  }

  /** A host port left without an exact match was left no choice: every port it matches went to an earlier one. */
  lemma FallbackMeansMatchesTaken(hp: seq<Port>, sp: seq<Port>, i: nat, j: nat) returns (earlier: nat)
    requires DistinctPortIDs(sp)
    requires i < |hp| && j < |sp|
    requires SameLink(hp[i], sp[j]) && !IsExact(hp[i], sp, HostPicks(hp, sp)[i])
    ensures earlier < i && HostPicks(hp, sp)[earlier] == Some(j)
  {
    var picks := HostPicks(hp, sp);
    HostPickIsFavourite(hp, sp, i);
    TakenMeansChosen(sp, picks[..i], j);
    earlier :| 0 <= earlier < i && picks[..i][earlier] == Some(j);
  }
}
