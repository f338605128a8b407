/** Exact link matches: when the host phase achieves as many as possible, and when it does not. */
module ExactMatches {
  import opened Domain
  import opened TopologyModel
  import opened Sorting
  import opened HostPhase
  import opened Edges
  import opened SetSizes
  import Text

  function ExactHosts(hp: seq<Port>, sp: seq<Port>, m: seq<Option<nat>>): set<nat> {
    set i | 0 <= i < |hp| && i < |m| && IsExact(hp[i], sp, m[i])
  }

  /** Host port `i` fell back to a port that the later host port `k` matches, and `k` ended up without a match. */
  predicate Thwarts(hp: seq<Port>, sp: seq<Port>, picks: seq<Option<nat>>, i: nat, k: nat)
    requires |picks| == |hp|
  {
    && i < k < |hp|
    && picks[i].Some? && picks[i].value < |sp|
    && !SameLink(hp[i], sp[picks[i].value]) && SameLink(hp[k], sp[picks[i].value])
    && !IsExact(hp[k], sp, picks[k])
  }

  ghost predicate NoneThwarted(hp: seq<Port>, sp: seq<Port>) {
    forall i: nat, k: nat :: !Thwarts(hp, sp, HostPicks(hp, sp), i, k)
  }

  ghost predicate MaximisesExactMatches(hp: seq<Port>, sp: seq<Port>) {
    forall m | IsMatching(hp, sp, m) :: |ExactHosts(hp, sp, m)| <= |ExactHosts(hp, sp, HostPicks(hp, sp))|
  }

  /** Every host port with the link of `k` got an exact match. */
  ghost predicate ClassServed(hp: seq<Port>, sp: seq<Port>, k: nat)
    requires k < |hp|
  {
    forall x | 0 <= x < |hp| && SameLink(hp[x], hp[k]) :: IsExact(hp[x], sp, HostPicks(hp, sp)[x])
  }

  ghost predicate IsPartner(hp: seq<Port>, sp: seq<Port>, m: seq<Option<nat>>, k: nat, e: nat)
    requires k < |hp| == |m|
  {
    e < |hp| && HostPicks(hp, sp)[e] == m[k] && IsExact(hp[e], sp, m[k])
  }

  /** The exactly matched host port of the phase that stands in for `k`, exactly matched in `m`. */
  ghost function StandIn(hp: seq<Port>, sp: seq<Port>, m: seq<Option<nat>>, k: nat): nat
    requires k < |hp| == |m|
  {
    if ClassServed(hp, sp, k) || !exists e :: IsPartner(hp, sp, m, k, e) then k
    else var e :| IsPartner(hp, sp, m, k, e); e
  }

  lemma StandInIsExact(hp: seq<Port>, sp: seq<Port>, m: seq<Option<nat>>, k: nat)
    requires DistinctPortIDs(sp) && NoneThwarted(hp, sp) && IsMatching(hp, sp, m)
    requires k in ExactHosts(hp, sp, m)
    ensures StandIn(hp, sp, m, k) in ExactHosts(hp, sp, HostPicks(hp, sp))
    ensures SameLink(hp[k], hp[StandIn(hp, sp, m, k)])
    ensures !ClassServed(hp, sp, k) ==> IsPartner(hp, sp, m, k, StandIn(hp, sp, m, k))
  {
    if !ClassServed(hp, sp, k) {
      var x :| 0 <= x < |hp| && SameLink(hp[x], hp[k]) && !IsExact(hp[x], sp, HostPicks(hp, sp)[x]);
      var e := FallbackMeansMatchesTaken(hp, sp, x, m[k].value);
      assert !Thwarts(hp, sp, HostPicks(hp, sp), e, x);
      assert IsPartner(hp, sp, m, k, e);
    }
  }

  lemma NoneThwartedIsEnough(hp: seq<Port>, sp: seq<Port>, m: seq<Option<nat>>)
    requires DistinctPortIDs(sp) && NoneThwarted(hp, sp) && IsMatching(hp, sp, m)
    ensures |ExactHosts(hp, sp, m)| <= |ExactHosts(hp, sp, HostPicks(hp, sp))|
  {
    var a, b := ExactHosts(hp, sp, m), ExactHosts(hp, sp, HostPicks(hp, sp));
    var f := map k | k in a :: StandIn(hp, sp, m, k);
    forall k | k in a ensures f[k] in b {
      StandInIsExact(hp, sp, m, k);
    }
    forall x, y | x in a && y in a && x != y ensures f[x] != f[y] {
      StandInIsExact(hp, sp, m, x);
      StandInIsExact(hp, sp, m, y);
      if SameLink(hp[x], hp[y]) {
        assert ClassServed(hp, sp, x) <==> ClassServed(hp, sp, y);
      }
    }
    InjectionSize(a, b, f);
  }

  /** Where the phase thwarts host port `k`, handing it the contested port gives one more exact match. */
  lemma ThwartingCostsAMatch(hp: seq<Port>, sp: seq<Port>, i: nat, k: nat)
    requires DistinctPortIDs(sp) && Thwarts(hp, sp, HostPicks(hp, sp), i, k)
    ensures !MaximisesExactMatches(hp, sp)
  {
    var picks := HostPicks(hp, sp);
    HostPicksAreAMatching(hp, sp);
    var better := picks[i := None][k := picks[i]];
    assert IsMatching(hp, sp, better);
    assert ExactHosts(hp, sp, better) == ExactHosts(hp, sp, picks) + {k};
    assert k !in ExactHosts(hp, sp, picks);
  }

  lemma MaximumIffNoneThwarted(hp: seq<Port>, sp: seq<Port>)
    requires DistinctPortIDs(sp)
    ensures MaximisesExactMatches(hp, sp) <==> NoneThwarted(hp, sp)
  {
    if NoneThwarted(hp, sp) {
      forall m | IsMatching(hp, sp, m) ensures |ExactHosts(hp, sp, m)| <= |ExactHosts(hp, sp, HostPicks(hp, sp))| {
        NoneThwartedIsEnough(hp, sp, m);
      }
    } else {
      var i: nat, k: nat :| Thwarts(hp, sp, HostPicks(hp, sp), i, k);
      ThwartingCostsAMatch(hp, sp, i, k);
    }
  }

  // ---- The same, seen when a fallback is about to be taken ----

  predicate KnownLink(p: Port) {
    p.linkWidthActive != 0 && p.linkSpeedActive != 0
  }

  /** Ids taken before host port `i` is served. */
  function UsedAt(hp: seq<Port>, sp: seq<Port>, i: nat): set<int>
    requires i <= |hp|
  {
    TakenIDs(sp, HostPicks(hp, sp)[..i])
  }

  /** No free port matches `h`, and `j` is the first free one. */
  predicate FallsBack(h: Port, sp: seq<Port>, used: set<int>, j: nat) {
    && j < |sp| && sp[j].id !in used
    && (forall p | 0 <= p < |sp| && sp[p].id !in used :: !SameLink(h, sp[p]))
    && (forall p | 0 <= p < j :: sp[p].id in used)
  }

  /** Free switch ports with the link of `s`. */
  function FreeWith(sp: seq<Port>, used: set<int>, s: Port): set<nat> {
    set p | 0 <= p < |sp| && sp[p].id !in used && SameLink(s, sp[p])
  }

  /** Host ports from `n` on with the link of `s`. */
  function HostsFrom(hp: seq<Port>, n: nat, s: Port): set<nat> {
    set k | n <= k < |hp| && SameLink(s, hp[k])
  }

  /**
   Whenever a host port falls back to a port whose link data is known, the free ports with that link outnumber the
   host ports with that link that are still to come.
   */
  ghost predicate FallbacksAreHarmless(hp: seq<Port>, sp: seq<Port>) {
    forall i: nat, j: nat | i < |hp| && FallsBack(hp[i], sp, UsedAt(hp, sp, i), j) && KnownLink(sp[j]) ::
      |FreeWith(sp, UsedAt(hp, sp, i), sp[j])| > |HostsFrom(hp, i + 1, sp[j])|
  }

  /** A pick is an exact match if there is one free; otherwise it is the fallback. */
  lemma PickCases(hp: seq<Port>, sp: seq<Port>, i: nat)
    requires i < |hp|
    ensures var pick, used := HostPicks(hp, sp)[i], UsedAt(hp, sp, i);
      && (FreeWith(sp, used, hp[i]) != {} ==> IsExact(hp[i], sp, pick))
      && (pick.Some? ==> pick.value < |sp| && sp[pick.value].id !in used)
      && (pick.Some? && !SameLink(hp[i], sp[pick.value]) ==> FallsBack(hp[i], sp, used, pick.value))
      && (forall j: nat | FallsBack(hp[i], sp, used, j) :: pick == Some(j))
  {
    HostPickIsFavourite(hp, sp, i);
    var pick, used := HostPicks(hp, sp)[i], UsedAt(hp, sp, i);
    if pick.Some? && FreeWith(sp, used, hp[i]) != {} {
      var p :| p in FreeWith(sp, used, hp[i]);
      assert p != pick.value ==> Prefers(hp[i], sp, pick.value, p);
    }
  }

  lemma UsedStep(hp: seq<Port>, sp: seq<Port>, i: nat)
    requires i < |hp|
    ensures var pick := HostPicks(hp, sp)[i];
      UsedAt(hp, sp, i + 1) == UsedAt(hp, sp, i) + if pick.Some? then {sp[pick.value].id} else {}
  {
    var picks := HostPicks(hp, sp);
    assert picks[..i + 1] == picks[..i] + [picks[i]];
    TakenIDsStep(sp, picks[..i], picks[i]);
  }

  lemma SameIDSamePosition(sp: seq<Port>, p: nat, q: nat)
    requires DistinctPortIDs(sp) && p < |sp| && q < |sp| && sp[p].id == sp[q].id
    ensures p == q
  {
    assert p != q ==> PortID(sp[p]) != PortID(sp[q]);
  }

  /** Serving one host port uses up the port it picks, and no other. */
  lemma FreeStep(hp: seq<Port>, sp: seq<Port>, i: nat, s: Port)
    requires DistinctPortIDs(sp) && i < |hp|
    ensures var pick := HostPicks(hp, sp)[i];
      FreeWith(sp, UsedAt(hp, sp, i + 1), s) ==
        FreeWith(sp, UsedAt(hp, sp, i), s) - if pick.Some? then {pick.value} else {}
  {
    UsedStep(hp, sp, i);
    var pick := HostPicks(hp, sp)[i];
    if pick.Some? {
      forall p: nat | p < |sp| && sp[p].id == sp[pick.value].id ensures p == pick.value {
        SameIDSamePosition(sp, p, pick.value);
      }
    }
  }

  lemma HostsStep(hp: seq<Port>, n: nat, s: Port)
    requires n < |hp|
    ensures HostsFrom(hp, n, s) == HostsFrom(hp, n + 1, s) + if SameLink(s, hp[n]) then {n} else {}
    ensures n !in HostsFrom(hp, n + 1, s)
  {
  }

  lemma SameLinkSameSets(hp: seq<Port>, sp: seq<Port>, used: set<int>, n: nat, s: Port, t: Port)
    requires SameLink(s, t)
    ensures FreeWith(sp, used, s) == FreeWith(sp, used, t) && HostsFrom(hp, n, s) == HostsFrom(hp, n, t)
  {
  }

  lemma TakeOut(s: set<nat>, x: nat)
    ensures |s - {x}| == if x in s then |s| - 1 else |s|
  {
    if x in s {
      assert s == (s - {x}) + {x};
    } else {
      assert s - {x} == s;
    }
  }

  /** There are free ports enough for the host ports with the link of `s` still to come. */
  predicate Supplied(hp: seq<Port>, sp: seq<Port>, n: nat, s: Port)
    requires n <= |hp|
  {
    |FreeWith(sp, UsedAt(hp, sp, n), s)| >= |HostsFrom(hp, n, s)|
  }

  lemma SupplyAfterFallback(hp: seq<Port>, sp: seq<Port>, i: nat, j: nat)
    requires DistinctPortIDs(sp) && FallbacksAreHarmless(hp, sp)
    requires i < |hp| && FallsBack(hp[i], sp, UsedAt(hp, sp, i), j) && KnownLink(sp[j])
    ensures Supplied(hp, sp, i + 1, sp[j])
  {
    PickCases(hp, sp, i);
    FreeStep(hp, sp, i, sp[j]);
    TakeOut(FreeWith(sp, UsedAt(hp, sp, i), sp[j]), j);
  }

  lemma SupplyStep(hp: seq<Port>, sp: seq<Port>, n: nat, s: Port)
    requires DistinctPortIDs(sp) && FallbacksAreHarmless(hp, sp)
    requires n < |hp| && Supplied(hp, sp, n, s)
    ensures Supplied(hp, sp, n + 1, s)
  {
    var pick := HostPicks(hp, sp)[n];
    PickCases(hp, sp, n);
    FreeStep(hp, sp, n, s);
    HostsStep(hp, n, s);
    if pick.Some? && SameLink(s, sp[pick.value]) && !SameLink(s, hp[n]) {
      SupplyAfterFallback(hp, sp, n, pick.value);
      SameLinkSameSets(hp, sp, UsedAt(hp, sp, n + 1), n + 1, s, sp[pick.value]);
    } else if pick.Some? {
      TakeOut(FreeWith(sp, UsedAt(hp, sp, n), s), pick.value);
    }
  }

  lemma {:induction false} StaysTrue(ok: seq<bool>, i: nat, n: nat)
    requires i <= n < |ok| && ok[i]
    requires forall k: nat | k + 1 < |ok| && ok[k] :: ok[k + 1]
    ensures ok[n]
  {
    if i < n {
      StaysTrue(ok, i, n - 1);
      assert ok[n - 1 + 1];
    }
  }

  lemma SupplyLasts(hp: seq<Port>, sp: seq<Port>, s: Port, i: nat, n: nat)
    requires DistinctPortIDs(sp) && FallbacksAreHarmless(hp, sp)
    requires i <= n <= |hp| && Supplied(hp, sp, i, s)
    ensures Supplied(hp, sp, n, s)
  {
    var ok := seq(|hp| + 1, k requires 0 <= k <= |hp| => Supplied(hp, sp, k, s));
    forall k: nat | k + 1 < |ok| && ok[k] ensures ok[k + 1] {
      SupplyStep(hp, sp, k, s);
    }
    StaysTrue(ok, i, n);
  }

  /** After harmless fallbacks, every later host port with the link of the port given away still gets an exact match. */
  lemma LaterHostIsServed(hp: seq<Port>, sp: seq<Port>, i: nat, j: nat, k: nat)
    requires DistinctPortIDs(sp) && FallbacksAreHarmless(hp, sp)
    requires i < k < |hp| && FallsBack(hp[i], sp, UsedAt(hp, sp, i), j) && SameLink(hp[k], sp[j])
    ensures IsExact(hp[k], sp, HostPicks(hp, sp)[k])
  {
    SupplyAfterFallback(hp, sp, i, j);
    SupplyLasts(hp, sp, sp[j], i + 1, k);
    assert k in HostsFrom(hp, k, sp[j]);
    SameLinkSameSets(hp, sp, UsedAt(hp, sp, k), k, sp[j], hp[k]);
    PickCases(hp, sp, k);
  }

  lemma HarmlessThwartsNobody(hp: seq<Port>, sp: seq<Port>)
    requires DistinctPortIDs(sp) && FallbacksAreHarmless(hp, sp)
    ensures NoneThwarted(hp, sp)
  {
    var picks := HostPicks(hp, sp);
    forall i: nat, k: nat
      | i < k < |hp| && picks[i].Some? && !SameLink(hp[i], sp[picks[i].value]) && SameLink(hp[k], sp[picks[i].value])
      ensures IsExact(hp[k], sp, picks[k])
    {
      PickCases(hp, sp, i);
      LaterHostIsServed(hp, sp, i, picks[i].value, k);
    }
  }

  lemma UsedGrows(hp: seq<Port>, sp: seq<Port>, i: nat, k: nat)
    requires i <= k <= |hp|
    ensures UsedAt(hp, sp, i) <= UsedAt(hp, sp, k)
  {
    var picks := HostPicks(hp, sp);
    forall id: int | id in UsedAt(hp, sp, i) ensures id in UsedAt(hp, sp, k) {
      var x: nat :| x < i && picks[x].Some? && picks[x].value < |sp| && sp[picks[x].value].id == id;
      assert picks[..k][x] == picks[x];
    }
  }

  /** What a later host port picks was free before, and is not what an earlier one picked. */
  lemma LaterPickWasFree(hp: seq<Port>, sp: seq<Port>, i: nat, k: nat)
    requires i < k < |hp| && HostPicks(hp, sp)[k].Some?
    ensures sp[HostPicks(hp, sp)[k].value].id !in UsedAt(hp, sp, i)
    ensures HostPicks(hp, sp)[k] != HostPicks(hp, sp)[i]
  {
    PickCases(hp, sp, k);
    UsedGrows(hp, sp, i, k);
    UsedStep(hp, sp, i);
    UsedGrows(hp, sp, i + 1, k);
  }

  /** Host ports that all got exact matches for the link of `s`, from `n` on, are no more than the free ports then. */
  lemma ServedHostsFit(hp: seq<Port>, sp: seq<Port>, n: nat, s: Port, free: set<nat>)
    requires n <= |hp| && DistinctPortIDs(sp)
    requires forall k | k in HostsFrom(hp, n, s) ::
      IsExact(hp[k], sp, HostPicks(hp, sp)[k]) && HostPicks(hp, sp)[k].value in free
    ensures |HostsFrom(hp, n, s)| <= |free|
  {
    var hosts, picks := HostsFrom(hp, n, s), HostPicks(hp, sp);
    HostPicksAreAMatching(hp, sp);
    var f: map<nat, nat> := map k: nat | k in hosts :: picks[k].value as nat;
    forall x, y | x in hosts && y in hosts && x != y ensures f[x] != f[y] {
      assert picks[x] != picks[y];
    }
    InjectionSize(hosts, free, f);
  }

  /** Where nobody is thwarted, a later host port with the link given away got another port with that link. */
  lemma LaterHostGotAnother(hp: seq<Port>, sp: seq<Port>, i: nat, j: nat, k: nat)
    requires DistinctPortIDs(sp) && NoneThwarted(hp, sp) && i < |hp|
    requires HostPicks(hp, sp)[i] == Some(j) && j < |sp| && !SameLink(hp[i], sp[j])
    requires i < k < |hp| && SameLink(hp[k], sp[j])
    ensures IsExact(hp[k], sp, HostPicks(hp, sp)[k])
    ensures HostPicks(hp, sp)[k].value in FreeWith(sp, UsedAt(hp, sp, i), sp[j]) - {j}
  {
    assert !Thwarts(hp, sp, HostPicks(hp, sp), i, k);
    LaterPickWasFree(hp, sp, i, k);
  }

  lemma UnthwartedFallbackIsHarmless(hp: seq<Port>, sp: seq<Port>, i: nat, j: nat)
    requires DistinctPortIDs(sp) && NoneThwarted(hp, sp)
    requires i < |hp| && FallsBack(hp[i], sp, UsedAt(hp, sp, i), j) && KnownLink(sp[j])
    ensures |FreeWith(sp, UsedAt(hp, sp, i), sp[j])| > |HostsFrom(hp, i + 1, sp[j])|
  {
    hide NoneThwarted;
    var picks, free := HostPicks(hp, sp), FreeWith(sp, UsedAt(hp, sp, i), sp[j]);
    PickCases(hp, sp, i);
    forall k | k in HostsFrom(hp, i + 1, sp[j]) ensures IsExact(hp[k], sp, picks[k]) && picks[k].value in free - {j} {
      LaterHostGotAnother(hp, sp, i, j, k);
    }
    ServedHostsFit(hp, sp, i + 1, sp[j], free - {j});
    TakeOut(free, j);
  }

  /**
   The phase reaches the largest possible number of exact matches if and only if every fallback is harmless when it
   is taken.
   */
  lemma ExactMatchesAreMaximumIff(hp: seq<Port>, sp: seq<Port>)
    requires DistinctPortIDs(sp)
    ensures MaximisesExactMatches(hp, sp) <==> FallbacksAreHarmless(hp, sp)
  {
    MaximumIffNoneThwarted(hp, sp);
    if FallbacksAreHarmless(hp, sp) {
      HarmlessThwartsNobody(hp, sp);
    }
    if NoneThwarted(hp, sp) {
      forall i: nat, j: nat | i < |hp| && FallsBack(hp[i], sp, UsedAt(hp, sp, i), j) && KnownLink(sp[j])
        ensures |FreeWith(sp, UsedAt(hp, sp, i), sp[j])| > |HostsFrom(hp, i + 1, sp[j])|
      {
        UnthwartedFallbackIsHarmless(hp, sp, i, j);
      }
    }
  }

  // ---- When every host port gets an exact match ----

  /** Every host port knows its link, and no link has more host ports than switch ports. */
  ghost predicate SupplyMeetsDemand(hp: seq<Port>, sp: seq<Port>) {
    forall i: nat | i < |hp| :: KnownLink(hp[i]) && |HostsFrom(hp, 0, hp[i])| <= |FreeWith(sp, {}, hp[i])|
  }

  ghost predicate AllExact(hp: seq<Port>, sp: seq<Port>, n: nat)
    requires n <= |hp|
  {
    forall i: nat | i < n :: IsExact(hp[i], sp, HostPicks(hp, sp)[i])
  }

  ghost predicate AllSupplied(hp: seq<Port>, sp: seq<Port>, n: nat)
    requires n <= |hp|
  {
    forall x: nat | x < |hp| :: KnownLink(hp[x]) && Supplied(hp, sp, n, hp[x])
  }

  lemma SuppliedHostIsServed(hp: seq<Port>, sp: seq<Port>, n: nat)
    requires n < |hp| && AllSupplied(hp, sp, n)
    ensures IsExact(hp[n], sp, HostPicks(hp, sp)[n])
  {
    assert KnownLink(hp[n]) && Supplied(hp, sp, n, hp[n]);
    assert n in HostsFrom(hp, n, hp[n]);
    PickCases(hp, sp, n);
  }

  lemma ServingKeepsSupply(hp: seq<Port>, sp: seq<Port>, n: nat, x: nat)
    requires DistinctPortIDs(sp) && n < |hp| && x < |hp| && KnownLink(hp[x]) && Supplied(hp, sp, n, hp[x])
    requires IsExact(hp[n], sp, HostPicks(hp, sp)[n])
    ensures Supplied(hp, sp, n + 1, hp[x])
  {
    FreeStep(hp, sp, n, hp[x]);
    HostsStep(hp, n, hp[x]);
    TakeOut(FreeWith(sp, UsedAt(hp, sp, n), hp[x]), HostPicks(hp, sp)[n].value);
  }

  ghost predicate GoesWell(hp: seq<Port>, sp: seq<Port>, n: nat)
    requires n <= |hp|
  {
    AllExact(hp, sp, n) && AllSupplied(hp, sp, n)
  }

  lemma GoesWellStep(hp: seq<Port>, sp: seq<Port>, n: nat)
    requires DistinctPortIDs(sp) && n < |hp| && GoesWell(hp, sp, n)
    ensures GoesWell(hp, sp, n + 1)
  {
    SuppliedHostIsServed(hp, sp, n);
    forall x: nat | x < |hp| ensures KnownLink(hp[x]) && Supplied(hp, sp, n + 1, hp[x]) {
      ServingKeepsSupply(hp, sp, n, x);
    }
  }

  lemma SupplyServesAll(hp: seq<Port>, sp: seq<Port>)
    requires DistinctPortIDs(sp) && SupplyMeetsDemand(hp, sp)
    ensures AllExact(hp, sp, |hp|)
  {
    var ok := seq(|hp| + 1, k requires 0 <= k <= |hp| => GoesWell(hp, sp, k));
    forall k: nat | k + 1 < |ok| && ok[k] ensures ok[k + 1] {
      GoesWellStep(hp, sp, k);
    }
    assert UsedAt(hp, sp, 0) == {};
    StaysTrue(ok, 0, |hp|);
  }

  /** Every host port gets an exact match exactly when each knows its link and no link is in short supply. */
  lemma AllExactIff(hp: seq<Port>, sp: seq<Port>)
    requires DistinctPortIDs(sp)
    ensures AllExact(hp, sp, |hp|) <==> SupplyMeetsDemand(hp, sp)
  {
    if SupplyMeetsDemand(hp, sp) {
      SupplyServesAll(hp, sp);
    }
    if AllExact(hp, sp, |hp|) {
      forall i: nat | i < |hp| ensures KnownLink(hp[i]) && |HostsFrom(hp, 0, hp[i])| <= |FreeWith(sp, {}, hp[i])| {
        ServedHostsFit(hp, sp, 0, hp[i], FreeWith(sp, {}, hp[i]));
      }
    }
  }

  // ---- A miss ----

  const HOST_A := Node(1, 1, "a", "", 1, HOST, 1, None)
  const HOST_B := Node(2, 1, "b", "", 1, HOST, 1, None)
  const SWITCH_C := Node(3, 1, "c", "", 2, SWITCH, 2, None)
  const PORT_A := Port(1, 1, 1, "a", "a1", 1, 4, 0, 0)
  const PORT_B := Port(2, 1, 2, "b", "b1", 1, 4, 4, 100)
  const PORT_C := Port(3, 1, 3, "c", "c1", 1, 4, 4, 100)
  const PORT_D := Port(4, 1, 3, "c", "c2", 2, 4, 8, 200)

  lemma KindsOfTheMiss()
    ensures NormalizeKind(HOST) == HOST && NormalizeKind(SWITCH) == SWITCH
  {
    assert Text.TrimSpace(HOST) == HOST && Text.TrimSpace(SWITCH) == SWITCH;
    assert Text.ToLower(HOST) == HOST;
    assert Text.ToLower(SWITCH) == SWITCH;
  }

  lemma IndexOfTheMiss()
    ensures NodesByID(NODES) == INDEX
  {
    NodesByIDStep(NODES, 0);
    NodesByIDStep(NODES, 1);
    NodesByIDStep(NODES, 2);
    assert NODES[..0] == [] && NODES[..3] == NODES;
  }

  const NODES := [HOST_A, HOST_B, SWITCH_C]
  const INDEX := map[1 := HOST_A, 2 := HOST_B, 3 := SWITCH_C]
  const PORTS := [PORT_A, PORT_B, PORT_C, PORT_D]

  lemma ActiveKindsOfTheMiss(kind: string)
    requires kind in {HOST, SWITCH}
    ensures IsActiveOfKind(PORT_A, INDEX, {kind}) <==> kind == HOST
    ensures IsActiveOfKind(PORT_B, INDEX, {kind}) <==> kind == HOST
    ensures IsActiveOfKind(PORT_C, INDEX, {kind}) <==> kind == SWITCH
    ensures IsActiveOfKind(PORT_D, INDEX, {kind}) <==> kind == SWITCH
  {
    KindsOfTheMiss();
  }

  lemma TwoOfFour(a: Port, b: Port, c: Port, d: Port, index: map<int, Node>, kinds: set<string>, first: bool)
    requires IsActiveOfKind(a, index, kinds) == IsActiveOfKind(b, index, kinds) == first
    requires IsActiveOfKind(c, index, kinds) == IsActiveOfKind(d, index, kinds) == !first
    ensures ActivePorts([a, b, c, d], index, kinds) == if first then [a, b] else [c, d]
  {
    hide IsActiveOfKind;
    var ports := [a, b, c, d];
    assert ports[..0] == [] && ports[..4] == ports;
    ActivePortsStep(ports, 0, index, kinds);
    ActivePortsStep(ports, 1, index, kinds);
    ActivePortsStep(ports, 2, index, kinds);
    ActivePortsStep(ports, 3, index, kinds);
  }

  lemma ActivePortsOfTheMiss(kind: string)
    requires kind in {HOST, SWITCH}
    ensures ActivePorts(PORTS, INDEX, {kind}) == if kind == HOST then [PORT_A, PORT_B] else [PORT_C, PORT_D]
  {
    ActiveKindsOfTheMiss(kind);
    TwoOfFour(PORT_A, PORT_B, PORT_C, PORT_D, INDEX, {kind}, kind == HOST);
  }

  lemma PhaseOfTheMiss()
    ensures !MaximisesExactMatches([PORT_A, PORT_B], [PORT_C, PORT_D])
  {
    var hp, sp := [PORT_A, PORT_B], [PORT_C, PORT_D];
    assert UsedAt(hp, sp, 0) == {};
    assert FallsBack(hp[0], sp, UsedAt(hp, sp, 0), 0);
    assert FreeWith(sp, {}, sp[0]) == {0};
    assert 1 in HostsFrom(hp, 1, sp[0]);
    assert HostsFrom(hp, 1, sp[0]) == {1};
    ExactMatchesAreMaximumIff(hp, sp);
  }

  lemma ListsOfTheMiss(plan: Plan)
    requires IsPlan(NODES, PORTS, plan)
    ensures plan.hostPorts == [PORT_A, PORT_B] && plan.switchPorts == [PORT_C, PORT_D]
  {
    IndexOfTheMiss();
    ActivePortsOfTheMiss(HOST);
    ActivePortsOfTheMiss(SWITCH);
    TwoPortsStaySorted(PORT_A, PORT_B, plan.hostPorts);
    TwoPortsStaySorted(PORT_C, PORT_D, plan.switchPorts);
  }

  lemma IDsOfTheMiss()
    ensures DistinctNodeIDs(NODES) && DistinctPortIDs(PORTS)
  {
  }

  lemma TwoPortsStaySorted(p: Port, q: Port, sorted: seq<Port>)
    requires PortLess(p, q) && p.id != q.id && IsSortOf(sorted, [p, q], PortLess)
    ensures sorted == [p, q]
  {
    PortComparatorSeparates([p, q]);
    SortedFormUnique([p, q], sorted, PortLess);
  }

  /**
   Two hosts, the first without link data, and a switch with two ports: the fallback of the first takes the match of
   the second. These are rows the service can be given, and the lists it makes of them.
   */
  lemma ExactMatchesCanBeMissed() returns (nodes: seq<Node>, ports: seq<Port>, plan: Plan)
    ensures DistinctNodeIDs(nodes) && DistinctPortIDs(ports) && IsPlan(nodes, ports, plan)
    ensures !MaximisesExactMatches(plan.hostPorts, plan.switchPorts)
  {
    nodes, ports := NODES, PORTS;
    plan := PlanExists(NODES, PORTS);
    IDsOfTheMiss();
    ListsOfTheMiss(plan);
    PhaseOfTheMiss();
  }
}
