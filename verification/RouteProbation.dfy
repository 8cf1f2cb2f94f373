/** Which routes a selection can give, and when their hops on probation stay within the cap. */
module RouteProbation {
  import opened Outcomes
  import opened Arithmetic
  import opened RouteSelection

  /* ----- which routes are possible ----- */

  function FixedEntry(nodes: seq<Node>, wish: Wish): Option<Node> { Fixed(Entries(nodes, wish), wish.pinnedEntry) }

  function FixedExit(nodes: seq<Node>, wish: Wish): Option<Node> { Fixed(Exits(nodes), wish.selectedExit) }

  /** Candidates for each hop that is not fixed, before probation and avoidance narrow them. */
  function EntryGroup(nodes: seq<Node>, wish: Wish): seq<Node> {
    Class(Selectable(nodes, wish, FixedExit(nodes, wish)), Exits(nodes))
  }

  function MixGroup(nodes: seq<Node>, wish: Wish, entry: Node): seq<Node> {
    Class(EligibleMixes(nodes, entry, FixedExit(nodes, wish)), Exits(nodes))
  }

  function EntryPool(nodes: seq<Node>, wish: Wish): seq<Node> {
    WithinProbation(EntryGroup(nodes, wish), Less(wish.maxProbation, OnProbation(FixedExit(nodes, wish))))
  }

  function MixPool(nodes: seq<Node>, wish: Wish, entry: Node): seq<Node> {
    var budget := Less(wish.maxProbation, OnProbation(Some(entry)) + OnProbation(FixedExit(nodes, wish)));
    PreferNotAvoided(WithinProbation(MixGroup(nodes, wish, entry), budget), wish.avoid)
  }

  function ExitPool(nodes: seq<Node>, wish: Wish, entry: Node, mix: Node): seq<Node> {
    var budget := Less(wish.maxProbation, OnProbation(Some(entry)) + OnProbation(Some(mix)));
    PreferNotAvoided(WithinProbation(EligibleExits(nodes, entry, mix), budget), wish.avoid)
  }

  predicate MayEnter(nodes: seq<Node>, wish: Wish, entry: Node) {
    if FixedEntry(nodes, wish).Some? then FixedEntry(nodes, wish) == Some(entry) else entry in EntryPool(nodes, wish)
  }

  predicate MayMix(nodes: seq<Node>, wish: Wish, entry: Node, mix: Node) { mix in MixPool(nodes, wish, entry) }

  predicate MayExit(nodes: seq<Node>, wish: Wish, entry: Node, mix: Node, exit: Node) {
    if FixedExit(nodes, wish).Some? then FixedExit(nodes, wish) == Some(exit)
    else exit in ExitPool(nodes, wish, entry, mix)
  }

  predicate Possible(nodes: seq<Node>, wish: Wish, r: Route) {
    && MayEnter(nodes, wish, r.entry) && MayMix(nodes, wish, r.entry, r.mix)
    && MayExit(nodes, wish, r.entry, r.mix, r.exit)
  }

  lemma EntryFromPool(nodes: seq<Node>, wish: Wish, draw: nat)
    ensures EntryChoice(nodes, wish, FixedExit(nodes, wish), draw) == PickRandom(EntryPool(nodes, wish), draw)
  {
    hide WithinProbation, Selectable, Exits, NonExits, FixedExit;
    var exit := FixedExit(nodes, wish);
    var only := NonExits(Selectable(nodes, wish, exit), Exits(nodes));
    var budget := Less(wish.maxProbation, OnProbation(exit));
    WithinProbationChooses(only, budget);
  }

  lemma MixFromPool(nodes: seq<Node>, wish: Wish, entry: Node, draw: nat)
    ensures MixChoice(nodes, wish, entry, FixedExit(nodes, wish), draw) == PickRandom(MixPool(nodes, wish, entry), draw)
  {
    hide WithinProbation, EligibleMixes, Exits, NonExits, FixedExit, PreferNotAvoided;
    var exit := FixedExit(nodes, wish);
    var only := NonExits(EligibleMixes(nodes, entry, exit), Exits(nodes));
    var budget := Less(wish.maxProbation, OnProbation(Some(entry)) + OnProbation(exit));
    WithinProbationChooses(only, budget);
    PreferChooses(WithinProbation(only, budget), wish.avoid);
  }

  /** Every member of a pool is picked by some draw. */
  lemma DrawOf(pool: seq<Node>, n: Node) returns (draw: nat)
    requires n in pool
    ensures PickRandom(pool, draw) == Some(n)
  {
    var i :| 0 <= i < |pool| && pool[i] == n;
    draw := i;
    SmallRemainder(i, |pool|);
  }

  /** A route is found at all: one fits, and the cap does not refuse the selected exit. */
  ghost predicate Routable(nodes: seq<Node>, wish: Wish) {
    (exists w :: Fits(nodes, wish, w)) && !Refused(nodes, wish)
  }

  /** What selectRoute does once it is past its checks. */
  lemma SelectedHops(nodes: seq<Node>, wish: Wish, draws: Draws)
    requires SelectRoute(nodes, wish, draws).Ok?
    ensures var r := SelectRoute(nodes, wish, draws).value;
      && Some(r.entry) == OrElse(FixedEntry(nodes, wish), EntryChoice(nodes, wish, FixedExit(nodes, wish), draws.entry))
      && Some(r.mix) == MixChoice(nodes, wish, r.entry, FixedExit(nodes, wish), draws.mix)
      && Some(r.exit) == OrElse(FixedExit(nodes, wish), ExitChoice(nodes, wish, r.entry, r.mix, draws.exit))
  {
    hide EntryChoice, MixChoice, ExitChoice, Entries, Exits, Mixes, CapRefuses, Fixed;
  }

  lemma SelectedIsPossible(nodes: seq<Node>, wish: Wish, draws: Draws)
    requires SelectRoute(nodes, wish, draws).Ok?
    ensures Possible(nodes, wish, SelectRoute(nodes, wish, draws).value)
  {
    hide SelectRoute, EntryChoice, MixChoice, EntryPool, MixPool, ExitPool, FixedEntry, FixedExit, PickRandom;
    SelectedHops(nodes, wish, draws);
    var r := SelectRoute(nodes, wish, draws).value;
    EntryFromPool(nodes, wish, draws.entry);
    MixFromPool(nodes, wish, r.entry, draws.mix);
    ExitFromPool(nodes, wish, r.entry, r.mix, draws.exit);
    Picked(EntryPool(nodes, wish), draws.entry);
    Picked(MixPool(nodes, wish, r.entry), draws.mix);
    Picked(ExitPool(nodes, wish, r.entry, r.mix), draws.exit);
  }

  lemma ExitFromPool(nodes: seq<Node>, wish: Wish, entry: Node, mix: Node, draw: nat)
    ensures ExitChoice(nodes, wish, entry, mix, draw) == PickRandom(ExitPool(nodes, wish, entry, mix), draw)
  {}

  /** Every possible route comes out for some draws. */
  lemma PossibleIsSelected(nodes: seq<Node>, wish: Wish, r: Route) returns (draws: Draws)
    requires Routable(nodes, wish) && Possible(nodes, wish, r)
    ensures SelectRoute(nodes, wish, draws) == Ok(r)
  {
    hide SelectRoute, EntryChoice, MixChoice, ExitChoice, EntryPool, MixPool, ExitPool, FixedEntry, FixedExit;
    hide PickRandom;
    hide Fits, Refused;
    draws := Draws(0, 0, 0);
    if FixedEntry(nodes, wish).None? {
      var d := DrawOf(EntryPool(nodes, wish), r.entry);
      draws := draws.(entry := d);
    }
    var d := DrawOf(MixPool(nodes, wish, r.entry), r.mix);
    draws := draws.(mix := d);
    if FixedExit(nodes, wish).None? {
      var x := DrawOf(ExitPool(nodes, wish, r.entry, r.mix), r.exit);
      draws := draws.(exit := x);
    }
    NeverDeadEnds(nodes, wish, draws);
    SelectedHops(nodes, wish, draws);
    EntryFromPool(nodes, wish, draws.entry);
    MixFromPool(nodes, wish, r.entry, draws.mix);
    ExitFromPool(nodes, wish, r.entry, r.mix, draws.exit);
  }

  /* ----- the cap over the whole route ----- */

  function ProbationHops(r: Route): nat {
    OnProbation(Some(r.entry)) + OnProbation(Some(r.mix)) + OnProbation(Some(r.exit))
  }

  predicate AnySettled(nodes: seq<Node>) { exists i | 0 <= i < |nodes| :: !nodes[i].probation }

  /** Whenever the fixed hops and those chosen so far have spent the cap, the group for the next hop has a
      settled member. */
  predicate CapHolds(nodes: seq<Node>, wish: Wish, cap: int) {
    var (entry, exit) := (FixedEntry(nodes, wish), FixedExit(nodes, wish));
    && OnProbation(entry) + OnProbation(exit) <= cap
    && (entry.None? && OnProbation(exit) >= cap ==> AnySettled(EntryGroup(nodes, wish)))
    && (forall e | e in nodes && MayEnter(nodes, wish, e) :: MixFound(nodes, wish, cap, e))
    && (exit.None? ==>
        forall e, m | e in nodes && m in nodes && MayEnter(nodes, wish, e) && MayMix(nodes, wish, e, m) ::
          ExitFound(nodes, cap, e, m))
  }

  predicate MixFound(nodes: seq<Node>, wish: Wish, cap: int, e: Node) {
    OnProbation(Some(e)) + OnProbation(FixedExit(nodes, wish)) >= cap ==> AnySettled(MixGroup(nodes, wish, e))
  }

  predicate ExitFound(nodes: seq<Node>, cap: int, e: Node, m: Node) {
    OnProbation(Some(e)) + OnProbation(Some(m)) >= cap ==> AnySettled(EligibleExits(nodes, e, m))
  }

  /** What is left of a group once the budget is spent. */
  lemma SpentBudget(group: seq<Node>, budget: Option<int>, avoid: set<NodeId>, n: Node)
    requires budget.Some? && budget.value <= 0
    requires n in WithinProbation(group, budget) || n in PreferNotAvoided(WithinProbation(group, budget), avoid)
    ensures n.probation <==> !AnySettled(group)
  {
    PreferChooses(WithinProbation(group, budget), avoid);
    var settled := Filter(group, (n: Node) => !n.probation);
    Members(settled);
    WithinProbationChooses(group, budget);
    if AnySettled(group) {
      var i :| 0 <= i < |group| && !group[i].probation;
      assert group[i] in settled;
    } else {
      assert forall x :: x in group ==> x.probation;
    }
  }

  lemma PossibleWithinCap(nodes: seq<Node>, wish: Wish, cap: int, r: Route)
    requires wish.maxProbation == Some(cap) && CapHolds(nodes, wish, cap) && Possible(nodes, wish, r)
    requires r.entry in nodes && r.mix in nodes
    ensures ProbationHops(r) <= cap
  {
    hide WithinProbation, PreferNotAvoided, EntryGroup, MixGroup, EligibleExits, FixedEntry, FixedExit;
    hide AnySettled;
    var exit := FixedExit(nodes, wish);
    if FixedEntry(nodes, wish).None? && OnProbation(exit) >= cap {
      SpentBudget(EntryGroup(nodes, wish), Less(Some(cap), OnProbation(exit)), {}, r.entry);
    }
    assert OnProbation(Some(r.entry)) + OnProbation(exit) <= cap;
    assert MixFound(nodes, wish, cap, r.entry);
    if OnProbation(Some(r.entry)) + OnProbation(exit) >= cap {
      SpentBudget(MixGroup(nodes, wish, r.entry), Less(Some(cap), OnProbation(Some(r.entry)) + OnProbation(exit)),
                  wish.avoid, r.mix);
    }
    assert OnProbation(Some(r.entry)) + OnProbation(Some(r.mix)) + OnProbation(exit) <= cap;
    if exit.None? {
      assert ExitFound(nodes, cap, r.entry, r.mix);
      if OnProbation(Some(r.entry)) + OnProbation(Some(r.mix)) >= cap {
        SpentBudget(EligibleExits(nodes, r.entry, r.mix),
                    Less(Some(cap), OnProbation(Some(r.entry)) + OnProbation(Some(r.mix))), wish.avoid, r.exit);
      }
    }
  }

  /** Any possible entry, and any possible mix after it, is completed by some draws. */
  lemma Completed(nodes: seq<Node>, wish: Wish, e: Node, m: Option<Node>) returns (draws: Draws)
    requires Routable(nodes, wish) && MayEnter(nodes, wish, e) && (m.Some? ==> MayMix(nodes, wish, e, m.value))
    ensures var r := SelectRoute(nodes, wish, draws);
      && r.Ok? && r.value.entry == e && (m.Some? ==> r.value.mix == m.value) && Possible(nodes, wish, r.value)
      && r.value.entry in nodes && r.value.mix in nodes
      && (FixedExit(nodes, wish).Some? ==> FixedExit(nodes, wish) == Some(r.value.exit))
  {
    hide SelectRoute, EntryChoice, MixChoice, ExitChoice, EntryPool, MixPool, ExitPool, FixedEntry, FixedExit;
    hide PickRandom;
    hide Fits, Refused;
    draws := Draws(0, 0, 0);
    if FixedEntry(nodes, wish).None? {
      var d := DrawOf(EntryPool(nodes, wish), e);
      draws := draws.(entry := d);
    }
    if m.Some? {
      var d := DrawOf(MixPool(nodes, wish, e), m.value);
      draws := draws.(mix := d);
    }
    NeverDeadEnds(nodes, wish, draws);
    SelectedHops(nodes, wish, draws);
    SelectedIsPossible(nodes, wish, draws);
    EntryFromPool(nodes, wish, draws.entry);
    MixFromPool(nodes, wish, e, draws.mix);
    RouteFits(nodes, wish, draws);
    FittingNodes(nodes, wish, SelectRoute(nodes, wish, draws).value);
  }

  lemma FittingNodes(nodes: seq<Node>, wish: Wish, r: Route)
    requires Fits(nodes, wish, r)
    ensures r.entry in nodes && r.mix in nodes
  {}

  /** The route of these draws has at most cap hops on probation. */
  predicate KeepsCap(nodes: seq<Node>, wish: Wish, draws: Draws, cap: int) {
    SelectRoute(nodes, wish, draws).Ok? && ProbationHops(SelectRoute(nodes, wish, draws).value) <= cap
  }

  /** The number of hops on probation stays within the cap for every draw, exactly when every spent budget finds
      a settled candidate. */
  lemma CapHoldsExactly(nodes: seq<Node>, wish: Wish, cap: int)
    requires Routable(nodes, wish) && wish.maxProbation == Some(cap)
    ensures (forall draws :: KeepsCap(nodes, wish, draws, cap)) <==> CapHolds(nodes, wish, cap)
  {
    hide SelectRoute, Possible, CapHolds, Fits, Refused;
    if CapHolds(nodes, wish, cap) {
      forall draws ensures KeepsCap(nodes, wish, draws, cap) {
        NeverDeadEnds(nodes, wish, draws);
        SelectedIsPossible(nodes, wish, draws);
        RouteFits(nodes, wish, draws);
        FittingNodes(nodes, wish, SelectRoute(nodes, wish, draws).value);
        PossibleWithinCap(nodes, wish, cap, SelectRoute(nodes, wish, draws).value);
      }
    } else {
      var draws := CapBroken(nodes, wish, cap);
      assert !KeepsCap(nodes, wish, draws, cap);
    }
  }

  /** Draws that break the cap where a spent budget finds nobody settled. */
  lemma CapBroken(nodes: seq<Node>, wish: Wish, cap: int) returns (draws: Draws)
    requires Routable(nodes, wish) && wish.maxProbation == Some(cap) && !CapHolds(nodes, wish, cap)
    ensures SelectRoute(nodes, wish, draws).Ok? && ProbationHops(SelectRoute(nodes, wish, draws).value) > cap
  {
    hide SelectRoute, Fits, Refused, WithinProbation, PreferNotAvoided, EntryGroup, MixGroup, EligibleExits;
    hide AnySettled;
    hide FixedEntry, FixedExit, Routable;
    var (entry, exit) := (FixedEntry(nodes, wish), FixedExit(nodes, wish));
    if e, m :| e in nodes && m in nodes && exit.None? && MayEnter(nodes, wish, e) && MayMix(nodes, wish, e, m)
               && !ExitFound(nodes, cap, e, m) {
      draws := Completed(nodes, wish, e, Some(m));
      var r := SelectRoute(nodes, wish, draws).value;
      SpentBudget(EligibleExits(nodes, e, m), Less(Some(cap), OnProbation(Some(e)) + OnProbation(Some(m))),
                  wish.avoid, r.exit);
    } else if e :| e in nodes && MayEnter(nodes, wish, e) && !MixFound(nodes, wish, cap, e) {
      draws := Completed(nodes, wish, e, None);
      var r := SelectRoute(nodes, wish, draws).value;
      SpentBudget(MixGroup(nodes, wish, e), Less(Some(cap), OnProbation(Some(e)) + OnProbation(exit)), wish.avoid, r.mix);
    } else {
      draws := SomeDraws(nodes, wish);
      var r := SelectRoute(nodes, wish, draws).value;
      if entry.None? && OnProbation(exit) >= cap && !AnySettled(EntryGroup(nodes, wish)) {
        SpentBudget(EntryGroup(nodes, wish), Less(Some(cap), OnProbation(exit)), {}, r.entry);
      }
    }
  }

  lemma SomeDraws(nodes: seq<Node>, wish: Wish) returns (draws: Draws)
    requires Routable(nodes, wish)
    ensures var r := SelectRoute(nodes, wish, draws);
      && r.Ok? && Possible(nodes, wish, r.value)
      && (FixedExit(nodes, wish).Some? ==> FixedExit(nodes, wish) == Some(r.value.exit))
  {
    hide SelectRoute, Fits, Refused, FixedExit, FixedEntry, EntryPool, MixPool, ExitPool;
    draws := Draws(0, 0, 0);
    NeverDeadEnds(nodes, wish, draws);
    SelectedIsPossible(nodes, wish, draws);
  }

  /* ----- hop by hop ----- */

  lemma AvoidedPick(candidates: seq<Node>, avoid: set<NodeId>, n: Node)
    requires n in PreferNotAvoided(candidates, avoid)
    ensures n.id in avoid <==> forall x :: x in candidates ==> x.id in avoid
  {
    PreferChooses(candidates, avoid);
    Members(Filter(candidates, (n: Node) => n.id !in avoid));
  }

  /** Once the budget is spent, a hop that is not fixed is on probation exactly when its whole group is; mix and
      exit are avoided nodes exactly when everybody the budget leaves is. */
  lemma HopsArePreferred(nodes: seq<Node>, wish: Wish, draws: Draws, cap: int)
    requires SelectRoute(nodes, wish, draws).Ok? && wish.maxProbation == Some(cap)
    ensures var r := SelectRoute(nodes, wish, draws).value;
      var (entry, exit) := (FixedEntry(nodes, wish), FixedExit(nodes, wish));
      var mixUsed := OnProbation(Some(r.entry)) + OnProbation(exit);
      var exitUsed := OnProbation(Some(r.entry)) + OnProbation(Some(r.mix));
      && (entry.None? && OnProbation(exit) >= cap ==> (r.entry.probation <==> !AnySettled(EntryGroup(nodes, wish))))
      && (mixUsed >= cap ==> (r.mix.probation <==> !AnySettled(MixGroup(nodes, wish, r.entry))))
      && (exit.None? && exitUsed >= cap ==> (r.exit.probation <==> !AnySettled(EligibleExits(nodes, r.entry, r.mix))))
      && (r.mix.id in wish.avoid <==>
          forall n :: n in WithinProbation(MixGroup(nodes, wish, r.entry), Some(cap - mixUsed)) ==> n.id in wish.avoid)
      && (exit.None? ==> (r.exit.id in wish.avoid <==>
          forall n :: n in WithinProbation(EligibleExits(nodes, r.entry, r.mix), Some(cap - exitUsed)) ==>
            n.id in wish.avoid))
  {
    hide SelectRoute, WithinProbation, PreferNotAvoided, EntryGroup, MixGroup, EligibleExits, AnySettled;
    hide FixedEntry, FixedExit;
    SelectedIsPossible(nodes, wish, draws);
    var r := SelectRoute(nodes, wish, draws).value;
    var (entry, exit) := (FixedEntry(nodes, wish), FixedExit(nodes, wish));
    var mixUsed := OnProbation(Some(r.entry)) + OnProbation(exit);
    var exitUsed := OnProbation(Some(r.entry)) + OnProbation(Some(r.mix));
    if entry.None? && OnProbation(exit) >= cap {
      SpentBudget(EntryGroup(nodes, wish), Some(cap - OnProbation(exit)), {}, r.entry);
    }
    if mixUsed >= cap { SpentBudget(MixGroup(nodes, wish, r.entry), Some(cap - mixUsed), wish.avoid, r.mix); }
    AvoidedPick(WithinProbation(MixGroup(nodes, wish, r.entry), Some(cap - mixUsed)), wish.avoid, r.mix);
    if exit.None? {
      if exitUsed >= cap { SpentBudget(EligibleExits(nodes, r.entry, r.mix), Some(cap - exitUsed), wish.avoid, r.exit); }
      AvoidedPick(WithinProbation(EligibleExits(nodes, r.entry, r.mix), Some(cap - exitUsed)), wish.avoid, r.exit);
    }
  }

  /* ----- nodes that show it ----- */

  /** No probation allowed, nothing fixed, entry through nodes 0 and 1. */
  const NO_PROBATION: Wish := Wish(None, None, {}, (n: Node) => n.id <= 1, Some(0))

  /** An entry on probation that is no exit, an entry that is an exit, a mix and an exit, all settled. */
  const ENTRY_NODES: seq<Node> := [Node(0, 1, true), Node(1, 2, false), Node(2, 1, false), Node(3, 2, false)]

  /** An entry, a mix on probation that is no exit, and two exits, all settled. */
  const MIX_NODES: seq<Node> := [Node(0, 1, false), Node(4, 1, true), Node(2, 2, false), Node(3, 2, false)]

  lemma OnlyProbationLeft(nodes: seq<Node>, group: seq<Node>, n: Node)
    requires n in nodes && n.probation && n in group && !Lists(Exits(nodes), n.id)
    requires forall x :: x in group && !Lists(Exits(nodes), x.id) ==> x.probation
    ensures !AnySettled(Class(group, Exits(nodes)))
  {
    hide Exits, Lists;
    NonExitsExact(group, Exits(nodes));
    var only := NonExits(group, Exits(nodes));
    assert forall i :: 0 <= i < |only| ==> only[i] in only;
  }

  lemma ExitIds(nodes: seq<Node>, id: NodeId)
    ensures Lists(Exits(nodes), id) <==> exists n :: n in nodes && (n.role == 2 || n.role == 3) && n.id == id
  {
    hide Exits;
    ExitsExact(nodes);
    var exits := Exits(nodes);
    assert forall i :: 0 <= i < |exits| ==> exits[i] in exits;
    if n :| n in nodes && (n.role == 2 || n.role == 3) && n.id == id { ListsMember(exits, n); }
  }

  lemma NothingFixed(nodes: seq<Node>)
    ensures FixedEntry(nodes, NO_PROBATION) == None && FixedExit(nodes, NO_PROBATION) == None
    ensures !Refused(nodes, NO_PROBATION)
  {}

  /** A settled entry that is also an exit could serve, and still the entry is on probation for every draw. */
  lemma EntryOnProbation(draws: Draws)
    ensures var r := SelectRoute(ENTRY_NODES, NO_PROBATION, draws);
      && r.Ok? && r.value.entry.probation && ProbationHops(r.value) > 0
      && Fits(ENTRY_NODES, NO_PROBATION, Route(Node(1, 2, false), Node(2, 1, false), Node(3, 2, false)))
  {
    hide SelectRoute, Exits, Selectable, FixedEntry, FixedExit, Refused, EntryGroup, MixGroup, AnySettled;
    hide Lists, Entries;
    var nodes := ENTRY_NODES;
    var w := Route(nodes[1], nodes[2], nodes[3]);
    assert w == Route(Node(1, 2, false), Node(2, 1, false), Node(3, 2, false));
    assert Fits(nodes, NO_PROBATION, w);
    NothingFixed(nodes);
    NeverDeadEnds(nodes, NO_PROBATION, draws);
    SelectableExact(nodes, NO_PROBATION, None);
    EntriesExact(nodes, NO_PROBATION);
    ExitIds(nodes, 0);
    ExitIds(nodes, 1);
    var group := Selectable(nodes, NO_PROBATION, None);
    assert nodes[0] in group;
    assert nodes[1] in nodes && Lists(Exits(nodes), 1);
    assert forall x :: x in group && !Lists(Exits(nodes), x.id) ==> x.probation;
    OnlyProbationLeft(nodes, group, nodes[0]);
    assert !AnySettled(EntryGroup(nodes, NO_PROBATION)) by { EntryGroupIs(nodes); }
    HopsArePreferred(nodes, NO_PROBATION, draws, 0);
  }

  lemma EntryGroupIs(nodes: seq<Node>)
    requires FixedExit(nodes, NO_PROBATION) == None
    ensures EntryGroup(nodes, NO_PROBATION) == Class(Selectable(nodes, NO_PROBATION, None), Exits(nodes))
  {}

  lemma MixGroupIs(nodes: seq<Node>, entry: Node)
    requires FixedExit(nodes, NO_PROBATION) == None
    ensures MixGroup(nodes, NO_PROBATION, entry) == Class(EligibleMixes(nodes, entry, None), Exits(nodes))
  {}

  /** The same for the mix: two settled exits could serve as mix and exit. */
  lemma MixOnProbation(draws: Draws)
    ensures var r := SelectRoute(MIX_NODES, NO_PROBATION, draws);
      && r.Ok? && r.value.mix.probation && ProbationHops(r.value) > 0
      && Fits(MIX_NODES, NO_PROBATION, Route(Node(0, 1, false), Node(2, 2, false), Node(3, 2, false)))
  {
    hide SelectRoute, Exits, EligibleMixes, FixedEntry, FixedExit, Refused, EntryGroup, MixGroup, AnySettled;
    hide Lists;
    var nodes := MIX_NODES;
    var w := Route(nodes[0], nodes[2], nodes[3]);
    assert w == Route(Node(0, 1, false), Node(2, 2, false), Node(3, 2, false));
    assert Fits(nodes, NO_PROBATION, w);
    NothingFixed(nodes);
    NeverDeadEnds(nodes, NO_PROBATION, draws);
    RouteFits(nodes, NO_PROBATION, draws);
    var entry := SelectRoute(nodes, NO_PROBATION, draws).value.entry;
    assert entry.id == 0;
    EligibleExact(nodes, entry, None);
    ExitIds(nodes, 4);
    ExitIds(nodes, 2);
    ExitIds(nodes, 3);
    var group := EligibleMixes(nodes, entry, None);
    assert nodes[1] in group;
    assert nodes[2] in nodes && nodes[3] in nodes && Lists(Exits(nodes), 2) && Lists(Exits(nodes), 3);
    assert forall x :: x in group && !Lists(Exits(nodes), x.id) ==> x.probation;
    OnlyProbationLeft(nodes, group, nodes[1]);
    assert !AnySettled(MixGroup(nodes, NO_PROBATION, entry)) by { MixGroupIs(nodes, entry); }
    HopsArePreferred(nodes, NO_PROBATION, draws, 0);
  }
}
