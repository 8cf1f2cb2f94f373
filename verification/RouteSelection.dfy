/** Choosing a route of three hops. Every random pick is an arbitrary draw, so what is proved holds for every
    outcome of the random generator. */
module RouteSelection {
  import opened Outcomes

  type NodeId = nat

  datatype Node = Node(id: NodeId, role: int, probation: bool)

  datatype Route = Route(entry: Node, mix: Node, exit: Node)

  /** What the caller fixes: pinned hops, ids to avoid, which nodes it can enter through, and the cap on
      hops on probation, None for no cap. */
  datatype Wish = Wish(
    pinnedEntry: Option<NodeId>, selectedExit: Option<NodeId>, avoid: set<NodeId>, isEntry: Node -> bool,
    maxProbation: Option<int>)

  datatype Draws = Draws(entry: nat, mix: nat, exit: nat)

  datatype Failure = NoEntries | NoMixes | NoExits | UnknownExit | UnknownEntry | ExitIsEntry | ExitOnProbation
                   | NoDistinctEntry | NoDistinctMix | NoDistinctExit

  function LayersForRole(role: int): seq<nat> { if role == 1 then [0, 1] else [0, 1, 2] }

  function Filter(nodes: seq<Node>, keep: Node -> bool): (r: seq<Node>)
    ensures forall n :: n in r <==> n in nodes && keep(n)
  {
    if nodes == [] then []
    else
      var k := |nodes| - 1;
      Filter(nodes[..k], keep) + if keep(nodes[k]) then [nodes[k]] else []
  }

  function Entries(nodes: seq<Node>, wish: Wish): seq<Node> {
    Filter(nodes, (n: Node) => 0 in LayersForRole(n.role) && wish.isEntry(n))
  }

  function Mixes(nodes: seq<Node>): seq<Node> { Filter(nodes, (n: Node) => 1 in LayersForRole(n.role)) }

  function Exits(nodes: seq<Node>): seq<Node> {
    Filter(nodes, (n: Node) => 2 in LayersForRole(n.role) && (n.role == 2 || n.role == 3))
  }

  /** The first node with an id. */
  function Find(nodes: seq<Node>, id: NodeId): (r: Option<Node>)
    ensures r.Some? ==> r.value in nodes && r.value.id == id
    ensures r.None? ==> forall n :: n in nodes ==> n.id != id
  {
    if nodes == [] then None else if nodes[0].id == id then Some(nodes[0]) else Find(nodes[1..], id)
  }

  predicate Lists(nodes: seq<Node>, id: NodeId) { exists i | 0 <= i < |nodes| :: nodes[i].id == id }

  function WithinProbation(candidates: seq<Node>, budget: Option<int>): seq<Node> {
    var settled := Filter(candidates, (n: Node) => !n.probation);
    if budget.None? || budget.value > 0 || settled == [] then candidates else settled
  }

  function PreferNotAvoided(candidates: seq<Node>, avoid: set<NodeId>): seq<Node> {
    var preferred := Filter(candidates, (n: Node) => n.id !in avoid);
    if avoid == {} || preferred == [] then candidates else preferred
  }

  function PickRandom(candidates: seq<Node>, draw: nat): Option<Node> {
    if candidates == [] then None else Some(candidates[draw % |candidates|])
  }

  function OrElse(first: Option<Node>, second: Option<Node>): Option<Node> { if first.Some? then first else second }

  function OnProbation(n: Option<Node>): nat { if n.Some? && n.value.probation then 1 else 0 }

  function Less(budget: Option<int>, used: int): Option<int> {
    if budget.None? then None else Some(budget.value - used)
  }

  predicate IsNot(n: Option<Node>, id: NodeId) { n.None? || n.value.id != id }

  /** The fixed hops exceed the cap while a settled exit could serve. */
  predicate CapRefuses(exits: seq<Node>, entry: Option<Node>, exit: Option<Node>, cap: Option<int>) {
    && exit.Some? && exit.value.probation
    && cap.Some? && OnProbation(entry) + OnProbation(exit) > cap.value
    && exists i | 0 <= i < |exits| :: !exits[i].probation && IsNot(entry, exits[i].id)
  }

  function NonExits(allowed: seq<Node>, exits: seq<Node>): seq<Node> {
    Filter(allowed, (n: Node) => !Lists(exits, n.id))
  }

  /** Of the nodes allowed, those that are no exits, or all of them when there are none such. */
  function Class(allowed: seq<Node>, exits: seq<Node>): seq<Node> {
    if NonExits(allowed, exits) != [] then NonExits(allowed, exits) else allowed
  }

  function Selectable(nodes: seq<Node>, wish: Wish, exit: Option<Node>): seq<Node> {
    Filter(Entries(nodes, wish), (n: Node) => IsNot(exit, n.id))
  }

  function EntryChoice(nodes: seq<Node>, wish: Wish, exit: Option<Node>, draw: nat): Option<Node> {
    var selectable := Selectable(nodes, wish, exit);
    var only := NonExits(selectable, Exits(nodes));
    var budget := Less(wish.maxProbation, OnProbation(exit));
    OrElse(PickRandom(WithinProbation(only, budget), draw), PickRandom(WithinProbation(selectable, budget), draw))
  }

  function EligibleMixes(nodes: seq<Node>, entry: Node, exit: Option<Node>): seq<Node> {
    Filter(Mixes(nodes), (n: Node) => n.id != entry.id && IsNot(exit, n.id))
  }

  function MixChoice(nodes: seq<Node>, wish: Wish, entry: Node, exit: Option<Node>, draw: nat): Option<Node> {
    var eligible := EligibleMixes(nodes, entry, exit);
    var only := NonExits(eligible, Exits(nodes));
    var budget := Less(wish.maxProbation, OnProbation(Some(entry)) + OnProbation(exit));
    OrElse(PickRandom(PreferNotAvoided(WithinProbation(only, budget), wish.avoid), draw),
           PickRandom(PreferNotAvoided(WithinProbation(eligible, budget), wish.avoid), draw))
  }

  function EligibleExits(nodes: seq<Node>, entry: Node, mix: Node): seq<Node> {
    Filter(Exits(nodes), (n: Node) => n.id != entry.id && n.id != mix.id)
  }

  function ExitChoice(nodes: seq<Node>, wish: Wish, entry: Node, mix: Node, draw: nat): Option<Node> {
    var eligible := EligibleExits(nodes, entry, mix);
    var budget := Less(wish.maxProbation, OnProbation(Some(entry)) + OnProbation(Some(mix)));
    PickRandom(PreferNotAvoided(WithinProbation(eligible, budget), wish.avoid), draw)
  }

  /** A hop the caller fixed, looked up by id. */
  function Fixed(nodes: seq<Node>, id: Option<NodeId>): Option<Node> {
    if id.None? then None else Find(nodes, id.value)
  }

  /** The cap refuses the selected exit. */
  predicate Refused(nodes: seq<Node>, wish: Wish) {
    CapRefuses(Exits(nodes), Fixed(Entries(nodes, wish), wish.pinnedEntry), Fixed(Exits(nodes), wish.selectedExit),
               wish.maxProbation)
  }

  /** selectRoute. */
  function SelectRoute(nodes: seq<Node>, wish: Wish, draws: Draws): Result<Route, Failure> {
    var (entries, mixes, exits) := (Entries(nodes, wish), Mixes(nodes), Exits(nodes));
    if entries == [] then Err(NoEntries)
    else if mixes == [] then Err(NoMixes)
    else if exits == [] then Err(NoExits)
    else
      var pinnedExit := Fixed(exits, wish.selectedExit);
      var pinnedEntry := Fixed(entries, wish.pinnedEntry);
      if wish.selectedExit.Some? && pinnedExit.None? then Err(UnknownExit)
      else if wish.pinnedEntry.Some? && pinnedEntry.None? then Err(UnknownEntry)
      else if pinnedExit.Some? && !IsNot(pinnedEntry, pinnedExit.value.id) then Err(ExitIsEntry)
      else if CapRefuses(exits, pinnedEntry, pinnedExit, wish.maxProbation) then Err(ExitOnProbation)
      else
        var entry := OrElse(pinnedEntry, EntryChoice(nodes, wish, pinnedExit, draws.entry));
        if entry.None? then Err(NoDistinctEntry)
        else
          var mix := MixChoice(nodes, wish, entry.value, pinnedExit, draws.mix);
          if mix.None? then Err(NoDistinctMix)
          else
            var exit := OrElse(pinnedExit, ExitChoice(nodes, wish, entry.value, mix.value, draws.exit));
            if exit.None? then Err(NoDistinctExit) else Ok(Route(entry.value, mix.value, exit.value))
  }

  /* ----- what a route must be ----- */

  /** Three distinct nodes that can serve as entry, mix and exit, and the fixed hops in their places. */
  predicate Fits(nodes: seq<Node>, wish: Wish, r: Route) {
    && r.entry in nodes && wish.isEntry(r.entry)
    && r.mix in nodes
    && r.exit in nodes && (r.exit.role == 2 || r.exit.role == 3)
    && r.entry.id != r.mix.id && r.mix.id != r.exit.id && r.entry.id != r.exit.id
    && (wish.pinnedEntry.Some? ==> r.entry.id == wish.pinnedEntry.value)
    && (wish.selectedExit.Some? ==> r.exit.id == wish.selectedExit.value)
  }

  /* ----- a choice is made whenever there is a candidate ----- */

  lemma WithinProbationChooses(candidates: seq<Node>, budget: Option<int>)
    ensures WithinProbation(candidates, budget) == [] <==> candidates == []
    ensures forall n :: n in WithinProbation(candidates, budget) ==> n in candidates
  {
    var settled := Filter(candidates, (n: Node) => !n.probation);
    assert candidates == [] ==> settled == [];
  }

  lemma PreferChooses(candidates: seq<Node>, avoid: set<NodeId>)
    ensures PreferNotAvoided(candidates, avoid) == [] <==> candidates == []
    ensures forall n :: n in PreferNotAvoided(candidates, avoid) ==> n in candidates
  {
    var preferred := Filter(candidates, (n: Node) => n.id !in avoid);
    assert candidates == [] ==> preferred == [];
  }

  lemma Picked(candidates: seq<Node>, draw: nat)
    ensures PickRandom(candidates, draw).None? <==> candidates == []
    ensures PickRandom(candidates, draw).Some? ==> PickRandom(candidates, draw).value in candidates
  {}

  /** The entry is chosen from its class, exactly when somebody can be. */
  lemma EntryChosen(nodes: seq<Node>, wish: Wish, exit: Option<Node>, draw: nat)
    ensures var selectable := Selectable(nodes, wish, exit);
      var r := EntryChoice(nodes, wish, exit, draw);
      && (r.None? <==> selectable == [])
      && (r.Some? ==> r.value in Class(selectable, Exits(nodes)) && r.value in selectable)
  {
    hide WithinProbation, PickRandom, Selectable, Exits, NonExits;
    var selectable := Selectable(nodes, wish, exit);
    var only := NonExits(selectable, Exits(nodes));
    var budget := Less(wish.maxProbation, OnProbation(exit));
    WithinProbationChooses(only, budget);
    WithinProbationChooses(selectable, budget);
    Picked(WithinProbation(only, budget), draw);
    Picked(WithinProbation(selectable, budget), draw);
    NonExitsExact(selectable, Exits(nodes));
  }

  lemma MixChosen(nodes: seq<Node>, wish: Wish, entry: Node, exit: Option<Node>, draw: nat)
    ensures var eligible := EligibleMixes(nodes, entry, exit);
      var r := MixChoice(nodes, wish, entry, exit, draw);
      && (r.None? <==> eligible == [])
      && (r.Some? ==> r.value in Class(eligible, Exits(nodes)) && r.value in eligible)
  {
    hide WithinProbation, PickRandom, EligibleMixes, Exits, PreferNotAvoided, NonExits;
    var eligible := EligibleMixes(nodes, entry, exit);
    var only := NonExits(eligible, Exits(nodes));
    var budget := Less(wish.maxProbation, OnProbation(Some(entry)) + OnProbation(exit));
    WithinProbationChooses(only, budget);
    WithinProbationChooses(eligible, budget);
    PreferChooses(WithinProbation(only, budget), wish.avoid);
    PreferChooses(WithinProbation(eligible, budget), wish.avoid);
    Picked(PreferNotAvoided(WithinProbation(only, budget), wish.avoid), draw);
    Picked(PreferNotAvoided(WithinProbation(eligible, budget), wish.avoid), draw);
    NonExitsExact(eligible, Exits(nodes));
  }

  lemma ExitChosen(nodes: seq<Node>, wish: Wish, entry: Node, mix: Node, draw: nat)
    ensures var eligible := EligibleExits(nodes, entry, mix);
      var r := ExitChoice(nodes, wish, entry, mix, draw);
      (r.None? <==> eligible == []) && (r.Some? ==> r.value in eligible)
  {
    hide WithinProbation, PickRandom, PreferNotAvoided, EligibleExits;
    var eligible := EligibleExits(nodes, entry, mix);
    var budget := Less(wish.maxProbation, OnProbation(Some(entry)) + OnProbation(Some(mix)));
    WithinProbationChooses(eligible, budget);
    PreferChooses(WithinProbation(eligible, budget), wish.avoid);
    Picked(PreferNotAvoided(WithinProbation(eligible, budget), wish.avoid), draw);
  }

  lemma NonExitsExact(allowed: seq<Node>, exits: seq<Node>)
    ensures forall n :: n in NonExits(allowed, exits) <==> n in allowed && !Lists(exits, n.id)
    ensures NonExits(allowed, exits) == [] <==> forall n :: n in allowed ==> Lists(exits, n.id)
  {
    hide Lists;
    var only := NonExits(allowed, exits);
    assert only != [] ==> only[0] in only;
  }

  lemma ListsMember(nodes: seq<Node>, n: Node)
    requires n in nodes
    ensures Lists(nodes, n.id)
  {}

  lemma ExitsExact(nodes: seq<Node>)
    ensures forall n :: n in Exits(nodes) <==> n in nodes && (n.role == 2 || n.role == 3)
  {}

  lemma EntriesExact(nodes: seq<Node>, wish: Wish)
    ensures forall n :: n in Entries(nodes, wish) <==> n in nodes && wish.isEntry(n)
  {}

  lemma SelectableExact(nodes: seq<Node>, wish: Wish, exit: Option<Node>)
    ensures forall n :: n in Selectable(nodes, wish, exit) <==> n in Entries(nodes, wish) && IsNot(exit, n.id)
  {
    hide Entries;
  }

  lemma MixesExact(nodes: seq<Node>)
    ensures forall n :: n in Mixes(nodes) <==> n in nodes
  {}

  lemma EligibleExact(nodes: seq<Node>, entry: Node, exit: Option<Node>)
    ensures forall n :: n in EligibleMixes(nodes, entry, exit) <==> n in nodes && n.id != entry.id && IsNot(exit, n.id)
  {
    hide Mixes;
    MixesExact(nodes);
  }

  lemma EligibleExitsExact(nodes: seq<Node>, entry: Node, mix: Node)
    ensures forall n :: n in EligibleExits(nodes, entry, mix) <==> n in Exits(nodes) && n.id != entry.id && n.id != mix.id
  {
    hide Exits;
  }

  /** Whatever is drawn, a returned route fits. */
  lemma RouteFits(nodes: seq<Node>, wish: Wish, draws: Draws)
    requires SelectRoute(nodes, wish, draws).Ok?
    ensures Fits(nodes, wish, SelectRoute(nodes, wish, draws).value)
  {
    hide EntryChoice, MixChoice, ExitChoice, Find, CapRefuses, Entries, Exits, Mixes, Class, Selectable;
    hide EligibleMixes, EligibleExits;
    var exit := Fixed(Exits(nodes), wish.selectedExit);
    var r := SelectRoute(nodes, wish, draws).value;
    EntriesExact(nodes, wish);
    SelectableExact(nodes, wish, exit);
    EligibleExact(nodes, r.entry, exit);
    EligibleExitsExact(nodes, r.entry, r.mix);
    ExitsExact(nodes);
    EntryChosen(nodes, wish, exit, draws.entry);
    MixChosen(nodes, wish, r.entry, exit, draws.mix);
    ExitChosen(nodes, wish, r.entry, r.mix, draws.exit);
  }

  /** A non-empty list has a member, and an empty one has none. */
  lemma Members(nodes: seq<Node>)
    ensures nodes == [] <==> forall n :: n !in nodes
  {
    assert nodes != [] ==> nodes[0] in nodes;
  }

  /** The exit with a listed id. */
  lemma ListedExit(nodes: seq<Node>, id: NodeId, entry: Node, mix: Node)
    requires Lists(Exits(nodes), id) && id != entry.id && id != mix.id
    ensures EligibleExits(nodes, entry, mix) != []
  {
    hide Exits;
    var exits := Exits(nodes);
    var i :| 0 <= i < |exits| && exits[i].id == id;
    assert exits[i] in EligibleExits(nodes, entry, mix);
  }

  /** Without a fixed exit, any entry and mix chosen this way leave an exit, if some route w fits. */
  lemma ExitRemains(nodes: seq<Node>, wish: Wish, entry: Node, mix: Node, w: Route)
    requires Fits(nodes, wish, w)
    requires mix in Class(EligibleMixes(nodes, entry, None), Exits(nodes))
    requires entry.id == w.entry.id || entry in Class(Selectable(nodes, wish, None), Exits(nodes))
    ensures EligibleExits(nodes, entry, mix) != []
  {
    hide Filter, Lists, EligibleExits, NonExits, Exits, EligibleMixes, Selectable;
    var (exits, mixes, entries) := (Exits(nodes), EligibleMixes(nodes, entry, None), Selectable(nodes, wish, None));
    FixedHops(nodes, wish, w);
    ListsMember(exits, w.exit);
    NonExitsExact(mixes, exits);
    NonExitsExact(entries, exits);
    EligibleExact(nodes, entry, None);
    SelectableExact(nodes, wish, None);
    if Lists(exits, mix.id) {
      assert NonExits(mixes, exits) == [];
      OthersAreExits(nodes, wish, entry, mix, w);
    } else {
      var id := if w.exit.id != entry.id then w.exit.id else w.entry.id;
      ListedExit(nodes, id, entry, mix);
    }
  }

  /** Every node but the entry is an exit: one of the three of w is neither entry nor mix. */
  lemma OthersAreExits(nodes: seq<Node>, wish: Wish, entry: Node, mix: Node, w: Route)
    requires Fits(nodes, wish, w)
    requires forall n :: n in nodes && n.id != entry.id ==> Lists(Exits(nodes), n.id)
    ensures EligibleExits(nodes, entry, mix) != []
  {
    hide Lists, EligibleExits, Exits;
    var n := if w.exit.id != entry.id && w.exit.id != mix.id then w.exit
             else if w.mix.id != entry.id && w.mix.id != mix.id then w.mix else w.entry;
    ListedExit(nodes, n.id, entry, mix);
  }

  /** Whatever was chosen as entry, a mix remains. */
  lemma MixRemains(nodes: seq<Node>, wish: Wish, entry: Node, exit: Option<Node>, w: Route)
    requires Fits(nodes, wish, w) && (exit.Some? ==> exit.value.id == w.exit.id && entry.id != w.exit.id)
    ensures EligibleMixes(nodes, entry, exit) != []
  {
    hide Filter;
    var n := if w.mix.id != entry.id then w.mix else if w.entry.id != entry.id then w.entry else w.exit;
    Members(EligibleMixes(nodes, entry, exit));
    if exit.Some? {
      assert w.mix.id != entry.id ==> w.mix in EligibleMixes(nodes, entry, exit);
      assert w.mix.id == entry.id ==> w.entry in EligibleMixes(nodes, entry, exit);
    } else {
      assert n in EligibleMixes(nodes, entry, exit);
    }
  }

  /** The fixed hops of a route that fits are found and distinct. */
  lemma FixedHops(nodes: seq<Node>, wish: Wish, w: Route)
    requires Fits(nodes, wish, w)
    ensures w.entry in Entries(nodes, wish) && w.exit in Exits(nodes) && w.mix in Mixes(nodes)
    ensures var (entry, exit) := (Fixed(Entries(nodes, wish), wish.pinnedEntry), Fixed(Exits(nodes), wish.selectedExit));
      && (wish.pinnedEntry.Some? ==> entry.Some? && entry.value.id == w.entry.id)
      && (wish.selectedExit.Some? ==> exit.Some? && exit.value.id == w.exit.id)
  {
    hide Filter, Find;
  }

  /** The greedy choice never runs into a dead end. */
  lemma GreedySucceeds(nodes: seq<Node>, wish: Wish, draws: Draws, w: Route)
    requires Fits(nodes, wish, w)
    requires !Refused(nodes, wish)
    ensures SelectRoute(nodes, wish, draws).Ok?
  {
    hide EntryChoice, MixChoice, ExitChoice, Entries, Mixes, Exits, Fixed, CapRefuses, Class;
    FixedHops(nodes, wish, w);
    var pinnedExit := Fixed(Exits(nodes), wish.selectedExit);
    var pinnedEntry := Fixed(Entries(nodes, wish), wish.pinnedEntry);
    assert wish.selectedExit.None? ==> pinnedExit == None by { NotFixed(Exits(nodes)); }
    assert wish.pinnedEntry.None? ==> pinnedEntry == None by { NotFixed(Entries(nodes, wish)); }
    EntryChosen(nodes, wish, pinnedExit, draws.entry);
    assert w.entry in Selectable(nodes, wish, pinnedExit);
    var entry := OrElse(pinnedEntry, EntryChoice(nodes, wish, pinnedExit, draws.entry));
    assert entry.Some?;
    MixChosen(nodes, wish, entry.value, pinnedExit, draws.mix);
    MixRemains(nodes, wish, entry.value, pinnedExit, w);
    var mix := MixChoice(nodes, wish, entry.value, pinnedExit, draws.mix);
    if pinnedExit.None? {
      ExitRemains(nodes, wish, entry.value, mix.value, w);
      ExitChosen(nodes, wish, entry.value, mix.value, draws.exit);
    }
  }

  lemma NotFixed(nodes: seq<Node>)
    ensures Fixed(nodes, None) == None
  {}

  /** For every draw and every set of nodes to avoid, a route is found exactly when one fits, unless the cap
      refuses the fixed exit; without a cap it never does. */
  lemma NeverDeadEnds(nodes: seq<Node>, wish: Wish, draws: Draws)
    ensures SelectRoute(nodes, wish, draws).Ok? <==>
      && (exists w :: Fits(nodes, wish, w))
      && !Refused(nodes, wish)
    ensures wish.maxProbation.None? ==>
      (SelectRoute(nodes, wish, draws).Ok? <==> exists w :: Fits(nodes, wish, w))
  {
    hide EntryChoice, MixChoice, ExitChoice, Entries, Mixes, Exits, Fixed, Fits;
    if SelectRoute(nodes, wish, draws).Ok? { RouteFits(nodes, wish, draws); }
    if w :| Fits(nodes, wish, w) {
      if !Refused(nodes, wish) {
        GreedySucceeds(nodes, wish, draws, w);
      }
    }
  }
}
