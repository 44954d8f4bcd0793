/**
 * The proposal development view: per-location availability stats, the available and proposed
 * selections for the expanded location, the optimistic add and remove of proposal circuits on
 * the cached proposal with rollback to the snapshot, and the expand/collapse toggle.
 */
module ProposalDevelopment {
  import opened Wrappers
  import opened Circuits
  import opened Numbers
  import opened Seqs

  /** The location fields the view reads. */
  datatype Location = Location(id: string, name: string, city: string, state: string, criticality: string)

  /** One value of the `locationStats` map. */
  datatype LocationStat = LocationStat(available: int, proposed: int, monthlyCost: int)

  // ---------------------------------------------------------------------------
  // The filters behind the stats and the selections

  /** `allCircuits?.filter(c => c.location_id === id) || []`. */
  function CircuitsAt(all: Option<seq<Circuit>>, id: string): (r: seq<Circuit>)
    ensures forall c :: c in r <==> all.Some? && c in all.value && c.locationId == id
    ensures all.Some? ==> IsSubsequence(r, all.value)
    ensures all.Some? ==> forall c :: multiset(r)[c] == if c.locationId == id then multiset(all.value)[c] else 0
  {
    match all
    case None => []
    case Some(cs) => CircuitsOfLocation(cs, id)
  }

  function CircuitsOfLocation(cs: seq<Circuit>, id: string): (r: seq<Circuit>)
    ensures forall c :: c in r <==> c in cs && c.locationId == id
    ensures IsSubsequence(r, cs)
    ensures forall c :: multiset(r)[c] == if c.locationId == id then multiset(cs)[c] else 0
  {
    if cs == [] then []
    else
      var init := CircuitsOfLocation(cs[..|cs| - 1], id);
      var last := cs[|cs| - 1];
      Snoc(cs);
      if last.locationId == id then
        assert (init + [last])[..|init + [last]| - 1] == init;
        init + [last]
      else init
  }

  /** `proposal?.circuits?.filter(pc => pc.location_id === id) || []`. */
  function EntriesAt(circuits: Option<seq<ProposalCircuit>>, id: string): (r: seq<ProposalCircuit>)
    ensures forall pc :: pc in r <==> circuits.Some? && pc in circuits.value && pc.locationId == id
    ensures circuits.Some? ==> forall pc :: multiset(r)[pc] == if pc.locationId == id then multiset(circuits.value)[pc] else 0
  {
    match circuits
    case None => []
    case Some(pcs) => EntriesOfLocation(pcs, Some(id))
  }

  /** The entries whose `location_id` is `id`; no entry matches an absent id. */
  function EntriesOfLocation(pcs: seq<ProposalCircuit>, id: Option<string>): (r: seq<ProposalCircuit>)
    ensures forall pc :: pc in r <==> pc in pcs && Some(pc.locationId) == id
    ensures forall pc :: multiset(r)[pc] == if Some(pc.locationId) == id then multiset(pcs)[pc] else 0
  {
    if pcs == [] then []
    else
      var init := EntriesOfLocation(pcs[..|pcs| - 1], id);
      var last := pcs[|pcs| - 1];
      Snoc(pcs);
      if Some(last.locationId) == id then init + [last] else init
  }

  /** `pcs.some(pc => pc.circuit_id === c.id)`. */
  predicate Proposed(c: Circuit, pcs: seq<ProposalCircuit>) {
    exists i :: 0 <= i < |pcs| && pcs[i].circuitId == c.id
  }

  /** The circuits no entry of `pcs` proposes, in order. */
  function Unproposed(cs: seq<Circuit>, pcs: seq<ProposalCircuit>): (r: seq<Circuit>)
    ensures forall c :: c in r <==> c in cs && !Proposed(c, pcs)
    ensures forall c :: multiset(r)[c] == if Proposed(c, pcs) then 0 else multiset(cs)[c]
    ensures |r| <= |cs|
  {
    if cs == [] then []
    else
      var init := Unproposed(cs[..|cs| - 1], pcs);
      var last := cs[|cs| - 1];
      Snoc(cs);
      if Proposed(last, pcs) then init else init + [last]
  }

  // ---------------------------------------------------------------------------
  // locationStats and totalAvailableCircuits

  function CostTerm(pc: ProposalCircuit): (r: int) {
    pc.circuit.monthlyCost
  }

  /**
   * The stats of location `id`: its circuits that none of its own proposal entries proposes,
   * the number of its proposal entries, and their combined monthly cost.
   */
  function StatFor(id: string, all: Option<seq<Circuit>>, circuits: Option<seq<ProposalCircuit>>): (r: LocationStat)
    ensures 0 <= r.available <= |CircuitsAt(all, id)|
    ensures all.None? ==> r.available == 0
    ensures circuits.None? ==> r.proposed == 0 && r.monthlyCost == 0
  {
    var proposed := EntriesAt(circuits, id);
    LocationStat(|Unproposed(CircuitsAt(all, id), proposed)|, |proposed|, Sum(proposed, CostTerm))
  }

  /** An entry of the `Map`, which keeps its keys in insertion order. */
  datatype StatEntry = StatEntry(locationId: string, stat: LocationStat)

  /** Where key `k` sits in the map, or the map's size when it is not there. */
  function IndexOf(entries: seq<StatEntry>, k: string): (i: nat)
    ensures i <= |entries|
    ensures i < |entries| ==> entries[i].locationId == k
    ensures i == |entries| ==> forall j :: 0 <= j < |entries| ==> entries[j].locationId != k
  {
    if entries == [] then 0
    else if entries[0].locationId == k then 0
    else 1 + IndexOf(entries[1..], k)
  }

  /** `Map.set`: a present key keeps its place and takes the new value, a new key goes last. */
  function MapSet(entries: seq<StatEntry>, k: string, v: LocationStat): (r: seq<StatEntry>)
    ensures |r| == if IndexOf(entries, k) < |entries| then |entries| else |entries| + 1
    ensures r[IndexOf(entries, k)] == StatEntry(k, v)
    ensures forall j :: 0 <= j < |entries| && j != IndexOf(entries, k) ==> r[j] == entries[j]
  {
    var i := IndexOf(entries, k);
    if i < |entries| then entries[i := StatEntry(k, v)] else entries + [StatEntry(k, v)]
  }

  /** The map after `forEach` has visited every location. */
  function StatsOf(locations: seq<Location>, all: Option<seq<Circuit>>, circuits: Option<seq<ProposalCircuit>>): (r: seq<StatEntry>)
    ensures |r| <= |locations|
  {
    if locations == [] then []
    else
      var last := locations[|locations| - 1].id;
      MapSet(StatsOf(locations[..|locations| - 1], all, circuits), last, StatFor(last, all, circuits))
  }

  /** `locationStats`: one `stats.set` per location, in the order of `locations`. */
  method LocationStats(locations: seq<Location>, all: Option<seq<Circuit>>, circuits: Option<seq<ProposalCircuit>>)
    returns (stats: seq<StatEntry>)
    ensures stats == StatsOf(locations, all, circuits)
  {
    stats := [];
    for i := 0 to |locations|
      invariant stats == StatsOf(locations[..i], all, circuits)
    {
      var location := locations[i];
      var locationCircuits := CircuitsAt(all, location.id);
      var proposedCircuits := EntriesAt(circuits, location.id);
      var stat := LocationStat(|Unproposed(locationCircuits, proposedCircuits)|, |proposedCircuits|,
                               Sum(proposedCircuits, CostTerm));
      stats := MapSet(stats, location.id, stat);
      assert locations[..i + 1][..i] == locations[..i];
    }
    assert locations[..|locations|] == locations;
  }

  function EntryAvailable(e: StatEntry): (r: int) {
    e.stat.available
  }

  /** `Array.from(locationStats.values()).reduce((sum, stats) => sum + stats.available, 0)`. */
  function TotalAvailable(stats: seq<StatEntry>): (r: int)
    ensures (forall i :: 0 <= i < |stats| ==> stats[i].stat.available >= 0) ==> r >= 0
  {
    AvailableNonNegative(stats);
    Sum(stats, EntryAvailable)
  }

  lemma {:induction false} AvailableNonNegative(stats: seq<StatEntry>)
    ensures (forall i :: 0 <= i < |stats| ==> stats[i].stat.available >= 0) ==> Sum(stats, EntryAvailable) >= 0
  {
    if stats != [] {
      AvailableNonNegative(stats[..|stats| - 1]);
    }
  }

  predicate HasKey(stats: seq<StatEntry>, id: string) {
    exists i :: 0 <= i < |stats| && stats[i].locationId == id
  }

  predicate HasLocation(locations: seq<Location>, id: string) {
    exists i :: 0 <= i < |locations| && locations[i].id == id
  }

  predicate Keyed(stats: seq<StatEntry>, all: Option<seq<Circuit>>, circuits: Option<seq<ProposalCircuit>>) {
    (forall i, j :: 0 <= i < j < |stats| ==> stats[i].locationId != stats[j].locationId)
    && forall i :: 0 <= i < |stats| ==> stats[i].stat == StatFor(stats[i].locationId, all, circuits)
  }

  lemma MapSetKeyed(stats: seq<StatEntry>, k: string, all: Option<seq<Circuit>>, circuits: Option<seq<ProposalCircuit>>)
    requires Keyed(stats, all, circuits)
    ensures Keyed(MapSet(stats, k, StatFor(k, all, circuits)), all, circuits)
    ensures forall id :: HasKey(MapSet(stats, k, StatFor(k, all, circuits)), id) <==> id == k || HasKey(stats, id)
  {
    MapSetKeys(stats, k, StatFor(k, all, circuits));
  }

  /** `Map.set` adds exactly its key to the keys present. */
  lemma MapSetKeys(stats: seq<StatEntry>, k: string, v: LocationStat)
    ensures forall id :: HasKey(MapSet(stats, k, v), id) <==> id == k || HasKey(stats, id)
  {
    var r := MapSet(stats, k, v);
    forall id ensures HasKey(r, id) <==> id == k || HasKey(stats, id)
    {
      if HasKey(stats, id) {
        var i :| 0 <= i < |stats| && stats[i].locationId == id;
        assert r[i].locationId == id;
      }
      if id == k {
        assert r[IndexOf(stats, k)].locationId == k;
      }
    }
  }

  /**
   * The map holds one entry per distinct location id, each holding the stats of its own
   * location, so visiting a location twice changes nothing.
   */
  lemma {:induction false} StatsKeyed(locations: seq<Location>, all: Option<seq<Circuit>>, circuits: Option<seq<ProposalCircuit>>)
    ensures Keyed(StatsOf(locations, all, circuits), all, circuits)
    ensures forall id :: HasKey(StatsOf(locations, all, circuits), id) <==> HasLocation(locations, id)
  {
    if locations != [] {
      var init := locations[..|locations| - 1];
      var last := locations[|locations| - 1];
      StatsKeyed(init, all, circuits);
      MapSetKeyed(StatsOf(init, all, circuits), last.id, all, circuits);
      HasLocationStep(locations);
    }
  }

  lemma HasLocationStep(locations: seq<Location>)
    requires locations != []
    ensures forall id :: HasLocation(locations, id) <==>
      id == locations[|locations| - 1].id || HasLocation(locations[..|locations| - 1], id)
  {
    var init := locations[..|locations| - 1];
    forall id ensures HasLocation(locations, id) <==> id == locations[|locations| - 1].id || HasLocation(init, id)
    {
      if HasLocation(locations, id) {
        var i :| 0 <= i < |locations| && locations[i].id == id;
        if i < |init| {
          assert init[i] == locations[i];
        }
      }
      if HasLocation(init, id) {
        var i :| 0 <= i < |init| && init[i].id == id;
        assert locations[i] == init[i];
      }
    }
  }

  predicate DistinctIds(locations: seq<Location>) {
    forall i, j :: 0 <= i < j < |locations| ==> locations[i].id != locations[j].id
  }

  /** The sum of `available` over the locations, one term per location. */
  function AvailableSum(locations: seq<Location>, all: Option<seq<Circuit>>, circuits: Option<seq<ProposalCircuit>>): (r: int) {
    if locations == [] then 0
    else
      AvailableSum(locations[..|locations| - 1], all, circuits)
      + StatFor(locations[|locations| - 1].id, all, circuits).available
  }

  lemma {:induction false} StatsOfDistinct(locations: seq<Location>, all: Option<seq<Circuit>>, circuits: Option<seq<ProposalCircuit>>)
    requires DistinctIds(locations)
    ensures |StatsOf(locations, all, circuits)| == |locations|
    ensures forall i :: 0 <= i < |locations| ==> StatsOf(locations, all, circuits)[i].locationId == locations[i].id
    ensures TotalAvailable(StatsOf(locations, all, circuits)) == AvailableSum(locations, all, circuits)
  {
    if locations != [] {
      var init := locations[..|locations| - 1];
      var last := locations[|locations| - 1];
      StatsOfDistinct(init, all, circuits);
      var prev := StatsOf(init, all, circuits);
      forall i | 0 <= i < |init| ensures prev[i].locationId == locations[i].id {
        assert init[i] == locations[i];
      }
      FreshAppend(prev, locations, StatFor(last.id, all, circuits));
    }
  }

  /**
   * Setting the id of the last of distinct locations, when the map holds the ids of the others
   * in order, appends an entry.
   */
  lemma FreshAppend(prev: seq<StatEntry>, locations: seq<Location>, v: LocationStat)
    requires locations != [] && DistinctIds(locations)
    requires |prev| == |locations| - 1
    requires forall i :: 0 <= i < |prev| ==> prev[i].locationId == locations[i].id
    ensures var r := MapSet(prev, locations[|locations| - 1].id, v);
      |r| == |locations|
      && (forall i :: 0 <= i < |locations| ==> r[i].locationId == locations[i].id)
      && TotalAvailable(r) == TotalAvailable(prev) + v.available
  {
    var k := locations[|locations| - 1].id;
    forall j | 0 <= j < |prev| ensures prev[j].locationId != k {
      assert prev[j].locationId == locations[j].id;
    }
    assert IndexOf(prev, k) == |prev|;
    var r := prev + [StatEntry(k, v)];
    assert r[..|r| - 1] == prev;
  }

  /**
   * With distinct location ids, `totalAvailableCircuits` is the sum of every location's
   * `available` count, each location's stats being its own.
   */
  lemma TotalAvailableIsSum(locations: seq<Location>, all: Option<seq<Circuit>>, circuits: Option<seq<ProposalCircuit>>)
    requires DistinctIds(locations)
    ensures |StatsOf(locations, all, circuits)| == |locations|
    ensures TotalAvailable(StatsOf(locations, all, circuits)) == AvailableSum(locations, all, circuits)
    ensures forall i :: 0 <= i < |locations| ==>
      StatsOf(locations, all, circuits)[i] == StatEntry(locations[i].id, StatFor(locations[i].id, all, circuits))
  {
    StatsOfDistinct(locations, all, circuits);
    StatsKeyed(locations, all, circuits);
  }

  lemma UnproposedStep(cs: seq<Circuit>, pcs: seq<ProposalCircuit>)
    requires cs != []
    ensures Unproposed(cs, pcs) ==
      if Proposed(cs[|cs| - 1], pcs) then Unproposed(cs[..|cs| - 1], pcs) else Unproposed(cs[..|cs| - 1], pcs) + [cs[|cs| - 1]]
  {
  }

  lemma {:induction false} UnproposedWhenNoneProposed(cs: seq<Circuit>)
    ensures Unproposed(cs, []) == cs
  {
    if cs != [] {
      var init, last := cs[..|cs| - 1], cs[|cs| - 1];
      UnproposedWhenNoneProposed(init);
      UnproposedStep(cs, []);
      assert !Proposed(last, []);
      Snoc(cs);
    }
  }

  /**
   * A location's `available` count never exceeds its circuits, and when it has no proposal
   * entry every one of its circuits is available.
   */
  lemma AvailableBounds(id: string, all: Option<seq<Circuit>>, circuits: Option<seq<ProposalCircuit>>)
    ensures StatFor(id, all, circuits).available <= |CircuitsAt(all, id)|
    ensures EntriesAt(circuits, id) == [] ==> StatFor(id, all, circuits).available == |CircuitsAt(all, id)|
    ensures StatFor(id, all, circuits).proposed == |EntriesAt(circuits, id)|
  {
    UnproposedWhenNoneProposed(CircuitsAt(all, id));
  }

  // ---------------------------------------------------------------------------
  // The selections for the expanded location

  /**
   * `locationCircuits?.filter(circuit => !proposal?.circuits?.some(pc => pc.circuit_id === circuit.id))`:
   * absent when the location's circuits are, and an absent proposal list proposes nothing.
   */
  function AvailableCircuits(locationCircuits: Option<seq<Circuit>>, circuits: Option<seq<ProposalCircuit>>): (r: Option<seq<Circuit>>)
    ensures r.Some? <==> locationCircuits.Some?
    ensures r.Some? ==> forall c :: c in r.value <==>
      c in locationCircuits.value && (circuits.None? || !Proposed(c, circuits.value))
  {
    match locationCircuits
    case None => None
    case Some(cs) => Some(Unproposed(cs, circuits.GetOr([])))
  }

  /** `proposal?.circuits?.filter(pc => pc.location_id === expandedLocation)`. */
  function ProposedCircuits(circuits: Option<seq<ProposalCircuit>>, expandedLocation: Option<string>): (r: Option<seq<ProposalCircuit>>)
    ensures r.Some? <==> circuits.Some?
    ensures r.Some? ==> forall pc :: pc in r.value <==>
      pc in circuits.value && expandedLocation == Some(pc.locationId)
  {
    match circuits
    case None => None
    case Some(pcs) => Some(EntriesOfLocation(pcs, expandedLocation))
  }

  /** Nothing is proposed at a collapsed view. */
  lemma NothingProposedWhenCollapsed(circuits: seq<ProposalCircuit>)
    ensures ProposedCircuits(Some(circuits), None) == Some([])
  {
    EntriesOfNoLocation(circuits);
  }

  lemma {:induction false} EntriesOfNoLocation(pcs: seq<ProposalCircuit>)
    ensures EntriesOfLocation(pcs, None) == []
  {
    if pcs != [] {
      EntriesOfNoLocation(pcs[..|pcs| - 1]);
    }
  }

  // ---------------------------------------------------------------------------
  // The cached proposal and its optimistic updates

  /** The proposal's own fields. */
  datatype ProposalInfo = ProposalInfo(id: string, name: string, companyId: string, status: string, notes: Option<string>)

  /**
   * The query cache's value for the proposal; `info` is absent for the object an optimistic
   * update spreads out of an empty cache.
   */
  datatype CachedProposal = CachedProposal(info: Option<ProposalInfo>, circuits: Option<seq<ProposalCircuit>>)

  /** The snapshot an `onMutate` hands to `onError`. */
  datatype MutationContext = MutationContext(previousProposal: Option<CachedProposal>)

  datatype NotificationType = SuccessKind | ErrorKind
  datatype Notification = Notification(kind: NotificationType, message: string)

  /** `old?.circuits || []`. */
  function CircuitsOf(cached: Option<CachedProposal>): (r: seq<ProposalCircuit>) {
    if cached.Some? then cached.value.circuits.GetOr([]) else []
  }

  /** The placeholder entry, whose id is `'temp-' + Date.now()` with the clock reading `now`. */
  function TempEntry(proposalId: string, newCircuit: Circuit, now: nat): (r: ProposalCircuit)
    ensures |r.id| > 5 && r.id[..5] == "temp-"
    ensures forall i :: 5 <= i < |r.id| ==> IsDigit(r.id[i])
    ensures r.proposalId == proposalId && r.circuit == newCircuit
    ensures r.circuitId == newCircuit.id && r.locationId == newCircuit.locationId
  {
    ProposalCircuit("temp-" + NatToString(now), proposalId, newCircuit.id, newCircuit.locationId, newCircuit)
  }

  /** The digits after `temp-` read back as the creation time. */
  lemma TempEntryTime(proposalId: string, newCircuit: Circuit, now: nat)
    ensures ParseInt(TempEntry(proposalId, newCircuit, now).id[5..]) == Some(now)
  {
    ParseIntToString(now, []);
    assert IntToString(now) + [] == NatToString(now);
    assert ("temp-" + NatToString(now))[5..] == NatToString(now);
  }

  /** `{...old, circuits: [...(old?.circuits || []), entry]}`. */
  function WithAdded(cached: Option<CachedProposal>, entry: ProposalCircuit): (r: CachedProposal)
    ensures r.circuits == Some(CircuitsOf(cached) + [entry])
    ensures cached.Some? ==> r.info == cached.value.info
  {
    match cached
    case None =>
      assert CircuitsOf(cached) + [entry] == [entry];
      CachedProposal(None, Some([entry]))
    case Some(p) => p.(circuits := Some(CircuitsOf(cached) + [entry]))
  }

  /** `c.id !== id` over a list. */
  function WithoutId(pcs: seq<ProposalCircuit>, id: string): (r: seq<ProposalCircuit>)
    ensures forall pc :: pc in r <==> pc in pcs && pc.id != id
    ensures forall pc :: multiset(r)[pc] == if pc.id != id then multiset(pcs)[pc] else 0
  {
    if pcs == [] then []
    else
      var init := WithoutId(pcs[..|pcs| - 1], id);
      var last := pcs[|pcs| - 1];
      Snoc(pcs);
      if last.id != id then init + [last] else init
  }

  /** `{...old, circuits: old?.circuits?.filter(c => c.id !== id) || []}`. */
  function WithRemoved(cached: Option<CachedProposal>, id: string): (r: CachedProposal)
    ensures r.circuits == Some(WithoutId(CircuitsOf(cached), id))
    ensures cached.Some? ==> r.info == cached.value.info
  {
    match cached
    case None => CachedProposal(None, Some([]))
    case Some(p) => p.(circuits := Some(WithoutId(CircuitsOf(cached), id)))
  }

  /** `onError`: the snapshot comes back when there was one; otherwise the cache stays as it is. */
  function RolledBack(cached: Option<CachedProposal>, context: MutationContext): (r: Option<CachedProposal>)
    ensures context.previousProposal.Some? ==> r == context.previousProposal
    ensures context.previousProposal.None? ==> r == cached
  {
    if context.previousProposal.Some? then context.previousProposal else cached
  }

  /** The removal keeps the entries it does not drop in their order. */
  lemma {:induction false} WithoutIdOrder(pcs: seq<ProposalCircuit>, id: string)
    ensures IsSubsequence(WithoutId(pcs, id), pcs)
  {
    if pcs != [] {
      var init := pcs[..|pcs| - 1];
      var last := pcs[|pcs| - 1];
      WithoutIdOrder(init, id);
      var r := WithoutId(pcs, id);
      if last.id != id {
        assert r[..|r| - 1] == WithoutId(init, id);
      }
    }
  }

  /** Removing an id that no entry has leaves the list as it was. */
  lemma {:induction false} WithoutAbsentId(pcs: seq<ProposalCircuit>, id: string)
    requires forall i :: 0 <= i < |pcs| ==> pcs[i].id != id
    ensures WithoutId(pcs, id) == pcs
  {
    if pcs != [] {
      WithoutAbsentId(pcs[..|pcs| - 1], id);
      Snoc(pcs);
    }
  }

  /**
   * Removing the placeholder an add has just appended gives back the entries before the add,
   * when no earlier entry shares its id.
   */
  lemma RemoveUndoesAdd(cached: Option<CachedProposal>, entry: ProposalCircuit)
    requires forall i :: 0 <= i < |CircuitsOf(cached)| ==> CircuitsOf(cached)[i].id != entry.id
    ensures WithRemoved(Some(WithAdded(cached, entry)), entry.id).circuits == Some(CircuitsOf(cached))
  {
    var cs := CircuitsOf(cached);
    assert CircuitsOf(Some(WithAdded(cached, entry))) == cs + [entry];
    assert (cs + [entry])[..|cs + [entry]| - 1] == cs;
    WithoutAbsentId(cs, entry.id);
  }

  /** The optimistic add grows the list by exactly the entry for the new circuit. */
  lemma OptimisticAddEntry(cached: Option<CachedProposal>, proposalId: string, newCircuit: Circuit, now: nat)
    ensures var r := WithAdded(cached, TempEntry(proposalId, newCircuit, now)).circuits.value;
      |r| == |CircuitsOf(cached)| + 1 && r[..|r| - 1] == CircuitsOf(cached)
      && r[|r| - 1].circuitId == newCircuit.id && r[|r| - 1].locationId == newCircuit.locationId
      && r[|r| - 1].proposalId == proposalId && r[|r| - 1].circuit == newCircuit
  {
    var cs := CircuitsOf(cached);
    assert (cs + [TempEntry(proposalId, newCircuit, now)])[..|cs| + 1 - 1] == cs;
  }

  /** A failed mutation whose snapshot existed leaves the cache exactly as before the mutation. */
  lemma RollbackRestores(before: CachedProposal, optimistic: Option<CachedProposal>)
    ensures RolledBack(optimistic, MutationContext(Some(before))) == Some(before)
    ensures RolledBack(optimistic, MutationContext(None)) == optimistic
  {
  }

  // ---------------------------------------------------------------------------
  // Expanding and collapsing a location

  /** `expandedLocation === locationId ? null : locationId`. */
  function NextExpanded(expandedLocation: Option<string>, locationId: string): (r: Option<string>)
    ensures r == None <==> expandedLocation == Some(locationId)
    ensures r != None ==> r == Some(locationId)
  {
    if expandedLocation == Some(locationId) then None else Some(locationId)
  }

  /** At most one location is open, and a second click on the one just opened closes it again. */
  lemma ClickTwice(expandedLocation: Option<string>, locationId: string)
    requires expandedLocation != Some(locationId)
    ensures NextExpanded(NextExpanded(expandedLocation, locationId), locationId) == None
  {
  }

  /**
   * The view's state: which location is expanded, and the query cache's entry for the proposal,
   * which the mutations overwrite and restore.
   */
  class DevelopmentView {
    const proposalId: string
    var expandedLocation: Option<string>
    var cachedProposal: Option<CachedProposal>

    constructor (proposalId: string, cachedProposal: Option<CachedProposal>)
      ensures this.proposalId == proposalId
      ensures expandedLocation == None && this.cachedProposal == cachedProposal
    {
      this.proposalId := proposalId;
      expandedLocation := None;
      this.cachedProposal := cachedProposal;
    }

    /** `handleLocationClick`. */
    method HandleLocationClick(locationId: string)
      modifies this
      ensures expandedLocation == NextExpanded(old(expandedLocation), locationId)
      ensures cachedProposal == old(cachedProposal)
    {
      if expandedLocation == Some(locationId) {
        expandedLocation := None;
      } else {
        expandedLocation := Some(locationId);
      }
    }

    /** `onMutate` of the add: snapshot the cache, then append the placeholder entry. */
    method OnMutateAdd(newCircuit: Circuit, now: nat) returns (context: MutationContext)
      modifies this
      ensures context.previousProposal == old(cachedProposal)
      ensures cachedProposal == Some(WithAdded(old(cachedProposal), TempEntry(proposalId, newCircuit, now)))
      ensures expandedLocation == old(expandedLocation)
    {
      var previousProposal := cachedProposal;
      cachedProposal := Some(WithAdded(cachedProposal, TempEntry(proposalId, newCircuit, now)));
      context := MutationContext(previousProposal);
    }

    /** `onMutate` of the remove: snapshot the cache, then drop the entries with that id. */
    method OnMutateRemove(id: string) returns (context: MutationContext)
      modifies this
      ensures context.previousProposal == old(cachedProposal)
      ensures cachedProposal == Some(WithRemoved(old(cachedProposal), id))
      ensures expandedLocation == old(expandedLocation)
    {
      var previousProposal := cachedProposal;
      var circuits := if cachedProposal.Some? && cachedProposal.value.circuits.Some?
        then WithoutId(cachedProposal.value.circuits.value, id) else [];
      var info := if cachedProposal.Some? then cachedProposal.value.info else None;
      cachedProposal := Some(CachedProposal(info, Some(circuits)));
      context := MutationContext(previousProposal);
    }

    /** The rollback of `onError`. */
    method RollBack(context: MutationContext)
      modifies this
      ensures cachedProposal == RolledBack(old(cachedProposal), context)
      ensures expandedLocation == old(expandedLocation)
    {
      if context.previousProposal.Some? {
        cachedProposal := context.previousProposal;
      }
    }

    /**
     * `addCircuit`: the optimistic update, then the store's answer. On success the cache keeps
     * the placeholder until the invalidated query is fetched again; on failure the snapshot
     * comes back, when there was one.
     */
    method AddCircuit(newCircuit: Circuit, now: nat, stored: bool) returns (notification: Notification)
      modifies this
      ensures stored ==> cachedProposal == Some(WithAdded(old(cachedProposal), TempEntry(proposalId, newCircuit, now)))
      ensures !stored && old(cachedProposal).Some? ==> cachedProposal == old(cachedProposal)
      ensures !stored && old(cachedProposal).None? ==>
        cachedProposal == Some(WithAdded(None, TempEntry(proposalId, newCircuit, now)))
      ensures notification == if stored then Notification(SuccessKind, "Circuit added successfully")
        else Notification(ErrorKind, "Failed to add circuit")
      ensures expandedLocation == old(expandedLocation)
    {
      var context := OnMutateAdd(newCircuit, now);
      if stored {
        notification := Notification(SuccessKind, "Circuit added successfully");
      } else {
        RollBack(context);
        notification := Notification(ErrorKind, "Failed to add circuit");
      }
    }

    /** `removeCircuit`, with the same outcomes as `addCircuit`. */
    method RemoveCircuit(id: string, stored: bool) returns (notification: Notification)
      modifies this
      ensures stored ==> cachedProposal == Some(WithRemoved(old(cachedProposal), id))
      ensures !stored && old(cachedProposal).Some? ==> cachedProposal == old(cachedProposal)
      ensures !stored && old(cachedProposal).None? ==> cachedProposal == Some(WithRemoved(None, id))
      ensures notification == if stored then Notification(SuccessKind, "Circuit removed successfully")
        else Notification(ErrorKind, "Failed to remove circuit")
      ensures expandedLocation == old(expandedLocation)
    {
      var context := OnMutateRemove(id);
      if stored {
        notification := Notification(SuccessKind, "Circuit removed successfully");
      } else {
        RollBack(context);
        notification := Notification(ErrorKind, "Failed to remove circuit");
      }
    }
  }
}
