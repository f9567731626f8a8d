/** When chunks a download wants stay in the cache: there is room for all of them beside the pinned ones. */
module CacheRoom {
  import opened Common
  import opened Eviction
  import opened Manifests
  import opened MapSums

  /** The chunks wanted with their sizes, the room they and the pinned chunks need, and when the download started. */
  datatype Plan = Plan(wanted: map<Hash, nat>, needed: map<Hash, nat>, start: int)

  /** The wanted chunks, and the others that are pinned. */
  ghost function RoomNeeded(entries: Entries, pinned: set<Hash>, wanted: map<Hash, nat>): map<Hash, nat> {
    map h | h in wanted.Keys + (entries.Keys * pinned) :: if h in wanted then wanted[h] else entries[h].size
  }

  /**
   * The limit has room for what is needed, and the entries fit the plan; those in `touched` were used since the start.
   */
  ghost predicate Roomy(entries: Entries, pinned: set<Hash>, limit: nat, plan: Plan, touched: set<Hash>) {
    && Sum(plan.needed) <= limit
    && (forall h | h in plan.wanted :: h in plan.needed && plan.needed[h] == plan.wanted[h])
    && forall h | h in entries :: FitsPlan(h, entries[h], pinned, plan, touched)
  }

  ghost predicate FitsPlan(h: Hash, entry: CacheEntry, pinned: set<Hash>, plan: Plan, touched: set<Hash>) {
    if h in plan.wanted then entry.size == plan.wanted[h] && (h in touched ==> entry.lastAccess >= plan.start)
    else if h in pinned then h in plan.needed && plan.needed[h] == entry.size
    else entry.lastAccess < plan.start
  }

  lemma StartsRoomy(entries: Entries, pinned: set<Hash>, limit: nat, wanted: map<Hash, nat>, start: int)
    requires Sum(RoomNeeded(entries, pinned, wanted)) <= limit
    requires forall h | h in entries && h in wanted :: entries[h].size == wanted[h]
    requires forall h | h in entries && h !in wanted && h !in pinned :: entries[h].lastAccess < start
    ensures Roomy(entries, pinned, limit, Plan(wanted, RoomNeeded(entries, pinned, wanted), start), {})
  {
  }

  /** The entries used last survive a pass together whenever they fit beside the pinned ones. */
  lemma {:induction false} RecentSurvive(before: Entries, pinned: set<Hash>, limit: nat, victims: seq<Hash>,
                                         after: Entries,
                                         recent: set<Hash>)
    requires Pass(before, pinned, limit, victims, after) && recent <= before.Keys
    requires forall h, r | h in before && h !in pinned && h !in recent && r in recent ::
              before[h].lastAccess < before[r].lastAccess
    requires TotalSize(map h | h in before && (h in pinned || h in recent) :: before[h]) <= limit
    ensures recent <= after.Keys
    decreases |victims|
  {
    if victims == [] {
      assert after == before;
    } else {
      var victim := victims[0];
      var rest := before - {victim};
      var held := map h | h in before && (h in pinned || h in recent) :: before[h];
      assert victim in recent ==> forall h | h in before :: h in pinned || h in recent;
      assert victim in recent ==> held == before;
      assert (map h | h in rest && (h in pinned || h in recent) :: rest[h]) == held;
      RecentSurvive(rest, pinned, limit, victims[1..], after, recent);
    }
  }

  /** Storing a wanted chunk evicts no wanted chunk, and leaves the cache as roomy. */
  lemma PutKeepsRoom(entries: Entries, pinned: set<Hash>, limit: nat, plan: Plan, h: Hash, now: int, victims: seq<Hash>,
                     after: Entries)
    requires Roomy(entries, pinned, limit, plan, plan.wanted.Keys) && h in plan.wanted && now >= plan.start
    requires Pass(entries[h := CacheEntry(plan.wanted[h], now)], pinned, limit, victims, after)
    ensures Roomy(after, pinned, limit, plan, plan.wanted.Keys)
    ensures h in after && forall w | w in plan.wanted && w in entries :: w in after
  {
    hide Pass, TotalSize;
    var before := entries[h := CacheEntry(plan.wanted[h], now)];
    assert forall g | g in before :: FitsPlan(g, before[g], pinned, plan, plan.wanted.Keys);
    var recent := set w | w in plan.wanted && w in before;
    var held := map g | g in before && (g in pinned || g in recent) :: before[g];
    HeldFits(held, pinned, plan);
    RecentSurvive(before, pinned, limit, victims, after, recent);
    PassResult(before, pinned, limit, victims, after);
    assert forall g | g in after :: g in before && after[g] == before[g];
    assert h in recent && forall w | w in plan.wanted && w in entries :: w in recent;
  }

  lemma HeldFits(held: Entries, pinned: set<Hash>, plan: Plan)
    requires forall w | w in plan.wanted :: w in plan.needed && plan.needed[w] == plan.wanted[w]
    requires forall g | g in held ::
               FitsPlan(g, held[g], pinned, plan, plan.wanted.Keys) && (g in pinned || g in plan.wanted)
    ensures TotalSize(held) <= Sum(plan.needed)
  {
    forall g | g in Sizes(held) ensures g in plan.needed && Sizes(held)[g] <= plan.needed[g] {
    }
    SumMonotone(Sizes(held), plan.needed);
  }

  /** Using a chunk that is there touches it. */
  lemma ReadKeepsRoom(entries: Entries, pinned: set<Hash>, limit: nat, plan: Plan, touched: set<Hash>, h: Hash,
                      now: int)
    requires Roomy(entries, pinned, limit, plan, touched) && h in plan.wanted && now >= plan.start
    ensures Roomy(if h in entries then entries[h := entries[h].(lastAccess := now)] else entries, pinned, limit, plan,
                  touched + {h})
  {
  }
}
