/** Hot, warm and cold points, and the compaction that moves them (`tiered.rs`). */
module Tiering {
  import opened Base
  import opened WarmTier

  datatype Tier = Hot | Warmed | Cold

  datatype TierConfig = TierConfig(enabled: bool, hotHours: nat, warmHours: nat)

  /** What stays in memory of a warm point: everything but the vector, the relations among the rest dropped. */
  datatype Meta = Meta(metadata: string, createdAt: nat, expiresAt: Option<nat>)

  // ---- Tier decisions ----

  function Rank(t: Tier): nat {
    match t
    case Hot => 0
    case Warmed => 1
    case Cold => 2
  }

  function Colder(a: Tier, b: Tier): Tier {
    if Rank(a) >= Rank(b) then a else b
  }

  /** A point never accessed is cold; otherwise whole hours since the last access decide. */
  function IdealTier(last: Option<nat>, config: TierConfig, now: nat): Tier {
    match last
    case None => Cold
    case Some(ts) =>
      var hours := (if now >= ts then now - ts else 0) / 3600;
      if hours < config.hotHours then Hot else if hours < config.warmHours then Warmed else Cold
  }

  /**
   * Where a compaction leaves a point, in seconds: a hot one stays for the hot threshold after its last
   * access, goes to warm until the longer of the two is over, and to cold after that or if it was never
   * accessed; a warm one stays until then, and a cold one forever. An access in the future is one of now.
   */
  ghost function AgedTier(current: Tier, last: Option<nat>, config: TierConfig, now: nat): Tier {
    if current == Cold || last.None? then Cold
    else
      var at := Max(now, last.value);
      if at >= last.value + 3600 * Max(config.hotHours, config.warmHours) then Cold
      else if current == Hot && at < last.value + 3600 * config.hotHours then Hot
      else Warmed
  }

  lemma {:induction false} WholeHours(seconds: nat, hours: nat)
    ensures seconds / 3600 < hours <==> seconds < 3600 * hours
  {
  }

  /** Never hotter than before, and by the age in seconds. */
  lemma {:induction false} ColderIsAged(current: Tier, last: Option<nat>, config: TierConfig, now: nat)
    ensures Colder(current, IdealTier(last, config, now)) == AgedTier(current, last, config, now)
  {
    if last.Some? {
      var age := if now >= last.value then now - last.value else 0;
      WholeHours(age, config.hotHours);
      WholeHours(age, config.warmHours);
    }
  }

  predicate ShouldDemote(current: Tier, ideal: Tier) {
    match (current, ideal)
    case (Hot, Warmed) => true
    case (Hot, Cold) => true
    case (Warmed, Cold) => true
    case _ => false
  }

  /** Demotion is exactly the move to a strictly colder tier: promotion happens on access only. */
  lemma {:induction false} DemotesToColderOnly(current: Tier, ideal: Tier)
    ensures ShouldDemote(current, ideal) <==> Rank(ideal) > Rank(current)
    ensures Colder(current, ideal) == if ShouldDemote(current, ideal) then ideal else current
  {
  }

  /** As time passes without an access, the ideal tier only gets colder. */
  lemma {:induction false} IdealTierCools(last: Option<nat>, config: TierConfig, now: nat, later: nat)
    requires now <= later && config.hotHours <= config.warmHours
    ensures Rank(IdealTier(last, config, now)) <= Rank(IdealTier(last, config, later))
  {
    if last.Some? {
      var a := if now >= last.value then now - last.value else 0;
      var b := if later >= last.value then later - last.value else 0;
      assert a / 3600 <= b / 3600;
    }
  }

  // ---- Reading a point from whatever tier it is in ----

  function MetaOf(p: Point): Meta {
    Meta(p.metadata, p.createdAt, p.expiresAt)
  }

  function Hydrate(id: Id, bytes: seq<Byte>, m: Meta): Point
    requires |bytes| % 4 == 0
  {
    Point(id, BytesVector(bytes), m.metadata, m.createdAt, m.expiresAt, None)
  }

  /** The contents of the three tiers; `dim` is the dimension of the vectors. */
  datatype Contents = Contents(
    hot: map<Id, Point>, warm: Warm, meta: map<Id, Meta>, cold: map<Id, Point>)
  {
    function FromWarm(id: Id, dim: nat): Option<Point> {
      if id in meta && Slice(warm, id, dim * 4).Some? then
        Some(Hydrate(id, Slice(warm, id, dim * 4).value, meta[id]))
      else None
    }

    /** Hot first, then warm, then cold. */
    function Resolve(id: Id, dim: nat): Option<Point> {
      if id in hot then Some(hot[id])
      else if FromWarm(id, dim).Some? then FromWarm(id, dim)
      else if id in cold then Some(cold[id])
      else None
    }
  }

  /** A point survives the trip to the warm tier: no relations, and keyed by its own id. */
  ghost predicate Portable(p: Point, id: Id, dim: nat) {
    p.id == id && p.relations == None && |p.vector| == dim
  }

  lemma {:induction false} HydrateInverts(p: Point, id: Id, dim: nat)
    requires Portable(p, id, dim)
    ensures Hydrate(id, VectorBytes(p.vector), MetaOf(p)) == p
  {
    VectorRoundTrip(p.vector);
  }

  ghost predicate HotPlaced(hot: map<Id, Point>, tiers: map<Id, Tier>, dim: nat) {
    && (forall id :: id in hot <==> id in tiers && tiers[id] == Hot)
    && (forall id :: id in hot ==> Portable(hot[id], id, dim))
  }

  ghost predicate WarmPlaced(w: Warm, meta: map<Id, Meta>, tiers: map<Id, Tier>, dim: nat) {
    && (forall id :: id in meta <==> id in tiers && tiers[id] == Warmed)
    && (forall id :: id in w.offsets <==> id in meta)
    && (forall id :: id in meta ==> Slice(w, id, dim * 4).Some?)
  }

  ghost predicate ColdPlaced(cold: map<Id, Point>, tiers: map<Id, Tier>, dim: nat) {
    && (forall id :: id in cold <==> id in tiers && tiers[id] == Cold)
    && (forall id :: id in cold ==> Portable(cold[id], id, dim))
  }

  /** Each tracked id has its data in the tier it is said to be in, and nowhere else. */
  ghost predicate Placed(c: Contents, tiers: map<Id, Tier>, dim: nat) {
    HotPlaced(c.hot, tiers, dim) && WarmPlaced(c.warm, c.meta, tiers, dim) && ColdPlaced(c.cold, tiers, dim)
  }

  /** A placed point resolves, and in exactly the tier it is tracked in. */
  lemma {:induction false} PlacedResolves(c: Contents, tiers: map<Id, Tier>, dim: nat, id: Id)
    requires Placed(c, tiers, dim)
    ensures c.Resolve(id, dim).Some? <==> id in tiers
    ensures id in tiers && tiers[id] == Hot ==> c.Resolve(id, dim) == Some(c.hot[id])
    ensures id in tiers && tiers[id] == Warmed ==> c.Resolve(id, dim) == c.FromWarm(id, dim)
    ensures id in tiers && tiers[id] == Cold ==> c.Resolve(id, dim) == Some(c.cold[id])
  {
  }

  // ---- Moving points between tiers ----

  /** The vectors of the hot points of `ids` are in the file, and those before them still are. */
  ghost predicate VectorsMoved(c: Contents, w: Warm, ids: set<Id>, dim: nat) {
    && (forall id :: id in ids ==> id in c.hot)
    && (forall id :: id in w.offsets <==> id in c.warm.offsets || id in ids)
    && (forall id :: id in w.offsets ==>
          Slice(w, id, dim * 4) ==
          if id in ids then Some(VectorBytes(c.hot[id].vector)) else Slice(c.warm, id, dim * 4))
  }

  /** What is left of the hot points has left memory, metadata apart. */
  ghost predicate DataMoved(c: Contents, hot: map<Id, Point>, meta: map<Id, Meta>, ids: set<Id>) {
    && (forall id :: id in ids ==> id in c.hot)
    && (forall id :: id in hot <==> id in c.hot && id !in ids)
    && (forall id :: id in hot ==> hot[id] == c.hot[id])
    && (forall id :: id in meta <==> id in c.meta || id in ids)
    && (forall id :: id in meta ==> meta[id] == if id in ids then MetaOf(c.hot[id]) else c.meta[id])
  }

  /** The hot points of `ids` moved to the warm tier. */
  ghost predicate MovedToWarm(c: Contents, d: Contents, ids: set<Id>, dim: nat) {
    DataMoved(c, d.hot, d.meta, ids) && VectorsMoved(c, d.warm, ids, dim) && d.cold == c.cold
  }

  /** The warm points of `ids` are in their cold files, and their metadata is gone. */
  ghost predicate FilesMoved(c: Contents, meta: map<Id, Meta>, cold: map<Id, Point>, ids: set<Id>, dim: nat) {
    && (forall id :: id in ids ==> id in c.meta)
    && (forall id :: id in meta <==> id in c.meta && id !in ids)
    && (forall id :: id in meta ==> meta[id] == c.meta[id])
    && (forall id :: id in cold <==> id in c.cold || id in ids)
    && (forall id :: id in cold ==> if id in ids then Some(cold[id]) == c.FromWarm(id, dim)
                                    else id in c.cold && cold[id] == c.cold[id])
  }

  /** The warm points of `ids` moved to the cold tier. */
  ghost predicate MovedToCold(c: Contents, d: Contents, ids: set<Id>, dim: nat) {
    && FilesMoved(c, d.meta, d.cold, ids, dim)
    && d.hot == c.hot && d.warm == c.warm.(offsets := c.warm.offsets - ids)
  }

  ghost predicate Retiered(tiers: map<Id, Tier>, after: map<Id, Tier>, ids: set<Id>, t: Tier) {
    && after.Keys == tiers.Keys
    && forall id :: id in after ==> after[id] == if id in ids then t else tiers[id]
  }

  lemma {:induction false} ToWarmConserves(
      c: Contents, d: Contents, tiers: map<Id, Tier>, ids: set<Id>, dim: nat, id: Id)
    requires Placed(c, tiers, dim) && MovedToWarm(c, d, ids, dim)
    ensures d.Resolve(id, dim) == c.Resolve(id, dim)
  {
    if id in ids {
      HydrateInverts(c.hot[id], id, dim);
    }
  }

  lemma {:induction false} ToWarmPlaced(
      c: Contents, d: Contents, tiers: map<Id, Tier>, after: map<Id, Tier>, ids: set<Id>, dim: nat)
    requires Placed(c, tiers, dim) && MovedToWarm(c, d, ids, dim) && Retiered(tiers, after, ids, Warmed)
    ensures Placed(d, after, dim)
  {
    forall id | id in d.meta
      ensures Slice(d.warm, id, dim * 4).Some?
    {
      assert id in d.warm.offsets;
    }
  }

  lemma {:induction false} ToColdConserves(
      c: Contents, d: Contents, tiers: map<Id, Tier>, ids: set<Id>, dim: nat, id: Id)
    requires Placed(c, tiers, dim) && MovedToCold(c, d, ids, dim)
    ensures d.Resolve(id, dim) == c.Resolve(id, dim)
  {
    if id in ids {
      assert id !in c.hot && id !in d.hot && d.FromWarm(id, dim).None?;
    } else {
      StaysInWarm(c, d, ids, dim, id);
    }
  }

  lemma {:induction false} StaysInWarm(c: Contents, d: Contents, ids: set<Id>, dim: nat, id: Id)
    requires MovedToCold(c, d, ids, dim) && id !in ids
    ensures d.FromWarm(id, dim) == c.FromWarm(id, dim)
    ensures id in d.cold <==> id in c.cold
    ensures id in c.cold ==> d.cold[id] == c.cold[id]
  {
  }

  lemma {:induction false} FromWarmPortable(c: Contents, id: Id, dim: nat)
    requires c.FromWarm(id, dim).Some?
    ensures Portable(c.FromWarm(id, dim).value, id, dim)
  {
    BytesRoundTrip(Slice(c.warm, id, dim * 4).value);
  }

  lemma {:induction false} ToColdPlaced(
      c: Contents, d: Contents, tiers: map<Id, Tier>, after: map<Id, Tier>, ids: set<Id>, dim: nat)
    requires Placed(c, tiers, dim) && MovedToCold(c, d, ids, dim) && Retiered(tiers, after, ids, Cold)
    ensures Placed(d, after, dim)
  {
    assert ColdPlaced(d.cold, after, dim) by {
      forall id | id in ids
        ensures id in d.cold && Portable(d.cold[id], id, dim)
      {
        FromWarmPortable(c, id, dim);
      }
    }
    ForgettingKeepsSlices(c.warm, ids, dim);
  }

  /** One id brought back to memory from the warm or the cold tier. */
  ghost predicate Promoted(c: Contents, d: Contents, id: Id, dim: nat) {
    && c.Resolve(id, dim).Some? && d.hot == c.hot[id := c.Resolve(id, dim).value]
    && d.meta == c.meta - {id} && d.cold == c.cold - {id}
    && d.warm == c.warm.(offsets := c.warm.offsets - {id})
  }

  lemma {:induction false} PromotedConserves(c: Contents, d: Contents, id: Id, dim: nat, other: Id)
    requires Promoted(c, d, id, dim)
    ensures d.Resolve(other, dim) == c.Resolve(other, dim)
  {
  }

  lemma {:induction false} PromotedPortable(c: Contents, d: Contents, tiers: map<Id, Tier>, id: Id, dim: nat)
    requires Placed(c, tiers, dim) && id in tiers && tiers[id] != Hot && Promoted(c, d, id, dim)
    ensures Portable(d.hot[id], id, dim)
  {
    PlacedResolves(c, tiers, dim, id);
    if tiers[id] == Warmed {
      FromWarmPortable(c, id, dim);
    }
  }

  lemma {:induction false} ForgettingKeepsSlices(w: Warm, gone: set<Id>, dim: nat)
    ensures forall id :: id in w.offsets && id !in gone ==>
              Slice(w.(offsets := w.offsets - gone), id, dim * 4) == Slice(w, id, dim * 4)
  {
  }

  lemma {:induction false} HotGains(hot: map<Id, Point>, tiers: map<Id, Tier>, id: Id, p: Point, dim: nat)
    requires HotPlaced(hot, tiers, dim) && Portable(p, id, dim)
    ensures HotPlaced(hot[id := p], tiers[id := Hot], dim)
  {
  }

  lemma {:induction false} WarmLoses(w: Warm, meta: map<Id, Meta>, tiers: map<Id, Tier>, id: Id, dim: nat)
    requires WarmPlaced(w, meta, tiers, dim)
    ensures WarmPlaced(w.(offsets := w.offsets - {id}), meta - {id}, tiers[id := Hot], dim)
  {
    ForgettingKeepsSlices(w, {id}, dim);
  }

  lemma {:induction false} ColdLoses(cold: map<Id, Point>, tiers: map<Id, Tier>, id: Id, dim: nat)
    requires ColdPlaced(cold, tiers, dim)
    ensures ColdPlaced(cold - {id}, tiers[id := Hot], dim)
  {
  }

  lemma {:induction false} PromotedPlaced(c: Contents, d: Contents, tiers: map<Id, Tier>, id: Id, dim: nat)
    requires Placed(c, tiers, dim) && id in tiers && tiers[id] != Hot && Promoted(c, d, id, dim)
    ensures Placed(d, tiers[id := Hot], dim)
  {
    PromotedPortable(c, d, tiers, id, dim);
    HotGains(c.hot, tiers, id, d.hot[id], dim);
    WarmLoses(c.warm, c.meta, tiers, id, dim);
    ColdLoses(c.cold, tiers, id, dim);
  }

  /** Demoted twice over, every id ends in the colder of its current and its ideal tier. */
  lemma {:induction false} CompactedTiers(tiers: map<Id, Tier>, middle: map<Id, Tier>, after: map<Id, Tier>, ideal: map<Id, Tier>,
                       toWarm: set<Id>, toCold: set<Id>)
    requires ideal.Keys == tiers.Keys
    requires forall id :: id in toWarm <==> id in tiers && tiers[id] == Hot && ShouldDemote(tiers[id], ideal[id])
    requires forall id :: id in toCold <==> id in tiers && ideal[id] == Cold && ShouldDemote(tiers[id], ideal[id])
    requires Retiered(tiers, middle, toWarm, Warmed) && Retiered(middle, after, toCold, Cold)
    ensures after.Keys == tiers.Keys
    ensures forall id :: id in tiers ==> after[id] == Colder(tiers[id], ideal[id])
  {
  }

  /** The ids that changed their tier, left memory, and arrived in the cold tier. */
  ghost function Moved(before: map<Id, Tier>, after: map<Id, Tier>): set<Id> {
    set id | id in before && id in after && after[id] != before[id]
  }

  ghost function LeftHot(before: map<Id, Tier>, after: map<Id, Tier>): set<Id> {
    set id | id in before && id in after && before[id] == Hot && after[id] != Hot
  }

  ghost function EnteredCold(before: map<Id, Tier>, after: map<Id, Tier>): set<Id> {
    set id | id in before && id in after && before[id] != Cold && after[id] == Cold
  }

  ghost predicate MovesOf(
      before: map<Id, Tier>, after: map<Id, Tier>, toWarm: set<Id>, toCold: set<Id>, moving: set<Id>)
  {
    toWarm == LeftHot(before, after) && toCold == EnteredCold(before, after) && moving == Moved(before, after)
  }

  /** What was planned is what happened. */
  lemma {:induction false} PlanIsMoves(
      before: map<Id, Tier>, after: map<Id, Tier>, ideal: map<Id, Tier>, toWarm: set<Id>, toCold: set<Id>,
      moving: set<Id>)
    requires before.Keys == after.Keys == ideal.Keys
    requires forall id :: id in before ==> after[id] == Colder(before[id], ideal[id])
    requires forall id :: id in toWarm <==> id in before && before[id] == Hot && ShouldDemote(before[id], ideal[id])
    requires forall id :: id in toCold <==> id in before && ideal[id] == Cold && ShouldDemote(before[id], ideal[id])
    requires forall id :: id in moving <==> id in before && ShouldDemote(before[id], ideal[id])
    ensures MovesOf(before, after, toWarm, toCold, moving)
  {
    forall id | id in before
      ensures id in toWarm <==> id in LeftHot(before, after)
      ensures id in toCold <==> id in EnteredCold(before, after)
      ensures id in moving <==> id in Moved(before, after)
    {
      OneMove(before[id], ideal[id]);
    }
  }

  lemma {:induction false} OneMove(current: Tier, ideal: Tier)
    ensures var after := Colder(current, ideal);
            && (after != current <==> ShouldDemote(current, ideal))
            && (current != Cold && after == Cold <==> ShouldDemote(current, ideal) && ideal == Cold)
  {
  }

  // ---- The batch loops as map equations ----

  lemma {:induction false} ColderIsSettled(before: map<Id, Tier>, after: map<Id, Tier>, ideal: map<Id, Tier>)
    requires after.Keys == before.Keys == ideal.Keys
    requires forall id :: id in before ==> after[id] == Colder(before[id], ideal[id])
    ensures forall id :: id in after ==> !ShouldDemote(after[id], ideal[id])
  {
  }

  lemma {:induction false} Advance(done: set<Id>, rest: set<Id>, ids: set<Id>, id: Id)
    requires done + rest == ids && done !! rest && id in rest
    ensures (done + {id}) + (rest - {id}) == ids && (done + {id}) !! (rest - {id})
    ensures id in ids && id !in done && |rest - {id}| < |rest|
  {
  }

  function Metas(hot: map<Id, Point>, ids: set<Id>): map<Id, Meta> {
    map id | id in ids && id in hot :: MetaOf(hot[id])
  }

  function Tagged(ids: set<Id>, t: Tier): map<Id, Tier> {
    map id | id in ids :: t
  }

  function Chosen(loaded: map<Id, Point>, ids: set<Id>): map<Id, Point> {
    map id | id in ids && id in loaded :: loaded[id]
  }

  lemma {:induction false} OneMoreMeta(hot: map<Id, Point>, meta: map<Id, Meta>, done: set<Id>, id: Id)
    requires id in hot && id !in done
    ensures meta + Metas(hot, done + {id}) == (meta + Metas(hot, done))[id := MetaOf(hot[id])]
    ensures hot - (done + {id}) == (hot - done) - {id}
    ensures id in hot - done && (hot - done)[id] == hot[id]
  {
  }

  lemma {:induction false} OneMoreTag(tiers: map<Id, Tier>, done: set<Id>, t: Tier, id: Id)
    ensures tiers + Tagged(done + {id}, t) == (tiers + Tagged(done, t))[id := t]
  {
  }

  lemma {:induction false} OneMoreFile(
      meta: map<Id, Meta>, cold: map<Id, Point>, loaded: map<Id, Point>, done: set<Id>, id: Id)
    requires id in loaded
    ensures cold + Chosen(loaded, done + {id}) == (cold + Chosen(loaded, done))[id := loaded[id]]
    ensures meta - (done + {id}) == (meta - done) - {id}
  {
  }

  lemma {:induction false} TagsRetier(tiers: map<Id, Tier>, ids: set<Id>, t: Tier)
    requires forall id :: id in ids ==> id in tiers
    ensures Retiered(tiers, tiers + Tagged(ids, t), ids, t)
  {
  }

  lemma {:induction false} MetasMoveData(c: Contents, ids: set<Id>)
    requires forall id :: id in ids ==> id in c.hot
    ensures DataMoved(c, c.hot - ids, c.meta + Metas(c.hot, ids), ids)
  {
  }

  lemma {:induction false} FilesMoveData(c: Contents, loaded: map<Id, Point>, ids: set<Id>, dim: nat)
    requires loaded.Keys == ids
    requires forall id :: id in ids ==> id in c.meta && Some(loaded[id]) == c.FromWarm(id, dim)
    ensures FilesMoved(c, c.meta - ids, c.cold + Chosen(loaded, ids), ids, dim)
  {
  }

  lemma {:induction false} FilesMoveAll(c: Contents, d: Contents, loaded: map<Id, Point>, ids: set<Id>, dim: nat)
    requires loaded.Keys == ids
    requires forall id :: id in ids ==> id in c.meta && Some(loaded[id]) == c.FromWarm(id, dim)
    requires d.hot == c.hot && d.warm == c.warm.(offsets := c.warm.offsets - ids)
    requires d.meta == c.meta - ids && d.cold == c.cold + Chosen(loaded, ids)
    ensures MovedToCold(c, d, ids, dim)
  {
    FilesMoveData(c, loaded, ids, dim);
  }

  lemma {:induction false} BothMovesConserve(c: Contents, middle: Contents, d: Contents, before: map<Id, Tier>, between: map<Id, Tier>,
                          toWarm: set<Id>, toCold: set<Id>, dim: nat)
    requires Placed(c, before, dim) && MovedToWarm(c, middle, toWarm, dim)
    requires Placed(middle, between, dim) && MovedToCold(middle, d, toCold, dim)
    ensures forall id :: d.Resolve(id, dim) == c.Resolve(id, dim)
  {
    forall id
      ensures d.Resolve(id, dim) == c.Resolve(id, dim)
    {
      ToWarmConserves(c, middle, before, toWarm, dim, id);
      ToColdConserves(middle, d, between, toCold, dim, id);
    }
  }

  // ---- The collection ----

  datatype CompactionResult = CompactionResult(demotedToWarm: nat, demotedToCold: nat, totalChanges: nat)

  class TieredCollection {
    const config: TierConfig
    const warm: WarmStorage
    /** The hot points, in the inner collection. */
    var points: map<Id, Point>
    var warmMeta: map<Id, Meta>
    /** One JSON file per cold point. */
    var coldFiles: map<Id, Point>
    var tiers: map<Id, Tier>
    var lastAccess: map<Id, nat>

    constructor (config: TierConfig, warm: WarmStorage, points: map<Id, Point>, now: nat)
      requires warm.Valid() && warm.offsets == map[]
      requires forall id :: id in points ==> Portable(points[id], id, warm.dimension)
      ensures Valid() && this.config == config && this.warm == warm && this.points == points
      ensures tiers == map id | id in points :: Hot
      ensures lastAccess == map id | id in points :: now
    {
      this.config := config;
      this.warm := warm;
      this.points := points;
      warmMeta, coldFiles := map[], map[];
      tiers := map id | id in points :: Hot;
      lastAccess := map id | id in points :: now;
    }

    function State(): Contents
      reads this, warm
    {
      Contents(points, warm.View(), warmMeta, coldFiles)
    }

    function Dim(): nat {
      warm.dimension
    }

    ghost predicate Valid()
      reads this, warm
    {
      warm.Valid() && Placed(State(), tiers, Dim())
    }

    function Ideal(id: Id, now: nat): Tier
      reads this`lastAccess
    {
      IdealTier(LastAccess(id), config, now)
    }

    function LastAccess(id: Id): Option<nat>
      reads this`lastAccess
    {
      if id in lastAccess then Some(lastAccess[id]) else None
    }

    /** Reads a point without promoting it; a warm or cold hit is recorded as an access. */
    method GetFromAnyTier(id: Id, now: nat) returns (p: Option<Point>)
      requires Valid()
      modifies this`lastAccess
      ensures Valid() && State() == old(State())
      ensures p == State().Resolve(id, Dim())
      ensures lastAccess == if p.Some? && id !in points then old(lastAccess)[id := now] else old(lastAccess)
    {
      if id in points {
        return Some(points[id]);
      }
      p := None;
      if id in warmMeta {
        var r := warm.ReadVector(id);
        if r.Ok? {
          ReadIsSlice(r.value, warm.View(), id, Dim());
          p := Some(Point(id, r.value, warmMeta[id].metadata, warmMeta[id].createdAt, warmMeta[id].expiresAt, None));
        }
      }
      if p.None? && id in coldFiles {
        p := Some(coldFiles[id]);
      }
      if p.Some? {
        lastAccess := lastAccess[id := now];
      }
    }

    method AddHotVector(id: Id, ghost c: Contents, ghost done: set<Id>)
      requires warm.Valid() && Dense(warm.View(), Dim() * 4) && VectorsMoved(c, warm.View(), done, Dim())
      requires points == c.hot && id in points && id !in warm.offsets && |points[id].vector| == Dim()
      modifies warm
      ensures warm.Valid() && Dense(warm.View(), Dim() * 4) && VectorsMoved(c, warm.View(), done + {id}, Dim())
    {
      OneVectorMoved(c, warm.View(), done, id, Dim());
      warm.AddVector(id, points[id].vector);
    }

    /** The loop under the warm lock: one `add_vector` per hot point. */
    method WriteVectors(ids: set<Id>)
      requires warm.Valid() && Dense(warm.View(), Dim() * 4)
      requires forall id :: id in ids ==> id in points && id !in warm.offsets && |points[id].vector| == Dim()
      modifies warm
      ensures warm.Valid() && Dense(warm.View(), Dim() * 4)
      ensures VectorsMoved(old(State()), warm.View(), ids, Dim())
    {
      ghost var c, done: set<Id> := State(), {};
      var rest := ids;
      while rest != {}
        invariant done + rest == ids && done !! rest
        invariant warm.Valid() && Dense(warm.View(), Dim() * 4)
        invariant VectorsMoved(c, warm.View(), done, Dim())
        decreases |rest|
      {
        var id :| id in rest;
        Advance(done, rest, ids, id);
        AddHotVector(id, c, done);
        rest, done := rest - {id}, done + {id};
      }
      assert done == ids;
    }

    /** Writes the vectors of the given hot points to the warm file, then moves the rest of each. */
    method DemoteBatchToWarm(ids: set<Id>)
      requires Valid() && (ids == {} || Dense(warm.View(), Dim() * 4))
      requires forall id :: id in ids ==> id in points
      modifies this`points, this`warmMeta, this`tiers, warm
      ensures Valid() && (old(Dense(warm.View(), Dim() * 4)) ==> Dense(warm.View(), Dim() * 4))
      ensures MovedToWarm(old(State()), State(), ids, Dim())
      ensures Retiered(old(tiers), tiers, ids, Warmed)
      ensures ids == {} ==> State() == old(State()) && tiers == old(tiers)
    {
      if ids != {} {
        MoveToWarm(ids);
      }
    }

    method MoveToWarm(ids: set<Id>)
      requires Valid() && Dense(warm.View(), Dim() * 4)
      requires forall id :: id in ids ==> id in points
      modifies this`points, this`warmMeta, this`tiers, warm
      ensures Valid() && Dense(warm.View(), Dim() * 4)
      ensures MovedToWarm(old(State()), State(), ids, Dim()) && Retiered(old(tiers), tiers, ids, Warmed)
    {
      ghost var c := State();
      WriteVectors(ids);
      MoveToWarmMetadata(ids);
      MetasMoveData(c, ids);
      TagsRetier(old(tiers), ids, Warmed);
      ToWarmPlaced(c, State(), old(tiers), tiers, ids, Dim());
    }

    method MoveToWarmMetadata(ids: set<Id>)
      requires forall id :: id in ids ==> id in points
      modifies this`points, this`warmMeta, this`tiers
      ensures points == old(points) - ids && warmMeta == old(warmMeta) + Metas(old(points), ids)
      ensures tiers == old(tiers) + Tagged(ids, Warmed)
    {
      ghost var hot, meta, was, done: set<Id> := points, warmMeta, tiers, {};
      var rest := ids;
      while rest != {}
        invariant done + rest == ids && done !! rest
        invariant points == hot - done && warmMeta == meta + Metas(hot, done) && tiers == was + Tagged(done, Warmed)
        decreases |rest|
      {
        var id :| id in rest;
        Advance(done, rest, ids, id);
        OneMoreMeta(hot, meta, done, id);
        OneMoreTag(was, done, Warmed, id);
        warmMeta := warmMeta[id := MetaOf(points[id])];
        points := points - {id};
        tiers := tiers[id := Warmed];
        rest, done := rest - {id}, done + {id};
      }
      assert done == ids;
    }

    /** Reads the given warm points. */
    method LoadFromWarm(ids: set<Id>) returns (loaded: map<Id, Point>)
      requires Valid()
      requires forall id :: id in ids ==> id in warmMeta
      ensures loaded.Keys == ids
      ensures forall id :: id in ids ==> Some(loaded[id]) == State().FromWarm(id, Dim())
    {
      loaded := map[];
      var rest := ids;
      while rest != {}
        invariant rest <= ids && loaded.Keys == ids - rest
        invariant forall id :: id in loaded ==> Some(loaded[id]) == State().FromWarm(id, Dim())
        decreases |rest|
      {
        var id :| id in rest;
        var r := warm.ReadVector(id);
        ReadIsSlice(r.value, warm.View(), id, Dim());
        var m := warmMeta[id];
        loaded := loaded[id := Point(id, r.value, m.metadata, m.createdAt, m.expiresAt, None)];
        rest := rest - {id};
      }
    }

    method ForgetVectors(ids: set<Id>)
      requires warm.Valid()
      modifies warm`offsets
      ensures warm.Valid()
      ensures warm.View() == old(warm.View()).(offsets := old(warm.offsets) - ids)
    {
      var rest := ids;
      while rest != {}
        invariant rest <= ids && warm.Valid()
        invariant warm.View() == old(warm.View()).(offsets := old(warm.offsets) - (ids - rest))
        decreases |rest|
      {
        var id :| id in rest;
        warm.RemoveVector(id);
        assert ids - (rest - {id}) == ids - rest + {id};
        rest := rest - {id};
      }
      assert ids - {} == ids;
    }

    method SaveToCold(ids: set<Id>, loaded: map<Id, Point>)
      requires loaded.Keys == ids
      modifies this`warmMeta, this`coldFiles, this`tiers
      ensures warmMeta == old(warmMeta) - ids && coldFiles == old(coldFiles) + Chosen(loaded, ids)
      ensures tiers == old(tiers) + Tagged(ids, Cold)
    {
      ghost var done: set<Id> := {};
      var rest := ids;
      while rest != {}
        invariant done + rest == ids && done !! rest
        invariant warmMeta == old(warmMeta) - done && coldFiles == old(coldFiles) + Chosen(loaded, done)
        invariant tiers == old(tiers) + Tagged(done, Cold)
        decreases |rest|
      {
        var id :| id in rest;
        Advance(done, rest, ids, id);
        OneMoreFile(old(warmMeta), old(coldFiles), loaded, done, id);
        OneMoreTag(old(tiers), done, Cold, id);
        warmMeta := warmMeta - {id};
        coldFiles := coldFiles[id := loaded[id]];
        tiers := tiers[id := Cold];
        rest, done := rest - {id}, done + {id};
      }
      assert done == ids;
    }

    /** Reads the given warm points, forgets their vectors, then writes each to its cold file. */
    method DemoteBatchToCold(ids: set<Id>)
      requires Valid()
      requires forall id :: id in ids ==> id in warmMeta
      modifies this`warmMeta, this`coldFiles, this`tiers, warm
      ensures Valid()
      ensures MovedToCold(old(State()), State(), ids, Dim())
      ensures Retiered(old(tiers), tiers, ids, Cold)
      ensures ids == {} ==> State() == old(State()) && tiers == old(tiers)
    {
      if ids == {} {
        assert warm.View().offsets - {} == warm.View().offsets;
      } else {
        MoveToCold(ids);
      }
    }

    method MoveToCold(ids: set<Id>)
      requires Valid()
      requires forall id :: id in ids ==> id in warmMeta
      modifies this`warmMeta, this`coldFiles, this`tiers, warm
      ensures Valid() && MovedToCold(old(State()), State(), ids, Dim()) && Retiered(old(tiers), tiers, ids, Cold)
    {
      ghost var c := State();
      MoveDataToCold(ids);
      TagsRetier(old(tiers), ids, Cold);
      ToColdPlaced(c, State(), old(tiers), tiers, ids, Dim());
    }

    method MoveDataToCold(ids: set<Id>)
      requires Valid()
      requires forall id :: id in ids ==> id in warmMeta
      modifies this`warmMeta, this`coldFiles, this`tiers, warm
      ensures warm.Valid() && MovedToCold(old(State()), State(), ids, Dim()) && tiers == old(tiers) + Tagged(ids, Cold)
    {
      ghost var c := State();
      var loaded := LoadFromWarm(ids);
      ForgetVectors(ids);
      SaveToCold(ids, loaded);
      FilesMoveAll(c, State(), loaded, ids, Dim());
    }

    /** The ids whose ideal tier is colder, split into those to move to warm and those to end in cold. */
    method PlanCompaction(now: nat) returns (toWarm: set<Id>, toCold: set<Id>, changes: nat)
      ensures forall id :: id in toWarm <==>
                id in tiers && tiers[id] == Hot && ShouldDemote(tiers[id], Ideal(id, now))
      ensures forall id :: id in toCold <==>
                id in tiers && Ideal(id, now) == Cold && ShouldDemote(tiers[id], Ideal(id, now))
      ensures changes == |Moving(now)|
    {
      toWarm, toCold, changes := {}, {}, 0;
      ghost var moving: set<Id> := {};
      var rest := tiers.Keys;
      while rest != {}
        invariant rest <= tiers.Keys
        invariant forall id :: id in toWarm <==>
          id in tiers && id !in rest && tiers[id] == Hot && ShouldDemote(tiers[id], Ideal(id, now))
        invariant forall id :: id in toCold <==>
          id in tiers && id !in rest && Ideal(id, now) == Cold && ShouldDemote(tiers[id], Ideal(id, now))
        invariant changes == |moving| && forall id :: id in moving <==> id !in rest && id in Moving(now)
        decreases |rest|
      {
        var id :| id in rest;
        if ShouldDemote(tiers[id], Ideal(id, now)) {
          changes, moving := changes + 1, moving + {id};
          if tiers[id] == Hot {
            toWarm := toWarm + {id};
          }
          if Ideal(id, now) == Cold {
            toCold := toCold + {id};
          }
        }
        rest := rest - {id};
      }
      assert moving == Moving(now);
    }

    /** The ids to be moved to a colder tier. */
    ghost function Moving(now: nat): set<Id>
      reads this`tiers, this`lastAccess
    {
      set id | id in tiers && ShouldDemote(tiers[id], Ideal(id, now))
    }

    /** Some hot point is to leave memory: only then is anything appended to the warm file. */
    ghost predicate DemotesHot(now: nat)
      reads this`tiers, this`lastAccess
    {
      exists id :: id in tiers && tiers[id] == Hot && ShouldDemote(Hot, Ideal(id, now))
    }

    /** Nothing is to be moved to a colder tier. */
    ghost predicate Settled(now: nat)
      reads this`tiers, this`lastAccess
    {
      forall id :: id in tiers ==> !ShouldDemote(tiers[id], Ideal(id, now))
    }

    /**
     * One compaction, from a dense warm file unless nothing is to be appended to it: every tracked
     * id ends in the colder of its current and its ideal tier, with its data there and nowhere
     * else, and resolves to the same point.
     */
    method RunCompaction(now: nat) returns (r: CompactionResult)
      requires Valid() && (!config.enabled || Dense(warm.View(), Dim() * 4) || !DemotesHot(now))
      modifies this`points, this`warmMeta, this`coldFiles, this`tiers, warm
      ensures Valid()
      ensures !config.enabled ==> State() == old(State()) && tiers == old(tiers) && r == CompactionResult(0, 0, 0)
      ensures config.enabled ==>
        && tiers.Keys == old(tiers).Keys
        && forall id :: id in tiers ==> tiers[id] == Colder(old(tiers)[id], old(Ideal(id, now)))
      ensures config.enabled ==> ByAge(old(tiers), now)
      ensures forall id :: State().Resolve(id, Dim()) == old(State()).Resolve(id, Dim())
      ensures config.enabled ==>
                r == CompactionResult(
                  |LeftHot(old(tiers), tiers)|, |EnteredCold(old(tiers), tiers)|, |Moved(old(tiers), tiers)|)
      ensures config.enabled ==> (r.totalChanges == 0 <==> old(Settled(now)))
      ensures r.totalChanges == 0 ==> State() == old(State()) && tiers == old(tiers)
      ensures r.demotedToCold == 0 && old(Dense(warm.View(), Dim() * 4)) ==> Dense(warm.View(), Dim() * 4)
    {
      if !config.enabled {
        return CompactionResult(0, 0, 0);
      }
      var toWarm, toCold, changes := PlanCompaction(now);
      assert changes == 0 ==> toWarm == {} && toCold == {};
      assert Settled(now) <==> Moving(now) == {};
      CarryOut(toWarm, toCold, now);
      r := CompactionResult(|toWarm|, |toCold|, changes);
    }

    /** The second half of a compaction. */
    method CarryOut(toWarm: set<Id>, toCold: set<Id>, now: nat)
      requires Valid() && (toWarm == {} || Dense(warm.View(), Dim() * 4))
      requires forall id :: id in toWarm <==>
                 id in tiers && tiers[id] == Hot && ShouldDemote(tiers[id], Ideal(id, now))
      requires forall id :: id in toCold <==>
                 id in tiers && Ideal(id, now) == Cold && ShouldDemote(tiers[id], Ideal(id, now))
      modifies this`points, this`warmMeta, this`coldFiles, this`tiers, warm
      ensures Valid() && ByAge(old(tiers), now)
      ensures forall id :: id in tiers ==> tiers[id] == Colder(old(tiers)[id], old(Ideal(id, now)))
      ensures forall id :: State().Resolve(id, Dim()) == old(State()).Resolve(id, Dim())
      ensures MovesOf(old(tiers), tiers, toWarm, toCold, old(Moving(now)))
      ensures toWarm == toCold == {} ==> State() == old(State()) && tiers == old(tiers)
      ensures toCold == {} && old(Dense(warm.View(), Dim() * 4)) ==> Dense(warm.View(), Dim() * 4)
    {
      ghost var before := tiers;
      ghost var ideal, moving := map id | id in tiers :: Ideal(id, now), Moving(now);
      ghost var middle := DemoteBatches(toWarm, toCold);
      CompactedTiers(before, middle, tiers, ideal, toWarm, toCold);
      PlanIsMoves(before, tiers, ideal, toWarm, toCold, moving);
      ColderIsByAge(before, now);
    }

    /** Every tracked id is in the tier that its last access and the thresholds give, in seconds. */
    ghost predicate ByAge(before: map<Id, Tier>, now: nat)
      reads this`tiers, this`lastAccess
    {
      && tiers.Keys == before.Keys
      && forall id :: id in tiers ==> tiers[id] == AgedTier(before[id], LastAccess(id), config, now)
    }

    lemma {:induction false} ColderIsByAge(before: map<Id, Tier>, now: nat)
      requires tiers.Keys == before.Keys
      requires forall id :: id in tiers ==> tiers[id] == Colder(before[id], Ideal(id, now))
      ensures ByAge(before, now)
    {
      forall id | id in tiers
        ensures tiers[id] == AgedTier(before[id], LastAccess(id), config, now)
      {
        ColderIsAged(before[id], LastAccess(id), config, now);
      }
    }

    lemma {:induction false} SettledBy(before: map<Id, Tier>, now: nat)
      requires tiers.Keys == before.Keys
      requires forall id :: id in tiers ==> tiers[id] == Colder(before[id], Ideal(id, now))
      ensures Settled(now) && !DemotesHot(now)
    {
      ColderIsSettled(before, tiers, map id | id in tiers :: Ideal(id, now));
    }

    /** With nothing to demote a compaction is idle, whatever gaps the warm file has. */
    method CompactSettled(now: nat) returns (r: CompactionResult)
      requires Valid() && (!config.enabled || Settled(now))
      modifies this`points, this`warmMeta, this`coldFiles, this`tiers, warm
      ensures Valid() && r.totalChanges == 0 && State() == old(State()) && tiers == old(tiers)
    {
      r := RunCompaction(now);
    }

    /**
     * A second compaction at the same time, even over the gaps that moving points to the cold
     * tier has left in the warm file, finds nothing to do and changes nothing.
     */
    method CompactTwice(now: nat)
      returns (second: CompactionResult, ghost between: Contents, ghost tiersBetween: map<Id, Tier>)
      requires Valid() && (!config.enabled || Dense(warm.View(), Dim() * 4) || !DemotesHot(now))
      modifies this`points, this`warmMeta, this`coldFiles, this`tiers, warm
      ensures Valid()
      ensures config.enabled ==>
        && tiersBetween.Keys == old(tiers).Keys
        && forall id :: id in tiersBetween ==>
                          tiersBetween[id] == AgedTier(old(tiers)[id], old(LastAccess(id)), config, now)
      ensures second.totalChanges == 0 && State() == between && tiers == tiersBetween
      ensures forall id :: State().Resolve(id, Dim()) == old(State()).Resolve(id, Dim())
    {
      var first := CompactOnce(now);
      between, tiersBetween := State(), tiers;
      second := CompactSettled(now);
    }

    method CompactOnce(now: nat) returns (first: CompactionResult)
      requires Valid() && (!config.enabled || Dense(warm.View(), Dim() * 4) || !DemotesHot(now))
      modifies this`points, this`warmMeta, this`coldFiles, this`tiers, warm
      ensures Valid() && (config.enabled ==> Settled(now))
      ensures config.enabled ==>
        && tiers.Keys == old(tiers).Keys
        && forall id :: id in tiers ==> tiers[id] == AgedTier(old(tiers)[id], old(LastAccess(id)), config, now)
      ensures forall id :: State().Resolve(id, Dim()) == old(State()).Resolve(id, Dim())
    {
      first := RunCompaction(now);
      if config.enabled {
        SettledBy(old(tiers), now);
      }
    }

    /** First every hot point to warm, then those that must end in cold. */
    method DemoteBatches(toWarm: set<Id>, toCold: set<Id>) returns (ghost middle: map<Id, Tier>)
      requires Valid() && (toWarm == {} || Dense(warm.View(), Dim() * 4))
      requires forall id :: id in toWarm ==> id in tiers && tiers[id] == Hot
      requires forall id :: id in toCold ==> id in tiers && (id in toWarm || tiers[id] == Warmed)
      modifies this`points, this`warmMeta, this`coldFiles, this`tiers, warm
      ensures Valid()
      ensures Retiered(old(tiers), middle, toWarm, Warmed) && Retiered(middle, tiers, toCold, Cold)
      ensures forall id :: State().Resolve(id, Dim()) == old(State()).Resolve(id, Dim())
      ensures toWarm == {} && toCold == {} ==> State() == old(State()) && tiers == old(tiers)
      ensures toCold == {} && old(Dense(warm.View(), Dim() * 4)) ==> Dense(warm.View(), Dim() * 4)
    {
      ghost var c := State();
      DemoteBatchToWarm(toWarm);
      ghost var contents := State();
      middle := tiers;
      assert forall id :: id in toCold ==> middle[id] == Warmed;
      DemoteBatchToCold(toCold);
      BothMovesConserve(c, contents, State(), old(tiers), middle, toWarm, toCold, Dim());
    }

    method TakeFromWarm(id: Id)
      requires Valid() && id in tiers && tiers[id] == Warmed
      modifies this`points, this`warmMeta, warm
      ensures warm.Valid() && Promoted(old(State()), State(), id, Dim())
    {
      PlacedResolves(State(), tiers, Dim(), id);
      var r := warm.ReadVector(id);
      ReadIsSlice(r.value, warm.View(), id, Dim());
      var m := warmMeta[id];
      points := points[id := Point(id, r.value, m.metadata, m.createdAt, m.expiresAt, None)];
      warm.RemoveVector(id);
      warmMeta := warmMeta - {id};
      assert coldFiles == coldFiles - {id};
    }

    method TakeFromCold(id: Id)
      requires Valid() && id in tiers && tiers[id] == Cold
      modifies this`points, this`coldFiles
      ensures Promoted(old(State()), State(), id, Dim())
    {
      PlacedResolves(State(), tiers, Dim(), id);
      points := points[id := coldFiles[id]];
      coldFiles := coldFiles - {id};
      assert warmMeta == warmMeta - {id} && warm.offsets == warm.offsets - {id};
    }

    method Take(id: Id)
      requires Valid() && id in tiers && tiers[id] != Hot
      modifies this`points, this`warmMeta, this`coldFiles, warm
      ensures warm.Valid() && Promoted(old(State()), State(), id, Dim())
    {
      if tiers[id] == Warmed {
        TakeFromWarm(id);
      } else {
        TakeFromCold(id);
      }
    }

    /** Brings a warm or cold point back to memory; the file keeps the bytes of a warm one. */
    method PromoteToHot(id: Id)
      requires Valid()
      modifies this`points, this`warmMeta, this`coldFiles, this`tiers, warm
      ensures Valid()
      ensures tiers == if id in old(tiers) then old(tiers)[id := Hot] else old(tiers)
      ensures forall other :: State().Resolve(other, Dim()) == old(State()).Resolve(other, Dim())
    {
      if id !in tiers || tiers[id] == Hot {
        return;
      }
      ghost var c := State();
      Take(id);
      PromotedPlaced(c, State(), tiers, id, Dim());
      PromotedConservesAll(c, State(), id, Dim());
      tiers := tiers[id := Hot];
    }
  }

  lemma {:induction false} PromotedConservesAll(c: Contents, d: Contents, id: Id, dim: nat)
    requires Promoted(c, d, id, dim)
    ensures forall other :: d.Resolve(other, dim) == c.Resolve(other, dim)
  {
    forall other
      ensures d.Resolve(other, dim) == c.Resolve(other, dim)
    {
      PromotedConserves(c, d, id, dim, other);
    }
  }

  /** One more hot vector appended to a dense file. */
  lemma {:induction false} OneVectorMoved(c: Contents, w: Warm, ids: set<Id>, id: Id, dim: nat)
    requires dim > 0 && Dense(w, dim * 4) && VectorsMoved(c, w, ids, dim)
    requires id in c.hot && id !in w.offsets && |c.hot[id].vector| == dim
    ensures var t := Repair(Appended(w, id, VectorBytes(c.hot[id].vector), dim * 4), dim * 4);
            Dense(t, dim * 4) && VectorsMoved(c, t, ids + {id}, dim)
  {
    var bytes := VectorBytes(c.hot[id].vector);
    AppendedNeedsNoRepair(w, id, bytes, dim * 4);
    AppendedIsDense(w, id, bytes, dim * 4);
    AppendKeepsOthers(w, id, bytes, dim * 4);
  }

  lemma {:induction false} ReadIsSlice(v: seq<F32>, w: Warm, id: Id, dim: nat)
    requires Slice(w, id, dim * 4).Some? && VectorBytes(v) == Slice(w, id, dim * 4).value
    ensures v == BytesVector(Slice(w, id, dim * 4).value)
  {
    VectorRoundTrip(v);
  }
}
