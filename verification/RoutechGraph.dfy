/**
 The contraction hierarchy routech.c searches: edges stored at map nodes, and walks over them.
 */
module Hierarchy {
  import opened Basics

  /** `flags`: 1 passable towards the target, 2 passable from the target, 4 a shortcut over `middle`. */
  datatype Edge = Edge(flags: nat, weight: int, target: ItemId, middle: ItemId)

  type Graph = map<ItemId, seq<Edge>>

  /** The edges stored at a node; the map is taken to have no edges at nodes it does not list. */
  function Out(g: Graph, u: ItemId): seq<Edge> {
    if u in g then g[u] else []
  }

  /** `routech_edge_valid`, which tests the bit `1 << dir`. */
  predicate EdgeValid(e: Edge, dir: nat)
    requires dir <= 1
  {
    if dir == 0 then e.flags % 2 == 1 else e.flags / 2 % 2 == 1
  }

  predicate IsShortcut(e: Edge) {
    e.flags / 4 % 2 == 1
  }

  /** The flags have the bit of this value, with `high` above it and `low` below. */
  predicate FlagIs(flags: nat, bit: nat, high: nat, low: nat) {
    low < bit && flags == bit * (2 * high + 1) + low
  }

  lemma FlagOne(f: nat)
    ensures f % 2 == 1 <==> exists high, low :: FlagIs(f, 1, high, low)
  {
    assert f % 2 == 1 ==> FlagIs(f, 1, f / 2, 0);
  }

  lemma FlagTwo(f: nat)
    ensures f / 2 % 2 == 1 <==> exists high, low :: FlagIs(f, 2, high, low)
  {
    assert f / 2 % 2 == 1 ==> FlagIs(f, 2, f / 4, f % 2);
  }

  lemma FlagFour(f: nat)
    ensures f / 4 % 2 == 1 <==> exists high, low :: FlagIs(f, 4, high, low)
  {
    assert f / 4 % 2 == 1 ==> FlagIs(f, 4, f / 8, f % 4);
  }

  /** Flag 1 lets the forward search follow an edge, flag 2 the backward search, and flag 4 marks a shortcut. */
  lemma DirectionFlags(e: Edge)
    ensures EdgeValid(e, 0) <==> exists high, low :: FlagIs(e.flags, 1, high, low)
    ensures EdgeValid(e, 1) <==> exists high, low :: FlagIs(e.flags, 2, high, low)
    ensures IsShortcut(e) <==> exists high, low :: FlagIs(e.flags, 4, high, low)
  {
    FlagOne(e.flags);
    FlagTwo(e.flags);
    FlagFour(e.flags);
  }

  ghost predicate PositiveWeights(g: Graph) {
    forall u, e :: u in g && e in g[u] ==> e.weight > 0
  }

  /** `u` stores an edge to `v` of this weight that a search in this direction follows. */
  ghost predicate Stored(g: Graph, dir: nat, u: ItemId, v: ItemId, weight: int)
    requires dir <= 1
  {
    exists k :: 0 <= k < |Out(g, u)| && Out(g, u)[k].target == v && Out(g, u)[k].weight == weight
      && EdgeValid(Out(g, u)[k], dir)
  }

  /** One step of a route in the search's direction, over an edge stored at either end. */
  ghost predicate Road(g: Graph, dir: nat, u: ItemId, v: ItemId, weight: int)
    requires dir <= 1
  {
    Stored(g, dir, u, v, weight) || Stored(g, 1 - dir, v, u, weight)
  }

  datatype Walk = Here(at: ItemId) | Hop(prev: Walk, to: ItemId, weight: int)

  function End(w: Walk): ItemId {
    if w.Here? then w.at else w.to
  }

  function Length(w: Walk): int {
    if w.Here? then 0 else Length(w.prev) + w.weight
  }

  /** The walk starts at `start` and every hop is an edge the search follows. */
  ghost predicate SearchWalk(g: Graph, dir: nat, start: ItemId, w: Walk)
    requires dir <= 1
  {
    match w
    case Here(at) => at == start
    case Hop(prev, to, weight) => SearchWalk(g, dir, start, prev) && Stored(g, dir, End(prev), to, weight)
  }

  /** The walk starts at `start` and every hop is a road, stored at either end. */
  ghost predicate RoadWalk(g: Graph, dir: nat, start: ItemId, w: Walk)
    requires dir <= 1
  {
    match w
    case Here(at) => at == start
    case Hop(prev, to, weight) => RoadWalk(g, dir, start, prev) && Road(g, dir, End(prev), to, weight)
  }

  ghost predicate HasSearchWalk(g: Graph, dir: nat, start: ItemId, end: ItemId, length: int)
    requires dir <= 1
  {
    exists w: Walk :: SearchWalk(g, dir, start, w) && End(w) == end && Length(w) == length
  }

  ghost predicate HasRoadWalk(g: Graph, dir: nat, start: ItemId, end: ItemId, length: int)
    requires dir <= 1
  {
    exists w: Walk :: RoadWalk(g, dir, start, w) && End(w) == end && Length(w) == length
  }

  lemma SearchWalkIsRoadWalk(g: Graph, dir: nat, start: ItemId, w: Walk)
    requires dir <= 1 && SearchWalk(g, dir, start, w)
    ensures RoadWalk(g, dir, start, w)
  {
  }

  lemma ExtendSearchWalk(g: Graph, dir: nat, start: ItemId, u: ItemId, length: int, v: ItemId, weight: int)
    requires dir <= 1 && HasSearchWalk(g, dir, start, u, length) && Stored(g, dir, u, v, weight)
    ensures HasSearchWalk(g, dir, start, v, length + weight)
  {
    var w :| SearchWalk(g, dir, start, w) && End(w) == u && Length(w) == length;
    assert SearchWalk(g, dir, start, Hop(w, v, weight));
  }

  lemma ExtendRoadWalk(g: Graph, dir: nat, start: ItemId, u: ItemId, length: int, v: ItemId, weight: int)
    requires dir <= 1 && HasRoadWalk(g, dir, start, u, length) && Road(g, dir, u, v, weight)
    ensures HasRoadWalk(g, dir, start, v, length + weight)
  {
    var w :| RoadWalk(g, dir, start, w) && End(w) == u && Length(w) == length;
    assert RoadWalk(g, dir, start, Hop(w, v, weight));
  }

  lemma HasSearchWalkIsRoad(g: Graph, dir: nat, start: ItemId, end: ItemId, length: int)
    requires dir <= 1 && HasSearchWalk(g, dir, start, end, length)
    ensures HasRoadWalk(g, dir, start, end, length)
  {
    var w :| SearchWalk(g, dir, start, w) && End(w) == end && Length(w) == length;
    SearchWalkIsRoadWalk(g, dir, start, w);
  }
}
