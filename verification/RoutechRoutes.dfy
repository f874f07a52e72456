/**
 From the parents of two searches to a route: the node list along the parents, and the recursive
 unpacking of shortcuts into road segments.
 */
module Routes {
  import opened Basics
  import opened IndexedHeap
  import opened Hierarchy
  import opened SearchModel
  import opened SearchInvariant

  /** `routech_find_edge`: the first edge with this target. */
  function FirstTo(edges: seq<Edge>, to: ItemId): Option<Edge> {
    if edges == [] then None
    else if edges[0].target == to then Some(edges[0])
    else FirstTo(edges[1..], to)
  }

  function FindEdge(g: Graph, at: ItemId, to: ItemId): Option<Edge> {
    FirstTo(Out(g, at), to)
  }

  /** The node that stores the edge resolved between `from` and `to`, and the node it leads to. */
  function Storing(from: ItemId, to: ItemId, dir: nat): ItemId {
    if dir == 0 then from else to
  }

  function LegEdge(g: Graph, from: ItemId, to: ItemId, dir: nat): Option<Edge> {
    FindEdge(g, Storing(from, to, dir), Storing(to, from, dir))
  }

  /** At most one edge per storing node and target. */
  ghost predicate UniqueEdges(g: Graph) {
    forall u, i, j :: u in g && 0 <= i < j < |g[u]| ==> g[u][i].target != g[u][j].target
  }

  /** The halves of a shortcut `e` stored at `u` are stored at its middle, below `u`, and stand for it. */
  ghost predicate Halves(g: Graph, level: ItemId -> nat, u: ItemId, e: Edge) {
    var a, b := FindEdge(g, e.middle, u), FindEdge(g, e.middle, e.target);
    && level(e.middle) < level(u)
    && a.Some? && b.Some?
    && e.weight == a.value.weight + b.value.weight
    && (EdgeValid(e, 0) ==> EdgeValid(a.value, 1) && EdgeValid(b.value, 0))
    && (EdgeValid(e, 1) ==> EdgeValid(a.value, 0) && EdgeValid(b.value, 1))
  }

  /** A contraction hierarchy: nodes have levels, and every shortcut is made of two edges of its middle. */
  ghost predicate WellFormed(g: Graph, level: ItemId -> nat) {
    && PositiveWeights(g)
    && UniqueEdges(g)
    && (forall u, e :: u in g && e in g[u] && IsShortcut(e) ==> Halves(g, level, u, e))
  }

  /** A road segment written to the route: the street item and the direction it is driven in. */
  datatype Segment = Segment(from: ItemId, to: ItemId, street: ItemId, flags: nat, dir: nat)

  lemma FirstToFinds(edges: seq<Edge>, to: ItemId)
    ensures FirstTo(edges, to).Some? ==> FirstTo(edges, to).value in edges && FirstTo(edges, to).value.target == to
    ensures FirstTo(edges, to).None? ==> forall e :: e in edges ==> e.target != to
  {
    if edges != [] && edges[0].target != to {
      FirstToFinds(edges[1..], to);
      assert forall e :: e in edges ==> e == edges[0] || e in edges[1..];
    }
  }

  lemma FoundIsStored(g: Graph, u: ItemId, v: ItemId)
    requires FindEdge(g, u, v).Some?
    ensures u in g && FindEdge(g, u, v).value in g[u] && FindEdge(g, u, v).value.target == v
  {
    FirstToFinds(Out(g, u), v);
  }

  /** What the search followed is what the lookup by target finds. */
  lemma StoredIsFound(g: Graph, dir: nat, u: ItemId, v: ItemId, weight: int)
    requires dir <= 1 && UniqueEdges(g) && Stored(g, dir, u, v, weight)
    ensures FindEdge(g, u, v).Some?
    ensures FindEdge(g, u, v).value.weight == weight && EdgeValid(FindEdge(g, u, v).value, dir)
  {
    var k :| 0 <= k < |Out(g, u)| && Out(g, u)[k].target == v && Out(g, u)[k].weight == weight
      && EdgeValid(Out(g, u)[k], dir);
    FirstToFinds(Out(g, u), v);
    assert Out(g, u)[k] in Out(g, u);
    var e := FirstTo(Out(g, u), v).value;
    var j :| 0 <= j < |g[u]| && g[u][j] == e;
    assert j < k || k < j || j == k;
  }

  /** `routech_resolve`: a road segment, or the unpacked halves of a shortcut. */
  ghost function Resolve(g: Graph, level: ItemId -> nat, from: ItemId, to: ItemId, dir: nat): seq<Segment>
    requires dir <= 1 && WellFormed(g, level) && LegEdge(g, from, to, dir).Some?
    decreases level(Storing(from, to, dir))
  {
    var e := LegEdge(g, from, to, dir).value;
    FoundIsStored(g, Storing(from, to, dir), Storing(to, from, dir));
    if IsShortcut(e) then
      assert Halves(g, level, Storing(from, to, dir), e);
      Resolve(g, level, from, e.middle, 1) + Resolve(g, level, e.middle, to, 0)
    else
      [Segment(from, to, e.middle, e.flags, dir)]
  }

  /** A segment is a stored edge that is no shortcut and may be driven this way. */
  ghost predicate Drivable(g: Graph, seg: Segment) {
    && seg.dir <= 1
    && LegEdge(g, seg.from, seg.to, seg.dir).Some?
    && var e := LegEdge(g, seg.from, seg.to, seg.dir).value;
      !IsShortcut(e) && EdgeValid(e, seg.dir) && seg.street == e.middle && seg.flags == e.flags
  }

  /** A chain of drivable segments from `from` to `to`. */
  ghost predicate Route(g: Graph, segs: seq<Segment>, from: ItemId, to: ItemId) {
    if segs == [] then from == to
    else segs[0].from == from && Drivable(g, segs[0]) && Route(g, segs[1..], segs[0].to, to)
  }

  ghost function RouteLength(g: Graph, segs: seq<Segment>): int {
    if segs == [] then 0
    else
      (var e := LegEdge(g, segs[0].from, segs[0].to, segs[0].dir); if e.Some? then e.value.weight else 0)
      + RouteLength(g, segs[1..])
  }

  lemma {:induction false} RouteConcat(g: Graph, a: seq<Segment>, b: seq<Segment>, from: ItemId, via: ItemId,
                                       to: ItemId)
    requires Route(g, a, from, via) && Route(g, b, via, to)
    ensures Route(g, a + b, from, to)
    ensures RouteLength(g, a + b) == RouteLength(g, a) + RouteLength(g, b)
  {
    if a == [] {
      assert a + b == b;
    } else {
      RouteConcat(g, a[1..], b, a[0].to, via, to);
      assert (a + b)[1..] == a[1..] + b;
    }
  }

  /** Unpacking an edge that may be driven yields a drivable chain of the same length without shortcuts. */
  lemma {:induction false} ResolveIsRoute(g: Graph, level: ItemId -> nat, from: ItemId, to: ItemId, dir: nat)
    requires dir <= 1 && WellFormed(g, level) && LegEdge(g, from, to, dir).Some?
    requires EdgeValid(LegEdge(g, from, to, dir).value, dir)
    ensures Route(g, Resolve(g, level, from, to, dir), from, to)
    ensures RouteLength(g, Resolve(g, level, from, to, dir)) == LegEdge(g, from, to, dir).value.weight
    decreases level(Storing(from, to, dir))
  {
    var e := LegEdge(g, from, to, dir).value;
    FoundIsStored(g, Storing(from, to, dir), Storing(to, from, dir));
    if IsShortcut(e) {
      assert Halves(g, level, Storing(from, to, dir), e);
      ResolveIsRoute(g, level, from, e.middle, 1);
      ResolveIsRoute(g, level, e.middle, to, 0);
      RouteConcat(g, Resolve(g, level, from, e.middle, 1), Resolve(g, level, e.middle, to, 0), from, e.middle, to);
    }
  }

  /** The nodes met when following parents from `id`, which ends at the root since keys fall. */
  ghost function Chain(g: Graph, dir: nat, start: ItemId, s: Search, bound: int, id: ItemId): seq<ItemId>
    requires dir <= 1 && Inv(g, dir, start, s, bound) && id in s.hash
    decreases s.nodes[s.hash[id]].key
  {
    var n := s.nodes[s.hash[id]];
    if n.parent.None? then [id]
    else
      assert id != start;
      assert ParentOk(g, dir, s, s.hash[id]);
      assert s.nodes[s.hash[n.parent.value]].key >= 0;
      [id] + Chain(g, dir, start, s, bound, n.parent.value)
  }

  /** The list `routech_find_path` builds: root first for the forward search, root last for the backward one. */
  ghost function PathList(g: Graph, dir: nat, start: ItemId, s: Search, bound: int, id: ItemId): seq<ItemId>
    requires dir <= 1 && Inv(g, dir, start, s, bound) && id in s.hash
  {
    if dir == 0 then Reversed(Chain(g, dir, start, s, bound, id)) else Chain(g, dir, start, s, bound, id)
  }

  function Reversed<T>(xs: seq<T>): seq<T> {
    if xs == [] then [] else Reversed(xs[1..]) + [xs[0]]
  }

  lemma {:induction false} ReversedSnoc<T>(xs: seq<T>, x: T)
    ensures Reversed(xs + [x]) == [x] + Reversed(xs)
  {
    if xs == [] {
      assert xs + [x] == [x] && [x][1..] == [];
    } else {
      assert (xs + [x])[1..] == xs[1..] + [x];
      ReversedSnoc(xs[1..], x);
    }
  }

  /** The list so far holds the nodes `done` before `curr` on the chain of `id`, in the list's order. */
  ghost predicate Following(g: Graph, dir: nat, start: ItemId, s: Search, bound: int, id: ItemId, done: seq<ItemId>,
                            list: seq<ItemId>, curr: ItemId)
    requires dir <= 1 && Inv(g, dir, start, s, bound) && id in s.hash
  {
    && curr in s.hash
    && Chain(g, dir, start, s, bound, id) == done + Chain(g, dir, start, s, bound, curr)
    && list == if dir == 0 then Reversed(done) else done
  }

  /** The list with one more node, prepended by the forward search and appended by the backward one. */
  function Listed(dir: nat, list: seq<ItemId>, curr: ItemId): seq<ItemId> {
    if dir == 0 then [curr] + list else list + [curr]
  }

  lemma FollowStep(g: Graph, dir: nat, start: ItemId, s: Search, bound: int, id: ItemId, done: seq<ItemId>,
                   list: seq<ItemId>, curr: ItemId, p: ItemId)
    requires dir <= 1 && Inv(g, dir, start, s, bound) && id in s.hash
      && Following(g, dir, start, s, bound, id, done, list, curr)
    requires s.nodes[s.hash[curr]].parent == Some(p)
    ensures Following(g, dir, start, s, bound, id, done + [curr], Listed(dir, list, curr), p)
    ensures 0 <= s.nodes[s.hash[p]].key < s.nodes[s.hash[curr]].key
  {
    ReversedSnoc(done, curr);
    assert curr != start ==> ParentOk(g, dir, s, s.hash[curr]);
    assert done + ([curr] + Chain(g, dir, start, s, bound, p)) == (done + [curr]) + Chain(g, dir, start, s, bound, p);
  }

  lemma FollowEnd(g: Graph, dir: nat, start: ItemId, s: Search, bound: int, id: ItemId, done: seq<ItemId>,
                  list: seq<ItemId>, curr: ItemId)
    requires dir <= 1 && Inv(g, dir, start, s, bound) && id in s.hash
      && Following(g, dir, start, s, bound, id, done, list, curr)
    requires s.nodes[s.hash[curr]].parent == None
    ensures Listed(dir, list, curr) == PathList(g, dir, start, s, bound, id)
  {
    ReversedSnoc(done, curr);
  }

  /** Each pair of neighbours is an edge that may be driven in the direction of the list. */
  ghost predicate Legs(g: Graph, dir: nat, list: seq<ItemId>)
    requires dir <= 1
  {
    forall i :: 0 <= i && i + 1 < |list| ==>
      LegEdge(g, list[i], list[i + 1], dir).Some? && EdgeValid(LegEdge(g, list[i], list[i + 1], dir).value, dir)
  }

  /** The segments written for a list of nodes. */
  ghost function Emit(g: Graph, level: ItemId -> nat, dir: nat, list: seq<ItemId>): seq<Segment>
    requires dir <= 1 && WellFormed(g, level) && Legs(g, dir, list)
  {
    if |list| < 2 then []
    else Resolve(g, level, list[0], list[1], dir) + Emit(g, level, dir, list[1..])
  }

  /** The segments of a longer list, seen from its end. */
  lemma {:induction false} EmitSnoc(g: Graph, level: ItemId -> nat, dir: nat, list: seq<ItemId>, to: ItemId)
    requires dir <= 1 && WellFormed(g, level) && list != [] && Legs(g, dir, list + [to])
    ensures Legs(g, dir, list) && LegEdge(g, list[|list| - 1], to, dir).Some?
    ensures Emit(g, level, dir, list + [to]) == Emit(g, level, dir, list) + Resolve(g, level, list[|list| - 1], to, dir)
  {
    var all := list + [to];
    assert list == all[..|list|];
    var last := |list| - 1;
    assert LegEdge(g, all[last], all[last + 1], dir).Some?;
    if |list| == 1 {
      assert all[1..] == [to];
    } else {
      assert all[1..] == list[1..] + [to];
      EmitSnoc(g, level, dir, list[1..], to);
    }
  }

  /** A parent link is a leg, driven towards the child by the forward search and away from it by the backward one. */
  lemma ParentLeg(g: Graph, level: ItemId -> nat, dir: nat, start: ItemId, s: Search, bound: int, id: ItemId, p: ItemId)
    requires dir <= 1 && Inv(g, dir, start, s, bound) && WellFormed(g, level)
    requires id in s.hash && s.nodes[s.hash[id]].parent == Some(p)
    ensures p in s.hash && 0 <= s.nodes[s.hash[p]].key < s.nodes[s.hash[id]].key
    ensures var e := LegEdge(g, if dir == 0 then p else id, if dir == 0 then id else p, dir);
      e.Some? && EdgeValid(e.value, dir) && e.value.weight == s.nodes[s.hash[id]].key - s.nodes[s.hash[p]].key
  {
    assert ParentOk(g, dir, s, s.hash[id]);
    StoredIsFound(g, dir, p, id, s.nodes[s.hash[id]].key - s.nodes[s.hash[p]].key);
  }

  /** The forward search's list is a drivable route from the root to `id` as long as its key. */
  lemma {:induction false} ForwardPath(g: Graph, level: ItemId -> nat, start: ItemId, s: Search, bound: int, id: ItemId)
    requires Inv(g, 0, start, s, bound) && WellFormed(g, level) && id in s.hash
    ensures var list := PathList(g, 0, start, s, bound, id);
      && list != [] && list[|list| - 1] == id && Legs(g, 0, list)
      && Route(g, Emit(g, level, 0, list), start, id)
      && RouteLength(g, Emit(g, level, 0, list)) == s.nodes[s.hash[id]].key
    decreases s.nodes[s.hash[id]].key
  {
    var n := s.nodes[s.hash[id]];
    var list := PathList(g, 0, start, s, bound, id);
    if n.parent.None? {
      assert id != start ==> ParentOk(g, 0, s, s.hash[id]);
      assert Reversed([id]) == [id];
      assert list == [id];
    } else {
      var p := n.parent.value;
      ParentLeg(g, level, 0, start, s, bound, id, p);
      ForwardPath(g, level, start, s, bound, p);
      var before := PathList(g, 0, start, s, bound, p);
      assert ([id] + Chain(g, 0, start, s, bound, p))[1..] == Chain(g, 0, start, s, bound, p);
      assert list == before + [id];
      assert Legs(g, 0, list);
      EmitSnoc(g, level, 0, before, id);
      ResolveIsRoute(g, level, p, id, 0);
      RouteConcat(g, Emit(g, level, 0, before), Resolve(g, level, p, id, 0), start, p, id);
    }
  }

  /** The backward search's list is a drivable route from `id` to the root as long as its key. */
  lemma {:induction false} BackwardPath(g: Graph, level: ItemId -> nat, start: ItemId, s: Search, bound: int,
                                        id: ItemId)
    requires Inv(g, 1, start, s, bound) && WellFormed(g, level) && id in s.hash
    ensures var list := PathList(g, 1, start, s, bound, id);
      && list != [] && list[0] == id && Legs(g, 1, list)
      && Route(g, Emit(g, level, 1, list), id, start)
      && RouteLength(g, Emit(g, level, 1, list)) == s.nodes[s.hash[id]].key
    decreases s.nodes[s.hash[id]].key
  {
    var n := s.nodes[s.hash[id]];
    var list := PathList(g, 1, start, s, bound, id);
    if n.parent.None? {
      assert id != start ==> ParentOk(g, 1, s, s.hash[id]);
    } else {
      var p := n.parent.value;
      ParentLeg(g, level, 1, start, s, bound, id, p);
      BackwardPath(g, level, start, s, bound, p);
      var after := PathList(g, 1, start, s, bound, p);
      assert list == [id] + after && list[1..] == after;
      assert Legs(g, 1, list);
      ResolveIsRoute(g, level, id, p, 1);
      RouteConcat(g, Resolve(g, level, id, p, 1), Emit(g, level, 1, after), id, p, start);
    }
  }
}
