/**
 What every reachable state of one search keeps.
 */
module SearchInvariant {
  import opened Basics
  import opened IndexedHeap
  import opened Hierarchy
  import opened SearchModel

  /** The handle's parent is popped, and stores an edge that accounts for the difference of the keys. */
  ghost predicate ParentOk(g: Graph, dir: nat, s: Search, h: nat)
    requires dir <= 1 && Indexed(s) && h in s.nodes
  {
    var n := s.nodes[h];
    && n.parent.Some?
    && n.parent.value in s.hash
    && s.hash[n.parent.value] !in s.live
    && s.nodes[s.hash[n.parent.value]].key < n.key
    && Stored(g, dir, n.parent.value, n.id, n.key - s.nodes[s.hash[n.parent.value]].key)
  }

  /** A stall value is the length of a real route and beats the node's key. */
  ghost predicate StallOk(g: Graph, dir: nat, start: ItemId, n: Node)
    requires dir <= 1
  {
    n.stalled == 0 || (0 < n.stalled < n.key && HasRoadWalk(g, dir, start, n.id, n.stalled))
  }

  /** Every edge the search follows out of `u` has been offered to its target. */
  ghost predicate Closed(g: Graph, dir: nat, s: Search, u: ItemId)
    requires dir <= 1 && Indexed(s) && u in s.hash
  {
    forall k :: 0 <= k < |Out(g, u)| && EdgeValid(Out(g, u)[k], dir) ==>
      && Out(g, u)[k].target in s.hash
      && s.nodes[s.hash[Out(g, u)[k].target]].key <= s.nodes[s.hash[u]].key + Out(g, u)[k].weight
  }

  /** The root of the search keeps key 0 and no parent. */
  ghost predicate Rooted(start: ItemId, s: Search)
    requires Indexed(s)
  {
    start in s.hash && s.nodes[s.hash[start]].key == 0 && s.nodes[s.hash[start]].parent == None
  }

  /** Popped keys are at most `bound`, queued keys at least. */
  ghost predicate Split(s: Search, bound: int) {
    && bound >= 0
    && (forall h :: h in s.nodes && h in s.live ==> s.nodes[h].key >= bound)
    && (forall h :: h in s.nodes && h !in s.live ==> 0 <= s.nodes[h].key <= bound)
  }

  ghost predicate ClosedBehind(g: Graph, dir: nat, s: Search)
    requires dir <= 1 && Indexed(s)
  {
    forall u :: u in s.relaxed ==> u in s.hash && s.hash[u] !in s.live && Closed(g, dir, s, u)
  }

  ghost predicate Inv(g: Graph, dir: nat, start: ItemId, s: Search, bound: int)
    requires dir <= 1
  {
    && Indexed(s) && Rooted(start, s) && Split(s, bound)
    && (forall h {:trigger ParentOk(g, dir, s, h)} :: h in s.nodes && s.nodes[h].id != start ==> ParentOk(g, dir, s, h))
    && (forall h {:trigger StallOk(g, dir, start, s.nodes[h])} :: h in s.nodes ==> StallOk(g, dir, start, s.nodes[h]))
    && ClosedBehind(g, dir, s)
  }

  lemma InvNonNegative(g: Graph, dir: nat, start: ItemId, s: Search, bound: int)
    requires dir <= 1 && Inv(g, dir, start, s, bound)
    ensures NonNegative(s)
  {
    forall h | h in s.nodes ensures s.nodes[h].key >= 0 && s.nodes[h].stalled >= 0 {
      assert StallOk(g, dir, start, s.nodes[h]);
    }
  }

  /** The search after `routech_insert_node` and `pq_set_parent` on the start node. */
  lemma InvInit(g: Graph, dir: nat, start: ItemId)
    requires dir <= 1
    ensures Indexed(EMPTY) && Inv(g, dir, start, Offer(EMPTY, start, 0, None), 0)
  {
  }

  /** A key is the length of a walk the search followed: the one its parents spell out. */
  lemma {:induction false} KeyIsWalk(g: Graph, dir: nat, start: ItemId, s: Search, bound: int, h: nat)
    requires dir <= 1 && Inv(g, dir, start, s, bound) && h in s.nodes
    ensures HasSearchWalk(g, dir, start, s.nodes[h].id, s.nodes[h].key)
    decreases s.nodes[h].key
  {
    var n := s.nodes[h];
    if n.id == start {
      assert SearchWalk(g, dir, start, Here(start));
    } else {
      assert ParentOk(g, dir, s, h);
      var p := s.hash[n.parent.value];
      assert s.nodes[p].key >= 0;
      KeyIsWalk(g, dir, start, s, bound, p);
      ExtendSearchWalk(g, dir, start, s.nodes[p].id, s.nodes[p].key, n.id, n.key - s.nodes[p].key);
    }
  }

  /** What is known about a node is the length of a real route to it. */
  lemma KnownIsRoad(g: Graph, dir: nat, start: ItemId, s: Search, bound: int, h: nat)
    requires dir <= 1 && Inv(g, dir, start, s, bound) && h in s.nodes
    ensures HasRoadWalk(g, dir, start, s.nodes[h].id, Known(s.nodes[h])) && Known(s.nodes[h]) >= 0
  {
    assert StallOk(g, dir, start, s.nodes[h]);
    if s.nodes[h].stalled == 0 {
      KeyIsWalk(g, dir, start, s, bound, h);
      HasSearchWalkIsRoad(g, dir, start, s.nodes[h].id, s.nodes[h].key);
    }
  }

  /**
   What time does to a search: handles keep their node id, keys only fall, and a popped handle
   stays popped with its key and parent.
   */
  ghost predicate Evolves(s: Search, t: Search) {
    && (forall id :: id in s.hash ==> id in t.hash && t.hash[id] == s.hash[id])
    && (forall h :: h in s.nodes ==> h in t.nodes && t.nodes[h].id == s.nodes[h].id && t.nodes[h].key <= s.nodes[h].key)
    && (forall h :: h in s.nodes && h !in s.live ==>
      h !in t.live && t.nodes[h].key == s.nodes[h].key && t.nodes[h].parent == s.nodes[h].parent)
  }

  lemma EvolvesTransitive(s: Search, t: Search, u: Search)
    requires Evolves(s, t) && Evolves(t, u)
    ensures Evolves(s, u)
  {
  }

  lemma ParentStays(g: Graph, dir: nat, s: Search, t: Search, h: nat)
    requires dir <= 1 && Indexed(s) && Indexed(t) && Evolves(s, t) && h in s.nodes && ParentOk(g, dir, s, h)
    requires t.nodes[h].key == s.nodes[h].key && t.nodes[h].parent == s.nodes[h].parent
    ensures ParentOk(g, dir, t, h)
  {
  }

  lemma ClosedStays(g: Graph, dir: nat, s: Search, t: Search)
    requires dir <= 1 && Indexed(s) && Indexed(t) && Evolves(s, t) && ClosedBehind(g, dir, s) && t.relaxed == s.relaxed
    ensures ClosedBehind(g, dir, t)
  {
    forall u | u in t.relaxed ensures u in t.hash && t.hash[u] !in t.live && Closed(g, dir, t, u) {
      assert Closed(g, dir, s, u);
      forall k | 0 <= k < |Out(g, u)| && EdgeValid(Out(g, u)[k], dir)
        ensures Out(g, u)[k].target in t.hash
        ensures t.nodes[t.hash[Out(g, u)[k].target]].key <= t.nodes[t.hash[u]].key + Out(g, u)[k].weight
      {
        assert Out(g, u)[k].target in s.hash;
      }
    }
  }

  lemma InvPop(g: Graph, dir: nat, start: ItemId, s: Search, bound: int, e: nat)
    requires dir <= 1 && Inv(g, dir, start, s, bound)
    requires e in s.live && forall h :: h in s.live ==> s.nodes[e].key <= s.nodes[h].key
    ensures bound <= s.nodes[e].key && Inv(g, dir, start, Pop(s, e), s.nodes[e].key) && Evolves(s, Pop(s, e))
  {
    var t := Pop(s, e);
    ClosedStays(g, dir, s, t);
    forall h | h in t.nodes && t.nodes[h].id != start ensures ParentOk(g, dir, t, h) {
      ParentStays(g, dir, s, t, h);
    }
  }

  lemma SetStalledEvolves(s: Search, h: nat, stalled: int, bound: int)
    requires Indexed(s) && h in s.nodes && Split(s, bound)
    ensures var t := SetStalled(s, h, stalled); Indexed(t) && Evolves(s, t) && Split(t, bound)
  {
  }

  lemma InvSetStalled(g: Graph, dir: nat, start: ItemId, s: Search, bound: int, h: nat, stalled: int, t: Search)
    requires dir <= 1 && Inv(g, dir, start, s, bound) && h in s.nodes
    requires 0 < stalled < s.nodes[h].key && HasRoadWalk(g, dir, start, s.nodes[h].id, stalled)
    requires t == SetStalled(s, h, stalled)
    ensures Inv(g, dir, start, t, bound) && Evolves(s, t)
  {
    SetStalledEvolves(s, h, stalled, bound);
    ClosedStays(g, dir, s, t);
    forall x | x in t.nodes && t.nodes[x].id != start ensures ParentOk(g, dir, t, x) {
      ParentStays(g, dir, s, t, x);
    }
  }

  /** `u` was popped last: nothing popped has a greater key. */
  ghost predicate Latest(s: Search, u: ItemId, bound: int)
    requires Indexed(s)
  {
    u in s.hash && s.hash[u] !in s.live && s.nodes[s.hash[u]].key == bound
  }

  /** Offering a way round the node popped last lowers no key of a popped node. */
  lemma OfferSpares(start: ItemId, s: Search, bound: int, v: ItemId, val: int, u: ItemId)
    requires Indexed(s) && Rooted(start, s) && Split(s, bound) && val > bound
    ensures v in s.hash && s.nodes[s.hash[v]].key > val ==> s.hash[v] in s.live
    ensures v == start ==> Offer(s, v, val, Some(u)) == s
  {
  }

  lemma OfferEvolves(s: Search, v: ItemId, val: int, u: ItemId)
    requires Indexed(s) && (v in s.hash && s.nodes[s.hash[v]].key > val ==> s.hash[v] in s.live)
    ensures var t := Offer(s, v, val, Some(u)); Indexed(t) && Evolves(s, t)
  {
  }

  lemma OfferSplits(s: Search, bound: int, v: ItemId, val: int, u: ItemId)
    requires Indexed(s) && Split(s, bound) && val >= bound
    requires v in s.hash && s.nodes[s.hash[v]].key > val ==> s.hash[v] in s.live
    ensures Split(Offer(s, v, val, Some(u)), bound)
  {
  }

  /** The node under handle `h` came in by an offer from `u`. */
  predicate Offered(t: Search, h: nat, v: ItemId, val: int, u: ItemId) {
    v in t.hash && t.hash[v] == h && h in t.nodes && t.nodes[h] == Node(v, Some(u), 0, val)
  }

  lemma OfferNodes(s: Search, v: ItemId, val: int, u: ItemId)
    requires Indexed(s)
    ensures var t := Offer(s, v, val, Some(u));
      forall h :: h in t.nodes ==> (h in s.nodes && t.nodes[h] == s.nodes[h]) || Offered(t, h, v, val, u)
  {
  }

  lemma OfferKeepsEnds(s: Search, bound: int, start: ItemId, v: ItemId, val: int, u: ItemId)
    requires Indexed(s) && Latest(s, u, bound) && Rooted(start, s)
    requires v in s.hash && s.nodes[s.hash[v]].key > val ==> s.hash[v] in s.live
    requires v == start ==> Offer(s, v, val, Some(u)) == s
    ensures var t := Offer(s, v, val, Some(u));
      Indexed(t) && Latest(t, u, bound) && Rooted(start, t)
      && t.relaxed == s.relaxed
  {
  }

  /** Everything about an offered state `t` that does not look at parents. */
  ghost predicate OfferShape(start: ItemId, s: Search, t: Search, bound: int, u: ItemId, v: ItemId, val: int) {
    && Indexed(t) && Rooted(start, t) && Split(t, bound) && Evolves(s, t) && Latest(t, u, bound)
      && s.relaxed == t.relaxed
    && (forall h :: h in t.nodes ==> (h in s.nodes && t.nodes[h] == s.nodes[h]) || Offered(t, h, v, val, u))
  }

  lemma OfferHasShape(start: ItemId, s: Search, bound: int, u: ItemId, v: ItemId, val: int)
    requires Indexed(s) && Rooted(start, s) && Split(s, bound) && Latest(s, u, bound) && val > bound
    ensures OfferShape(start, s, Offer(s, v, val, Some(u)), bound, u, v, val)
  {
    OfferSpares(start, s, bound, v, val, u);
    OfferEvolves(s, v, val, u);
    OfferSplits(s, bound, v, val, u);
    OfferNodes(s, v, val, u);
    OfferKeepsEnds(s, bound, start, v, val, u);
  }

  lemma InvAfterOffer(g: Graph, dir: nat, start: ItemId, s: Search, t: Search, bound: int, u: ItemId, v: ItemId,
                      val: int)
    requires dir <= 1 && Inv(g, dir, start, s, bound) && val > bound && Latest(s, u, bound)
    requires Stored(g, dir, u, v, val - bound)
    requires OfferShape(start, s, t, bound, u, v, val)
    ensures Inv(g, dir, start, t, bound)
  {
    ClosedStays(g, dir, s, t);
    forall h | h in t.nodes ensures StallOk(g, dir, start, t.nodes[h])
      && (t.nodes[h].id != start ==> ParentOk(g, dir, t, h)) {
      if h in s.nodes && t.nodes[h] == s.nodes[h] {
        assert StallOk(g, dir, start, s.nodes[h]);
        if t.nodes[h].id != start {
          ParentStays(g, dir, s, t, h);
        }
      } else {
        assert Offered(t, h, v, val, u);
      }
    }
  }

  lemma InvOffer(g: Graph, dir: nat, start: ItemId, s: Search, t: Search, bound: int, u: ItemId, v: ItemId, val: int)
    requires dir <= 1 && Inv(g, dir, start, s, bound) && val > bound && Latest(s, u, bound)
    requires Stored(g, dir, u, v, val - bound)
    requires t == Offer(s, v, val, Some(u))
    ensures Inv(g, dir, start, t, bound) && Evolves(s, t) && Latest(t, u, bound)
  {
    OfferHasShape(start, s, bound, u, v, val);
    InvAfterOffer(g, dir, start, s, t, bound, u, v, val);
  }

  /** Every work item carries the length of a real route to its node. */
  ghost predicate ItemsOk(g: Graph, dir: nat, start: ItemId, list: seq<StallItem>)
    requires dir <= 1
  {
    forall item :: item in list ==> item.key > 0 && HasRoadWalk(g, dir, start, item.id, item.key)
  }

  /** The invariant holds afterwards and nothing popped has changed. */
  ghost predicate Keeps(g: Graph, dir: nat, start: ItemId, s: Search, t: Search, bound: int)
    requires dir <= 1
  {
    Inv(g, dir, start, t, bound) && Evolves(s, t)
  }

  lemma StallEdgeKeeps(g: Graph, dir: nat, start: ItemId, s: Search, bound: int, u: ItemId, e: Edge, key: int,
                       r: Stalling)
    requires dir <= 1 && Inv(g, dir, start, s, bound) && PositiveWeights(g)
    requires key > 0 && HasRoadWalk(g, dir, start, u, key) && e in Out(g, u)
    requires Stalls(dir, s, e, key) && r == StallEdge(dir, s, e, key)
    ensures Keeps(g, dir, start, s, r.search, bound) && ItemsOk(g, dir, start, r.items)
  {
    var h, newKey := s.hash[e.target], key + e.weight;
    assert r == Stalling(SetStalled(s, h, newKey), [StallItem(e.target, newKey)]);
    assert Stored(g, dir, u, e.target, e.weight);
    ExtendRoadWalk(g, dir, start, u, key, e.target, e.weight);
    assert HasRoadWalk(g, dir, start, s.nodes[h].id, newKey);
    InvSetStalled(g, dir, start, s, bound, h, newKey, r.search);
  }

  lemma {:induction false} StallEdgesKeep(g: Graph, dir: nat, start: ItemId, s: Search, bound: int, u: ItemId,
                                          edges: seq<Edge>, key: int, r: Stalling)
    requires dir <= 1 && Inv(g, dir, start, s, bound) && PositiveWeights(g)
    requires key > 0 && HasRoadWalk(g, dir, start, u, key) && forall e :: e in edges ==> e in Out(g, u)
    requires r == StallEdges(dir, s, edges, key)
    ensures Keeps(g, dir, start, s, r.search, bound) && ItemsOk(g, dir, start, r.items)
    decreases |edges|
  {
    if edges != [] {
      var first := StallEdge(dir, s, edges[0], key);
      if Stalls(dir, s, edges[0], key) {
        StallEdgeKeeps(g, dir, start, s, bound, u, edges[0], key, first);
        StallEdgesKeep(g, dir, start, first.search, bound, u, edges[1..], key,
          StallEdges(dir, first.search, edges[1..], key));
        EvolvesTransitive(s, first.search, r.search);
      } else {
        StallEdgesKeep(g, dir, start, s, bound, u, edges[1..], key, StallEdges(dir, s, edges[1..], key));
      }
    }
  }

  lemma {:induction false} StallLoopKeeps(g: Graph, dir: nat, start: ItemId, s: Search, bound: int,
                                          list: seq<StallItem>, t: Search)
    requires dir <= 1 && Inv(g, dir, start, s, bound) && PositiveWeights(g) && PositiveItems(list)
      && ItemsOk(g, dir, start, list)
    requires t == StallLoop(g, dir, s, list)
    ensures Keeps(g, dir, start, s, t, bound)
    decreases Unstalled(s), |list|
  {
    if list != [] {
      var edges := Out(g, list[0].id);
      var r := StallEdges(dir, s, edges, list[0].key);
      StallEdgesShrinks(dir, s, edges, list[0].key);
      StallEdgesKeep(g, dir, start, s, bound, list[0].id, edges, list[0].key, r);
      StallLoopKeeps(g, dir, start, r.search, bound, AfterTurn(list, r.items), t);
      EvolvesTransitive(s, r.search, t);
    }
  }

  /** Stalling a node with a cheaper known way to it. */
  lemma StallKeeps(g: Graph, dir: nat, start: ItemId, s: Search, bound: int, id: ItemId, key: int, t: Search)
    requires dir <= 1 && Inv(g, dir, start, s, bound) && PositiveWeights(g) && id in s.hash
    requires 0 < key < s.nodes[s.hash[id]].key && HasRoadWalk(g, dir, start, id, key)
    requires t == Stall(g, dir, s, id, key)
    ensures Keeps(g, dir, start, s, t, bound)
  {
    var m := SetStalled(s, s.hash[id], key);
    InvSetStalled(g, dir, start, s, bound, s.hash[id], key, m);
    StallLoopKeeps(g, dir, start, m, bound, [StallItem(id, key)], t);
    EvolvesTransitive(s, m, t);
  }

  /** The first `k` edges of `id` have been offered. */
  ghost predicate OfferedUpTo(g: Graph, dir: nat, s: Search, id: ItemId, val: int, k: nat)
    requires dir <= 1 && Indexed(s) && k <= |Out(g, id)|
  {
    forall j :: 0 <= j < k && EdgeValid(Out(g, id)[j], dir) ==>
      Out(g, id)[j].target in s.hash && s.nodes[s.hash[Out(g, id)[j].target]].key <= val + Out(g, id)[j].weight
  }

  lemma OfferedOneMore(g: Graph, dir: nat, s: Search, t: Search, id: ItemId, val: int, k: nat, e: Edge, key: int)
    requires dir <= 1 && Indexed(s) && Indexed(t) && k < |Out(g, id)| && OfferedUpTo(g, dir, s, id, val, k)
      && Evolves(s, t)
    requires e == Out(g, id)[k] && key == e.weight + val && t == Offer(s, e.target, key, Some(id))
    ensures OfferedUpTo(g, dir, t, id, val, k + 1)
  {
    forall j | 0 <= j < k + 1 && EdgeValid(Out(g, id)[j], dir)
      ensures Out(g, id)[j].target in t.hash && t.nodes[t.hash[Out(g, id)[j].target]].key <= val + Out(g, id)[j].weight
    {
      assert j < k ==> Out(g, id)[j].target in s.hash;
    }
  }

  /** The way over the target of a beaten edge back to `id` is a real route, cheaper than the popped key. */
  lemma BeatingRoute(g: Graph, dir: nat, start: ItemId, s: Search, bound: int, id: ItemId, e: Edge, val: int)
    requires dir <= 1 && Inv(g, dir, start, s, bound) && PositiveWeights(g) && e in Out(g, id) && Beats(dir, s, e, val)
    ensures 0 < Detour(s, e) < val
    ensures HasRoadWalk(g, dir, start, id, Detour(s, e))
  {
    var h := s.hash[e.target];
    KnownIsRoad(g, dir, start, s, bound, h);
    assert Stored(g, 1 - dir, id, e.target, e.weight);
    ExtendRoadWalk(g, dir, start, e.target, Known(s.nodes[h]), id, e.weight);
  }

  lemma RelaxedKeeps(g: Graph, dir: nat, start: ItemId, s: Search, id: ItemId, val: int)
    requires dir <= 1 && Inv(g, dir, start, s, val) && Latest(s, id, val)
      && OfferedUpTo(g, dir, s, id, val, |Out(g, id)|)
    ensures Keeps(g, dir, start, s, s.(relaxed := s.relaxed + {id}), val)
  {
    var t := s.(relaxed := s.relaxed + {id});
    forall h | h in t.nodes && t.nodes[h].id != start ensures ParentOk(g, dir, t, h) {
      assert ParentOk(g, dir, s, h);
    }
    forall u | u in t.relaxed ensures u in t.hash && t.hash[u] !in t.live && Closed(g, dir, t, u) {
      if u != id {
        assert Closed(g, dir, s, u);
      }
    }
  }

  /** What the edge loop of `routech_relax` keeps before edge `k`. */
  ghost predicate Relaxing(g: Graph, dir: nat, start: ItemId, s: Search, id: ItemId, val: int, k: nat)
    requires dir <= 1 && k <= |Out(g, id)|
  {
    Inv(g, dir, start, s, val) && NonNegative(s) && Latest(s, id, val) && OfferedUpTo(g, dir, s, id, val, k)
  }

  lemma OfferKeeps(g: Graph, dir: nat, start: ItemId, s: Search, id: ItemId, val: int, k: nat, e: Edge, key: int,
                   m: Search)
    requires dir <= 1 && k < |Out(g, id)| && Relaxing(g, dir, start, s, id, val, k)
    requires e == Out(g, id)[k] && EdgeValid(e, dir) && key == e.weight + val && e.weight > 0
    requires m == Offer(s, e.target, key, Some(id))
    ensures Relaxing(g, dir, start, m, id, val, k + 1) && Evolves(s, m)
  {
    assert Stored(g, dir, id, e.target, key - val);
    InvOffer(g, dir, start, s, m, val, id, e.target, key);
    OfferedOneMore(g, dir, s, m, id, val, k, e, key);
    InvNonNegative(g, dir, start, m, val);
  }

  lemma RelaxEdgeKeeps(g: Graph, dir: nat, start: ItemId, s: Search, id: ItemId, val: int, k: nat, e: Edge, m: Search)
    requires dir <= 1 && PositiveWeights(g) && k < |Out(g, id)| && Relaxing(g, dir, start, s, id, val, k)
    requires e == Out(g, id)[k] && m == RelaxEdge(dir, s, id, val, e)
    ensures Relaxing(g, dir, start, m, id, val, k + 1) && Evolves(s, m)
  {
    assert e in Out(g, id) && e.weight > 0;
    if EdgeValid(e, dir) {
      OfferKeeps(g, dir, start, s, id, val, k, e, e.weight + val, m);
    }
  }

  /** Edge `k` started no stall, and `t` is what is left to relax from. */
  ghost predicate RelaxedBy(g: Graph, dir: nat, start: ItemId, s: Search, t: Search, id: ItemId, val: int, k: nat)
    requires dir <= 1 && PositiveWeights(g) && k < |Out(g, id)| && Relaxing(g, dir, start, s, id, val, k)
  {
    Relaxing(g, dir, start, t, id, val, k + 1)
      && RelaxFrom(g, dir, t, id, val, k + 1) == RelaxFrom(g, dir, s, id, val, k)
  }

  lemma OfferRelaxes(g: Graph, dir: nat, start: ItemId, s: Search, t: Search, id: ItemId, val: int, k: nat, e: Edge,
                     key: int)
    requires dir <= 1 && PositiveWeights(g) && k < |Out(g, id)| && Relaxing(g, dir, start, s, id, val, k)
    requires e == Out(g, id)[k] && EdgeValid(e, dir) && !Beats(dir, s, e, val)
    requires key == e.weight + val && t == Offer(s, e.target, key, Some(id))
    ensures RelaxedBy(g, dir, start, s, t, id, val, k)
  {
    RelaxEdgeKeeps(g, dir, start, s, id, val, k, e, t);
  }

  /** While relaxing, an offer that lowers a key finds its target queued. */
  lemma RelaxingSpares(g: Graph, dir: nat, start: ItemId, s: Search, id: ItemId, val: int, k: nat, e: Edge)
    requires dir <= 1 && PositiveWeights(g) && k <= |Out(g, id)| && Relaxing(g, dir, start, s, id, val, k)
      && e in Out(g, id)
    ensures e.target in s.hash && s.nodes[s.hash[e.target]].key > e.weight + val ==> s.hash[e.target] in s.live
  {
  }

  /** A beaten edge yields a positive detour. */
  lemma DetourPositive(dir: nat, s: Search, g: Graph, id: ItemId, e: Edge)
    requires dir <= 1 && Indexed(s) && NonNegative(s) && PositiveWeights(g) && e in Out(g, id) && e.target in s.hash
    ensures Detour(s, e) > 0
  {
  }

  lemma BeatenKeeps(g: Graph, dir: nat, start: ItemId, s: Search, id: ItemId, val: int, e: Edge, t: Search)
    requires dir <= 1 && Inv(g, dir, start, s, val) && Latest(s, id, val) && PositiveWeights(g) && NonNegative(s)
    requires e in Out(g, id) && Beats(dir, s, e, val)
    requires Detour(s, e) > 0
    requires t == Stall(g, dir, s, id, Detour(s, e))
    ensures Keeps(g, dir, start, s, t, val)
  {
    BeatingRoute(g, dir, start, s, val, id, e, val);
    StallKeeps(g, dir, start, s, val, id, Detour(s, e), t);
  }

  lemma {:induction false} RelaxFromKeeps(g: Graph, dir: nat, start: ItemId, s: Search, id: ItemId, val: int, k: nat,
                                          t: Search)
    requires dir <= 1 && PositiveWeights(g) && k <= |Out(g, id)| && Relaxing(g, dir, start, s, id, val, k)
    requires t == RelaxFrom(g, dir, s, id, val, k)
    ensures Keeps(g, dir, start, s, t, val)
    decreases |Out(g, id)| - k
  {
    if k == |Out(g, id)| {
      RelaxedKeeps(g, dir, start, s, id, val);
    } else {
      var e := Out(g, id)[k];
      if EdgeValid(e, dir) && Beats(dir, s, e, val) {
        BeatenKeeps(g, dir, start, s, id, val, e, t);
      } else {
        var m := RelaxEdge(dir, s, id, val, e);
        RelaxEdgeKeeps(g, dir, start, s, id, val, k, e, m);
        RelaxFromKeeps(g, dir, start, m, id, val, k + 1, t);
        EvolvesTransitive(s, m, t);
      }
    }
  }

  /** Popping a minimal element and handling it keeps the invariant, and leaves every popped node as it was. */
  lemma RelaxKeeps(g: Graph, dir: nat, start: ItemId, s: Search, bound: int, e: nat, t: Search)
    requires dir <= 1 && Inv(g, dir, start, s, bound) && PositiveWeights(g) && NonNegative(s)
    requires e in s.live && forall h :: h in s.live ==> s.nodes[e].key <= s.nodes[h].key
    requires t == Relax(g, dir, s, e)
    ensures bound <= s.nodes[e].key && Keeps(g, dir, start, s, t, s.nodes[e].key)
    ensures e !in t.live && e in t.nodes && t.nodes[e].key == s.nodes[e].key
  {
    var p := Pop(s, e);
    InvPop(g, dir, start, s, bound, e);
    if s.nodes[e].stalled == 0 {
      InvNonNegative(g, dir, start, p, s.nodes[e].key);
      RelaxFromKeeps(g, dir, start, p, s.nodes[e].id, s.nodes[e].key, 0, t);
      EvolvesTransitive(s, p, t);
    }
  }

  /** As long as no popped node was stalled, each of them has had all its edges offered. */
  ghost predicate NothingStalled(s: Search) {
    forall h :: h in s.nodes && h !in s.live ==> s.nodes[h].id in s.relaxed
  }

  /** Any walk has led to a key no longer than itself, or is longer than every popped key. */
  lemma {:induction false} WalkLowerBound(g: Graph, dir: nat, start: ItemId, s: Search, bound: int, w: Walk)
    requires dir <= 1 && Inv(g, dir, start, s, bound) && PositiveWeights(g) && NothingStalled(s)
    requires SearchWalk(g, dir, start, w)
    ensures bound <= Length(w) || (End(w) in s.hash && s.nodes[s.hash[End(w)]].key <= Length(w))
  {
    if w.Hop? {
      WalkLowerBound(g, dir, start, s, bound, w.prev);
      var u := End(w.prev);
      var k :| 0 <= k < |Out(g, u)| && Out(g, u)[k].target == w.to && Out(g, u)[k].weight == w.weight
        && EdgeValid(Out(g, u)[k], dir);
      assert Out(g, u)[k] in g[u];
      if bound > Length(w.prev) {
        assert u in s.relaxed;
        assert Closed(g, dir, s, u);
      }
    }
  }

  /** Without stalls, the key of a popped node is the shortest distance over the edges the search follows. */
  lemma PoppedKeyIsShortest(g: Graph, dir: nat, start: ItemId, s: Search, bound: int, h: nat)
    requires dir <= 1 && Inv(g, dir, start, s, bound) && PositiveWeights(g) && NothingStalled(s)
    requires h in s.nodes && h !in s.live
    ensures HasSearchWalk(g, dir, start, s.nodes[h].id, s.nodes[h].key)
    ensures forall w: Walk :: SearchWalk(g, dir, start, w) && End(w) == s.nodes[h].id ==> s.nodes[h].key <= Length(w)
  {
    KeyIsWalk(g, dir, start, s, bound, h);
    forall w: Walk | SearchWalk(g, dir, start, w) && End(w) == s.nodes[h].id ensures s.nodes[h].key <= Length(w) {
      WalkLowerBound(g, dir, start, s, bound, w);
    }
  }
}
