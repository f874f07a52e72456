/**
 When a popped node is stalled and what its relaxation offers, in keys, stall values, weights and flags.
 */
module SearchStalling {
  import opened Basics
  import opened IndexedHeap
  import opened Hierarchy
  import opened SearchModel
  import opened SearchInvariant
  import opened SearchRuns

  // ----- one offer

  /** A node is queued with the value offered when it is new, and gets it when that is less than its key. */
  lemma OfferChanges(s: Search, id: ItemId, val: int, parent: Option<ItemId>, t: Search, x: ItemId)
    requires Indexed(s) && t == Offer(s, id, val, parent)
    ensures x in t.hash <==> x in s.hash || x == id
    ensures x in s.hash ==> t.hash[x] == s.hash[x] && (t.hash[x] in t.live <==> s.hash[x] in s.live)
    ensures x in s.hash && (x != id || val >= s.nodes[s.hash[x]].key) ==> t.nodes[t.hash[x]] == s.nodes[s.hash[x]]
    ensures id in s.hash && val < s.nodes[s.hash[id]].key ==> t.nodes[t.hash[id]] == Node(id, parent, 0, val)
    ensures id !in s.hash ==> t.nodes[t.hash[id]] == Node(id, parent, 0, val) && t.hash[id] in t.live
  {
  }

  // ----- the search in front of each edge

  /** Node `h` of the search can be relaxed. */
  ghost predicate Ready(g: Graph, s: Search, h: nat) {
    Indexed(s) && PositiveWeights(g) && NonNegative(s) && h in s.nodes
  }

  function Edges(g: Graph, s: Search, h: nat): seq<Edge>
    requires h in s.nodes
  {
    Out(g, s.nodes[h].id)
  }

  /** What the first `k` edges of node `h` make of the search when none of them stalls the node. */
  function Tried(g: Graph, dir: nat, s: Search, h: nat, k: nat): (t: Search)
    requires dir <= 1 && Ready(g, s, h) && k <= |Edges(g, s, h)|
    ensures Indexed(t)
  {
    if k == 0 then s
    else
      var t, e, n := Tried(g, dir, s, h, k - 1), Edges(g, s, h)[k - 1], s.nodes[h];
      if EdgeValid(e, dir) then Offer(t, e.target, n.key + e.weight, Some(n.id)) else t
  }

  /** The way back over an edge that can be passed both ways costs less than `val`. */
  predicate Undercuts(s: Search, e: Edge, val: int, cost: int)
    requires Indexed(s)
  {
    && EdgeValid(e, 0) && EdgeValid(e, 1) && e.target in s.hash
    && (var n := s.nodes[s.hash[e.target]]; cost == (if n.stalled != 0 then n.stalled else n.key) + e.weight)
    && cost < val
  }

  /** Edge `k` of node `h` undercuts when it is its turn. */
  ghost predicate UndercutsAt(g: Graph, dir: nat, s: Search, h: nat, k: nat, cost: int)
    requires dir <= 1 && Ready(g, s, h)
  {
    k < |Edges(g, s, h)| && Undercuts(Tried(g, dir, s, h, k), Edges(g, s, h)[k], s.nodes[h].key, cost)
  }

  ghost predicate Free(g: Graph, dir: nat, s: Search, h: nat, k: nat)
    requires dir <= 1 && Ready(g, s, h)
  {
    forall cost :: !UndercutsAt(g, dir, s, h, k, cost)
  }

  ghost predicate NoneBefore(g: Graph, dir: nat, s: Search, h: nat, k: nat)
    requires dir <= 1 && Ready(g, s, h)
  {
    forall j :: 0 <= j < k ==> Free(g, dir, s, h, j)
  }

  ghost predicate First(g: Graph, dir: nat, s: Search, h: nat, k: nat, cost: int)
    requires dir <= 1 && Ready(g, s, h)
  {
    UndercutsAt(g, dir, s, h, k, cost) && NoneBefore(g, dir, s, h, k)
  }

  lemma {:induction false} TriedKeeps(g: Graph, dir: nat, s: Search, h: nat, k: nat)
    requires dir <= 1 && Ready(g, s, h) && k <= |Edges(g, s, h)|
    ensures var t := Tried(g, dir, s, h, k); NonNegative(t) && h in t.nodes && t.nodes[h] == s.nodes[h]
  {
    if k > 0 {
      TriedKeeps(g, dir, s, h, k - 1);
      assert Edges(g, s, h)[k - 1] in Edges(g, s, h);
    }
  }

  // ----- the edge loop

  lemma BeatsIsUndercuts(dir: nat, s: Search, e: Edge, val: int)
    requires dir <= 1 && Indexed(s)
    ensures EdgeValid(e, dir) && Beats(dir, s, e, val) <==> exists cost :: Undercuts(s, e, val, cost)
    ensures forall cost :: Undercuts(s, e, val, cost) ==> cost == Detour(s, e)
  {
    if e.target in s.hash {
      assert Undercuts(s, e, val, Detour(s, e)) <==> EdgeValid(e, dir) && Beats(dir, s, e, val);
    }
  }

  /** The loop from edge `k` on, with no stall before. */
  function RestFrom(g: Graph, dir: nat, s: Search, h: nat, k: nat): Search
    requires dir <= 1 && Ready(g, s, h) && k <= |Edges(g, s, h)|
  {
    TriedKeeps(g, dir, s, h, k);
    RelaxFrom(g, dir, Tried(g, dir, s, h, k), s.nodes[h].id, s.nodes[h].key, k)
  }

  lemma RestStalls(g: Graph, dir: nat, s: Search, h: nat, k: nat, cost: int)
    requires dir <= 1 && Ready(g, s, h) && UndercutsAt(g, dir, s, h, k, cost)
    ensures cost > 0 && s.nodes[h].id in Tried(g, dir, s, h, k).hash
    ensures RestFrom(g, dir, s, h, k) == Stall(g, dir, Tried(g, dir, s, h, k), s.nodes[h].id, cost)
  {
    var u, e := Tried(g, dir, s, h, k), Edges(g, s, h)[k];
    TriedKeeps(g, dir, s, h, k);
    BeatsIsUndercuts(dir, u, e, s.nodes[h].key);
    assert e in Edges(g, s, h);
  }

  lemma TriedStep(g: Graph, dir: nat, s: Search, h: nat, k: nat)
    requires dir <= 1 && Ready(g, s, h) && k < |Edges(g, s, h)|
    ensures Tried(g, dir, s, h, k + 1)
      == RelaxEdge(dir, Tried(g, dir, s, h, k), s.nodes[h].id, s.nodes[h].key, Edges(g, s, h)[k])
  {
  }

  lemma DoesNotBeat(g: Graph, dir: nat, s: Search, h: nat, k: nat)
    requires dir <= 1 && Ready(g, s, h) && k < |Edges(g, s, h)| && Free(g, dir, s, h, k)
    ensures var e := Edges(g, s, h)[k];
      !(EdgeValid(e, dir) && Beats(dir, Tried(g, dir, s, h, k), e, s.nodes[h].key))
  {
    var u, e := Tried(g, dir, s, h, k), Edges(g, s, h)[k];
    BeatsIsUndercuts(dir, u, e, s.nodes[h].key);
    forall cost ensures !Undercuts(u, e, s.nodes[h].key, cost) {
      assert !UndercutsAt(g, dir, s, h, k, cost);
    }
  }

  lemma RestGoesOn(g: Graph, dir: nat, s: Search, h: nat, k: nat)
    requires dir <= 1 && Ready(g, s, h) && k < |Edges(g, s, h)| && Free(g, dir, s, h, k)
    ensures RestFrom(g, dir, s, h, k) == RestFrom(g, dir, s, h, k + 1)
  {
    DoesNotBeat(g, dir, s, h, k);
    TriedKeeps(g, dir, s, h, k);
    TriedKeeps(g, dir, s, h, k + 1);
    TriedStep(g, dir, s, h, k);
  }

  lemma RestEnds(g: Graph, dir: nat, s: Search, h: nat)
    requires dir <= 1 && Ready(g, s, h)
    ensures var t := Tried(g, dir, s, h, |Edges(g, s, h)|);
      RestFrom(g, dir, s, h, |Edges(g, s, h)|) == t.(relaxed := t.relaxed + {s.nodes[h].id})
  {
  }

  /** Edges that do not undercut are just tried. */
  lemma {:induction false} RestSame(g: Graph, dir: nat, s: Search, h: nat, k: nat)
    requires dir <= 1 && Ready(g, s, h) && k <= |Edges(g, s, h)| && NoneBefore(g, dir, s, h, k)
    ensures RestFrom(g, dir, s, h, 0) == RestFrom(g, dir, s, h, k)
  {
    if k > 0 {
      RestSame(g, dir, s, h, k - 1);
      RestGoesOn(g, dir, s, h, k - 1);
    }
  }

  /** The first edge that undercuts, or the end. */
  lemma {:induction false} FindFirst(g: Graph, dir: nat, s: Search, h: nat, k: nat) returns (at: nat)
    requires dir <= 1 && Ready(g, s, h) && k <= |Edges(g, s, h)| && NoneBefore(g, dir, s, h, k)
    ensures k <= at <= |Edges(g, s, h)| && NoneBefore(g, dir, s, h, at)
    ensures at < |Edges(g, s, h)| ==> !Free(g, dir, s, h, at)
    decreases |Edges(g, s, h)| - k
  {
    at := k;
    if k < |Edges(g, s, h)| && Free(g, dir, s, h, k) {
      at := FindFirst(g, dir, s, h, k + 1);
    }
  }

  // ----- stalling

  lemma {:induction false} EdgesKeepStalled(dir: nat, s: Search, edges: seq<Edge>, key: int, h: nat)
    requires dir <= 1 && h in s.nodes && s.nodes[h].stalled != 0
    ensures var t := StallEdges(dir, s, edges, key).search; h in t.nodes && t.nodes[h] == s.nodes[h]
    decreases |edges|
  {
    if edges != [] {
      EdgesKeepStalled(dir, StallEdge(dir, s, edges[0], key).search, edges[1..], key, h);
    }
  }

  /** A node that is stalled keeps its stall value. */
  lemma {:induction false} LoopKeepsStalled(g: Graph, dir: nat, s: Search, list: seq<StallItem>, h: nat)
    requires dir <= 1 && PositiveWeights(g) && PositiveItems(list) && h in s.nodes && s.nodes[h].stalled != 0
    ensures var t := StallLoop(g, dir, s, list); h in t.nodes && t.nodes[h] == s.nodes[h]
    decreases Unstalled(s), |list|
  {
    if list != [] {
      var edges := Out(g, list[0].id);
      var r := StallEdges(dir, s, edges, list[0].key);
      StallEdgesShrinks(dir, s, edges, list[0].key);
      EdgesKeepStalled(dir, s, edges, list[0].key, h);
      LoopKeepsStalled(g, dir, r.search, AfterTurn(list, r.items), h);
    }
  }

  lemma StallMarks(g: Graph, dir: nat, s: Search, h: nat, key: int)
    requires dir <= 1 && Indexed(s) && PositiveWeights(g) && h in s.nodes && s.nodes[h].id in s.hash && key > 0
    ensures var t := Stall(g, dir, s, s.nodes[h].id, key);
      h in t.nodes && t.nodes[h].stalled == key && OnlyStalls(s, t)
  {
    var id := s.nodes[h].id;
    LoopKeepsStalled(g, dir, SetStalled(s, h, key), [StallItem(id, key)], h);
  }

  /** A followed edge reaches a known node cheaper than its key says. */
  predicate Cheaper(dir: nat, s: Search, e: Edge, key: int, h: nat)
    requires dir <= 1 && h in s.nodes
  {
    EdgeValid(e, dir) && e.target == s.nodes[h].id && key + e.weight < s.nodes[h].key
  }

  ghost predicate PositiveEdges(edges: seq<Edge>) {
    forall e :: e in edges ==> e.weight > 0
  }

  lemma {:induction false} EdgesLeaveAlone(dir: nat, s: Search, edges: seq<Edge>, key: int, h: nat)
    requires dir <= 1 && Indexed(s) && h in s.nodes
    requires forall j :: 0 <= j < |edges| ==> !Cheaper(dir, s, edges[j], key, h)
    ensures var t := StallEdges(dir, s, edges, key).search; h in t.nodes && t.nodes[h] == s.nodes[h]
    decreases |edges|
  {
    if edges != [] {
      var t := StallEdge(dir, s, edges[0], key).search;
      assert !Cheaper(dir, s, edges[0], key, h);
      EdgesLeaveAlone(dir, t, edges[1..], key, h);
    }
  }

  /**
   The edge loop of `routech_stall` stalls a node that is not yet stalled by the first edge that is cheaper, and
   appends it to the work.
   */
  lemma {:induction false} EdgesStall(dir: nat, s: Search, edges: seq<Edge>, key: int, h: nat, k: nat)
    requires dir <= 1 && Indexed(s) && h in s.nodes && s.nodes[h].stalled == 0 && key > 0 && PositiveEdges(edges)
    requires k < |edges| && Cheaper(dir, s, edges[k], key, h)
      && forall j :: 0 <= j < k ==> !Cheaper(dir, s, edges[j], key, h)
    ensures var r, cost := StallEdges(dir, s, edges, key), key + edges[k].weight;
      h in r.search.nodes && r.search.nodes[h].stalled == cost && StallItem(s.nodes[h].id, cost) in r.items
    decreases |edges|
  {
    var t := StallEdge(dir, s, edges[0], key).search;
    assert edges[0] in edges;
    if k > 0 {
      assert !Cheaper(dir, s, edges[0], key, h);
      EdgesStall(dir, t, edges[1..], key, h, k - 1);
    } else {
      EdgesKeepStalled(dir, t, edges[1..], key, h);
    }
  }

  /** Every node that these edges make cheaper is stalled. */
  ghost predicate Settled(dir: nat, s: Search, edges: seq<Edge>, key: int)
    requires dir <= 1
  {
    forall e, h :: e in edges && h in s.nodes && Cheaper(dir, s, e, key, h) ==> s.nodes[h].stalled != 0
  }

  lemma {:induction false} NothingAppended(dir: nat, s: Search, edges: seq<Edge>, key: int)
    requires dir <= 1 && Indexed(s) && StallEdges(dir, s, edges, key).items == []
    ensures StallEdges(dir, s, edges, key).search == s && Settled(dir, s, edges, key)
    decreases |edges|
  {
    if edges != [] {
      NothingAppended(dir, s, edges[1..], key);
      forall e, h | e in edges && h in s.nodes && Cheaper(dir, s, e, key, h) ensures s.nodes[h].stalled != 0 {
        assert e == edges[0] || e in edges[1..];
      }
    }
  }

  lemma SettledLasts(g: Graph, dir: nat, s: Search, list: seq<StallItem>, edges: seq<Edge>, key: int)
    requires dir <= 1 && PositiveWeights(g) && PositiveItems(list) && Settled(dir, s, edges, key)
    ensures Settled(dir, StallLoop(g, dir, s, list), edges, key)
  {
    var t := StallLoop(g, dir, s, list);
    StallLoopOnlyStalls(g, dir, s, list);
    forall e, h | e in edges && h in t.nodes && Cheaper(dir, t, e, key, h) ensures t.nodes[h].stalled != 0 {
      assert Cheaper(dir, s, e, key, h);
      LoopKeepsStalled(g, dir, s, list, h);
    }
  }

  /** The work list keeps what it had while a turn appends, and then loses its head. */
  lemma TurnKeepsOld(list: seq<StallItem>, items: seq<StallItem>, item: StallItem)
    requires list != [] && item in list
    ensures item in AfterTurn(list, items) || (item == list[0] && items == [])
  {
  }

  /** Whatever is on the work list, in the end all nodes its edges make cheaper are stalled. */
  lemma {:induction false} LoopSettles(g: Graph, dir: nat, s: Search, list: seq<StallItem>, item: StallItem)
    requires dir <= 1 && Indexed(s) && PositiveWeights(g) && PositiveItems(list) && item in list
    ensures Settled(dir, StallLoop(g, dir, s, list), Out(g, item.id), item.key)
    decreases Unstalled(s), |list|
  {
    var edges, key := Out(g, list[0].id), list[0].key;
    var r := StallEdges(dir, s, edges, key);
    StallEdgesShrinks(dir, s, edges, key);
    StallEdgesOnlyStalls(dir, s, edges, key);
    TurnKeepsOld(list, r.items, item);
    if r.items == [] && item == list[0] {
      NothingAppended(dir, s, edges, key);
      SettledLasts(g, dir, s, list[1..], edges, key);
    } else {
      LoopSettles(g, dir, r.search, AfterTurn(list, r.items), item);
    }
  }

  /** Stalling a node stalls every known node its edges reach cheaper than by the key that node has. */
  lemma StallSettles(g: Graph, dir: nat, s: Search, id: ItemId, key: int)
    requires dir <= 1 && Indexed(s) && PositiveWeights(g) && id in s.hash && key > 0
    ensures Settled(dir, Stall(g, dir, s, id, key), Out(g, id), key)
  {
    LoopSettles(g, dir, SetStalled(s, s.hash[id], key), [StallItem(id, key)], StallItem(id, key));
  }

  lemma OneEdgeTurn(dir: nat, s: Search, e: Edge, key: int)
    requires dir <= 1
    ensures StallEdges(dir, s, [e], key) == StallEdge(dir, s, e, key)
  {
    var first := StallEdge(dir, s, e, key);
    assert StallEdges(dir, first.search, [e][1..], key) == Stalling(first.search, []);
    assert first.items + [] == first.items;
  }

  /**
   As the newest work item is dropped, the only edge of a node is as far as stalling gets: the edges of the node
   it leads to are not looked at.
   */
  lemma StallStopsShort(g: Graph, dir: nat, s: Search, id: ItemId, key: int, e: Edge)
    requires dir <= 1 && Indexed(s) && PositiveWeights(g) && id in s.hash && key > 0 && Out(g, id) == [e]
    ensures var t := Stall(g, dir, s, id, key);
      forall h :: h in s.nodes && s.nodes[h].id != id && s.nodes[h].id != e.target ==> t.nodes[h] == s.nodes[h]
  {
    var s0, list := SetStalled(s, s.hash[id], key), [StallItem(id, key)];
    var r := StallEdge(dir, s0, e, key);
    assert e in Out(g, id);
    OneEdgeTurn(dir, s0, e, key);
    StallEdgeShrinks(dir, s0, e, key);
    StallLoopStep(g, dir, s0, list, r.search, AfterTurn(list, r.items));
    if r.items != [] {
      assert AfterTurn(list, r.items) == list;
      OneEdgeTurn(dir, r.search, e, key);
      assert !Stalls(dir, r.search, e, key);
      StallLoopStep(g, dir, r.search, list, r.search, []);
    }
  }

  // ----- a relaxation

  lemma PopIsReady(g: Graph, s: Search, e: nat)
    requires Ready(g, s, e) && e in s.live
    ensures Ready(g, Pop(s, e), e)
  {
  }

  /** The first edge that undercuts has stalled the node, and the edges before it have been offered. */
  ghost predicate StalledBy(g: Graph, dir: nat, s: Search, h: nat, k: nat, cost: int, t: Search)
    requires dir <= 1 && Ready(g, s, h) && k <= |Edges(g, s, h)|
  {
    cost != 0 && h in t.nodes && t.nodes[h].stalled == cost && OnlyStalls(Tried(g, dir, s, h, k), t)
  }

  /** All edges have been offered, and the node is remembered as relaxed. */
  ghost predicate OfferedAll(g: Graph, dir: nat, s: Search, h: nat, t: Search)
    requires dir <= 1 && Ready(g, s, h)
  {
    var u := Tried(g, dir, s, h, |Edges(g, s, h)|);
    h in t.nodes && t.nodes[h] == s.nodes[h] && t == u.(relaxed := u.relaxed + {s.nodes[h].id})
  }

  lemma EdgesStallOrOffer(g: Graph, dir: nat, s: Search, h: nat, t: Search)
    requires dir <= 1 && Ready(g, s, h) && t == RestFrom(g, dir, s, h, 0)
    ensures
      || (OfferedAll(g, dir, s, h, t) && NoneBefore(g, dir, s, h, |Edges(g, s, h)|))
      || exists k, cost :: First(g, dir, s, h, k, cost) && StalledBy(g, dir, s, h, k, cost, t)
  {
    var at := FindFirst(g, dir, s, h, 0);
    RestSame(g, dir, s, h, at);
    TriedKeeps(g, dir, s, h, at);
    if at < |Edges(g, s, h)| {
      var cost :| UndercutsAt(g, dir, s, h, at, cost);
      RestStalls(g, dir, s, h, at, cost);
      StallMarks(g, dir, Tried(g, dir, s, h, at), h, cost);
      assert First(g, dir, s, h, at, cost) && StalledBy(g, dir, s, h, at, cost, t);
    } else {
      RestEnds(g, dir, s, h);
    }
  }

  lemma OneFirst(g: Graph, dir: nat, s: Search, h: nat, k: nat, cost: int, k': nat, cost': int)
    requires dir <= 1 && Ready(g, s, h) && First(g, dir, s, h, k, cost) && First(g, dir, s, h, k', cost')
    ensures k == k' && cost == cost'
  {
    assert !Free(g, dir, s, h, k) && !Free(g, dir, s, h, k');
  }

  lemma RelaxPopped(g: Graph, dir: nat, s: Search, e: nat, t: Search)
    requires dir <= 1 && Ready(g, s, e) && e in s.live && s.nodes[e].stalled == 0 && t == Relax(g, dir, s, e)
    ensures Ready(g, Pop(s, e), e) && t == RestFrom(g, dir, Pop(s, e), e, 0)
  {
    PopIsReady(g, s, e);
  }

  /**
   A popped node that is not stalled gets a stall value exactly when in front of some edge the way back over it
   undercuts, the value of the first such edge; else all edges the search follows are offered.
   */
  lemma RelaxStalls(g: Graph, dir: nat, s: Search, e: nat, t: Search)
    requires dir <= 1 && Ready(g, s, e) && e in s.live && s.nodes[e].stalled == 0 && t == Relax(g, dir, s, e)
    ensures var p := Pop(s, e);
      && Ready(g, p, e) && e in t.nodes
      && (t.nodes[e].stalled != 0 <==> exists k, cost :: UndercutsAt(g, dir, p, e, k, cost))
      && (forall k, cost :: First(g, dir, p, e, k, cost) ==> StalledBy(g, dir, p, e, k, cost, t))
      && (t.nodes[e].stalled == 0 ==> OfferedAll(g, dir, p, e, t))
  {
    var p := Pop(s, e);
    RelaxPopped(g, dir, s, e, t);
    EdgesStallOrOffer(g, dir, p, e, t);
    if k, cost :| First(g, dir, p, e, k, cost) && StalledBy(g, dir, p, e, k, cost, t) {
      forall k', cost' | First(g, dir, p, e, k', cost') ensures StalledBy(g, dir, p, e, k', cost', t) {
        OneFirst(g, dir, p, e, k, cost, k', cost');
      }
    } else {
      forall k: nat, cost ensures !UndercutsAt(g, dir, p, e, k, cost) {
        if k < |Edges(g, p, e)| {
          assert Free(g, dir, p, e, k);
        }
      }
    }
  }
}
