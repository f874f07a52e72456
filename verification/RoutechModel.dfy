/**
 One search of routech.c as a function on values: the handles' nodes, the ones still queued,
 the id hash, and what relaxing a node or stalling one does to them.
 */
module SearchModel {
  import opened Basics
  import opened IndexedHeap
  import opened Hierarchy

  /** `next` is the next free handle; `relaxed` remembers the nodes all of whose edges were offered. */
  datatype Search = Search(nodes: map<nat, Node>, next: nat, live: set<nat>, deleted: set<nat>, hash: map<ItemId, nat>,
    relaxed: set<ItemId>)

  /** The hash and the handles name each other; handle 0 is never given out and means "not found". */
  ghost predicate Indexed(s: Search) {
    && s.next >= 1 && (forall h :: h in s.nodes <==> 1 <= h < s.next)
    && s.live <= s.nodes.Keys && s.deleted <= s.nodes.Keys && s.live !! s.deleted
    && (forall id :: id in s.hash ==> s.hash[id] in s.nodes && s.nodes[s.hash[id]].id == id)
    && (forall h :: h in s.nodes ==> s.nodes[h].id in s.hash && s.hash[s.nodes[h].id] == h)
  }

  const EMPTY := Search(map[], 1, {}, {}, map[], {})

  /** `routech_insert_node`, then `pq_set_parent` where a handle came back. */
  function Offer(s: Search, id: ItemId, val: int, parent: Option<ItemId>): (t: Search)
    requires Indexed(s)
    ensures Indexed(t)
  {
    if id in s.hash then
      var h := s.hash[id];
      if s.nodes[h].key > val then
        s.(nodes := s.nodes[h := s.nodes[h].(key := val, parent := parent, stalled := 0)])
      else
        s
    else
      s.(nodes := s.nodes[s.next := Node(id, parent, 0, val)], next := s.next + 1, live := s.live + {s.next},
        hash := s.hash[id := s.next])
  }

  /** `pq_delete_min` choosing `e`; only an element that leaves others behind reads as deleted. */
  function Pop(s: Search, e: nat): Search {
    s.(live := s.live - {e}, deleted := if s.live - {e} == {} then s.deleted else s.deleted + {e})
  }

  /** What a node is known to cost: its stall value where it has one, else its key. */
  function Known(n: Node): int {
    if n.stalled != 0 then n.stalled else n.key
  }

  datatype StallItem = StallItem(id: ItemId, key: int)

  function SetStalled(s: Search, h: nat, stalled: int): Search
    requires h in s.nodes
  {
    s.(nodes := s.nodes[h := s.nodes[h].(stalled := stalled)])
  }

  function Unstalled(s: Search): set<nat> {
    set h | h in s.nodes && s.nodes[h].stalled == 0
  }

  /** The test of `routech_stall`: the edge leads to a known, unstalled node that it would make cheaper. */
  predicate Stalls(dir: nat, s: Search, e: Edge, key: int)
    requires dir <= 1
  {
    && EdgeValid(e, dir) && e.target in s.hash && s.hash[e.target] in s.nodes
    && key + e.weight < s.nodes[s.hash[e.target]].key && s.nodes[s.hash[e.target]].stalled == 0
  }

  datatype Stalling = Stalling(search: Search, items: seq<StallItem>)

  /** One edge in `routech_stall`: it may stall the target and append it to the work list. */
  function StallEdge(dir: nat, s: Search, e: Edge, key: int): Stalling
    requires dir <= 1
  {
    if Stalls(dir, s, e, key) then
      Stalling(SetStalled(s, s.hash[e.target], key + e.weight), [StallItem(e.target, key + e.weight)])
    else
      Stalling(s, [])
  }

  lemma StallEdgeTaken(dir: nat, s: Search, e: Edge, key: int, h: nat, newKey: int, t: Search)
    requires dir <= 1 && Stalls(dir, s, e, key) && h == s.hash[e.target] && newKey == key + e.weight
      && t == SetStalled(s, h, newKey)
    ensures StallEdge(dir, s, e, key) == Stalling(t, [StallItem(e.target, newKey)])
  {
  }

  /** The edge loop of `routech_stall`. */
  function StallEdges(dir: nat, s: Search, edges: seq<Edge>, key: int): Stalling
    requires dir <= 1
    decreases |edges|
  {
    if edges == [] then Stalling(s, [])
    else
      var first := StallEdge(dir, s, edges[0], key);
      var rest := StallEdges(dir, first.search, edges[1..], key);
      Stalling(rest.search, first.items + rest.items)
  }

  /** What the edges from `k` on make of `s`, after earlier edges appended `items`. */
  function StallFrom(dir: nat, s: Search, edges: seq<Edge>, k: nat, key: int, items: seq<StallItem>): Stalling
    requires dir <= 1 && k <= |edges|
  {
    var r := StallEdges(dir, s, edges[k..], key);
    Stalling(r.search, items + r.items)
  }

  lemma StallFromStart(dir: nat, s: Search, edges: seq<Edge>, key: int)
    requires dir <= 1
    ensures StallFrom(dir, s, edges, 0, key, []) == StallEdges(dir, s, edges, key)
  {
    assert edges[0..] == edges;
    assert [] + StallEdges(dir, s, edges, key).items == StallEdges(dir, s, edges, key).items;
  }

  lemma StallFromStep(dir: nat, s: Search, edges: seq<Edge>, k: nat, key: int, items: seq<StallItem>, t: Search,
                      appended: seq<StallItem>)
    requires dir <= 1 && k < |edges| && StallEdge(dir, s, edges[k], key) == Stalling(t, appended)
    ensures StallFrom(dir, t, edges, k + 1, key, items + appended) == StallFrom(dir, s, edges, k, key, items)
  {
    assert edges[k..][0] == edges[k] && edges[k..][1..] == edges[k + 1..];
    var rest := StallEdges(dir, t, edges[k + 1..], key);
    assert (items + appended) + rest.items == items + (appended + rest.items);
  }

  lemma StallFromEnd(dir: nat, s: Search, edges: seq<Edge>, key: int, items: seq<StallItem>)
    requires dir <= 1
    ensures StallFrom(dir, s, edges, |edges|, key, items) == Stalling(s, items)
  {
    assert items + [] == items;
  }

  /** Work items carry positive keys, so stalling a node always leaves a non-zero mark. */
  ghost predicate PositiveItems(list: seq<StallItem>) {
    forall item :: item in list ==> item.key > 0
  }

  /** Work was appended only if a node was stalled that was not stalled before. */
  ghost predicate Shrinks(s: Search, r: Stalling) {
    Unstalled(r.search) <= Unstalled(s) && (r.items != [] ==> Unstalled(r.search) < Unstalled(s))
      && PositiveItems(r.items)
  }

  lemma StallEdgeShrinks(dir: nat, s: Search, e: Edge, key: int)
    requires dir <= 1 && key > 0 && e.weight > 0
    ensures Shrinks(s, StallEdge(dir, s, e, key))
  {
    if Stalls(dir, s, e, key) {
      var h := s.hash[e.target];
      assert Unstalled(SetStalled(s, h, key + e.weight)) == Unstalled(s) - {h} && h in Unstalled(s);
    }
  }

  lemma {:induction false} StallEdgesShrinks(dir: nat, s: Search, edges: seq<Edge>, key: int)
    requires dir <= 1 && key > 0
    requires forall e :: e in edges ==> e.weight > 0
    ensures Shrinks(s, StallEdges(dir, s, edges, key))
    decreases |edges|
  {
    if edges != [] {
      var first := StallEdge(dir, s, edges[0], key);
      StallEdgeShrinks(dir, s, edges[0], key);
      StallEdgesShrinks(dir, first.search, edges[1..], key);
    }
  }

  /** `g_list_remove(list, se)`: `se` is the newest item appended in this turn, else the head. */
  function AfterTurn(list: seq<StallItem>, items: seq<StallItem>): seq<StallItem>
    requires list != []
  {
    if items == [] then list[1..] else list + items[..|items| - 1]
  }

  /** The work-list loop of `routech_stall`. */
  function StallLoop(g: Graph, dir: nat, s: Search, list: seq<StallItem>): Search
    requires dir <= 1 && PositiveWeights(g) && PositiveItems(list)
    decreases Unstalled(s), |list|
  {
    if list == [] then s
    else
      var edges := Out(g, list[0].id);
      var r := StallEdges(dir, s, edges, list[0].key);
      StallEdgesShrinks(dir, s, edges, list[0].key);
      StallLoop(g, dir, r.search, AfterTurn(list, r.items))
  }

  /** One turn of that loop shrinks either the unstalled nodes or the work list. */
  lemma StallLoopStep(g: Graph, dir: nat, s: Search, list: seq<StallItem>, t: Search, rest: seq<StallItem>)
    requires dir <= 1 && PositiveWeights(g) && PositiveItems(list) && list != []
    requires t == StallEdges(dir, s, Out(g, list[0].id), list[0].key).search
    requires rest == AfterTurn(list, StallEdges(dir, s, Out(g, list[0].id), list[0].key).items)
    ensures PositiveItems(rest) && StallLoop(g, dir, t, rest) == StallLoop(g, dir, s, list)
    ensures Unstalled(t) < Unstalled(s) || (Unstalled(t) == Unstalled(s) && |rest| < |list|)
  {
    StallEdgesShrinks(dir, s, Out(g, list[0].id), list[0].key);
  }

  /** Only stall values change; the rest of the search is as before. */
  ghost predicate OnlyStalls(s: Search, t: Search) {
    && t == s.(nodes := t.nodes) && t.nodes.Keys == s.nodes.Keys
    && (forall h :: h in s.nodes ==> t.nodes[h] == s.nodes[h].(stalled := t.nodes[h].stalled))
  }

  lemma {:induction false} StallEdgesOnlyStalls(dir: nat, s: Search, edges: seq<Edge>, key: int)
    requires dir <= 1
    ensures OnlyStalls(s, StallEdges(dir, s, edges, key).search)
    decreases |edges|
  {
    if edges != [] {
      StallEdgesOnlyStalls(dir, StallEdge(dir, s, edges[0], key).search, edges[1..], key);
    }
  }

  lemma {:induction false} StallLoopOnlyStalls(g: Graph, dir: nat, s: Search, list: seq<StallItem>)
    requires dir <= 1 && PositiveWeights(g) && PositiveItems(list)
    ensures OnlyStalls(s, StallLoop(g, dir, s, list))
    decreases Unstalled(s), |list|
  {
    if list != [] {
      var r := StallEdges(dir, s, Out(g, list[0].id), list[0].key);
      StallEdgesShrinks(dir, s, Out(g, list[0].id), list[0].key);
      StallEdgesOnlyStalls(dir, s, Out(g, list[0].id), list[0].key);
      StallLoopOnlyStalls(g, dir, r.search, AfterTurn(list, r.items));
    }
  }

  function Stall(g: Graph, dir: nat, s: Search, id: ItemId, key: int): (t: Search)
    requires dir <= 1 && Indexed(s) && PositiveWeights(g) && id in s.hash && key > 0
    ensures OnlyStalls(s, t) && (Indexed(s) ==> Indexed(t))
  {
    StallLoopOnlyStalls(g, dir, SetStalled(s, s.hash[id], key), [StallItem(id, key)]);
    StallLoop(g, dir, SetStalled(s, s.hash[id], key), [StallItem(id, key)])
  }

  /** The cost of going back from the target of this edge over the edge. */
  function Detour(s: Search, e: Edge): int
    requires Indexed(s) && e.target in s.hash
  {
    Known(s.nodes[s.hash[e.target]]) + e.weight
  }

  /** Does the known cost of the target, plus the way back over this edge, beat the popped key? */
  predicate Beats(dir: nat, s: Search, e: Edge, val: int)
    requires dir <= 1 && Indexed(s)
  {
    e.target in s.hash && EdgeValid(e, 1 - dir) && Detour(s, e) < val
  }

  /** No negative keys, and stall values that are set are positive. */
  ghost predicate NonNegative(s: Search) {
    forall h :: h in s.nodes ==> s.nodes[h].key >= 0 && s.nodes[h].stalled >= 0
  }

  /** An edge that starts no stall: its target is offered the way over it, if the search may follow it. */
  function RelaxEdge(dir: nat, s: Search, id: ItemId, val: int, e: Edge): (t: Search)
    requires dir <= 1 && Indexed(s)
    ensures Indexed(t)
  {
    if EdgeValid(e, dir) then Offer(s, e.target, e.weight + val, Some(id)) else s
  }

  /** The edge loop of `routech_relax` from edge `k` on, at the popped node `id` with key `val`. */
  function RelaxFrom(g: Graph, dir: nat, s: Search, id: ItemId, val: int, k: nat): (t: Search)
    requires dir <= 1 && Indexed(s) && PositiveWeights(g) && NonNegative(s) && id in s.hash && val >= 0
      && k <= |Out(g, id)|
    ensures Indexed(t)
    decreases |Out(g, id)| - k
  {
    if k == |Out(g, id)| then s.(relaxed := s.relaxed + {id})
    else
      var e := Out(g, id)[k];
      if EdgeValid(e, dir) && Beats(dir, s, e, val) then
        Stall(g, dir, s, id, Detour(s, e))
      else
        RelaxFrom(g, dir, RelaxEdge(dir, s, id, val, e), id, val, k + 1)
  }

  /** The popped element `e` is handled: skipped when stalled, else relaxed. */
  function Relax(g: Graph, dir: nat, s: Search, e: nat): (t: Search)
    requires dir <= 1 && Indexed(s) && PositiveWeights(g) && NonNegative(s) && e in s.live
    ensures Indexed(t)
  {
    var p := Pop(s, e);
    var n := s.nodes[e];
    if n.stalled != 0 then p else RelaxFrom(g, dir, p, n.id, n.key, 0)
  }
}
