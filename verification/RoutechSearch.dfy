/**
 The search objects of routech.c: methods that update a queue and an id hash in place, each
 tied to its function on values.
 */
module RoutechSearches {
  import opened Basics
  import opened IndexedHeap
  import opened Hierarchy
  import opened SearchModel
  import opened SearchInvariant
  import opened SearchRuns
  import opened Routes

  class RoutechSearch {
    const pq: PriorityQueue
    var hash: map<ItemId, nat>
    var finished: bool
    const dir: nat
    var upper: int
    var via: Option<ItemId>
    ghost var relaxed: set<ItemId>

    ghost function Model(): Search
      reads this`hash, this`relaxed, pq
    {
      Search(pq.nodes, pq.elementsSize, pq.live, pq.deleted, hash, relaxed)
    }

    ghost predicate Valid()
      reads this`hash, this`relaxed, pq, pq.elements, pq.heapElements
    {
      dir <= 1 && pq.Valid() && Indexed(Model())
    }

    ghost function Repr(): set<object>
      reads this, pq
    {
      {this, pq, pq.elements, pq.heapElements}
    }

    constructor (dir: nat)
      requires dir <= 1
      ensures Valid() && Model() == EMPTY && fresh(Repr()) && this.dir == dir
      ensures !finished && upper == UINT_MAX && via == None
    {
      pq := new PriorityQueue();
      hash := map[];
      finished := false;
      this.dir := dir;
      upper, via := UINT_MAX, None;
      relaxed := {};
    }

    /** The queue's arrays are the given ones, or were allocated since. */
    twostate predicate ArraysKept()
      reads this, pq
    {
      && (pq.elements == old(pq.elements) || fresh(pq.elements))
      && (pq.heapElements == old(pq.heapElements) || fresh(pq.heapElements))
    }

    /** The handle stored under an id, 0 when there is none. */
    method LookupHandle(id: ItemId) returns (h: nat)
      requires Valid()
      ensures h != 0 <==> id in hash
      ensures h != 0 ==> h == hash[id]
    {
      h := if id in hash then hash[id] else 0;
    }

    /** `routech_insert_node` and `pq_set_parent` for an id the hash does not have. */
    method OfferNew(id: ItemId, val: int, parent: Option<ItemId>, ghost was: Search)
      requires Valid() && id !in hash && was == Model()
      modifies this`hash, pq, pq.elements, pq.heapElements
      ensures Valid() && ArraysKept()
      ensures Model() == Offer(was, id, val, parent)
    {
      var element := pq.Insert(val, id);
      ghost var inserted := pq.nodes[element];
      pq.SetParent(element, parent, 0);
      hash := hash[id := element];
      UpdateTwice(was.nodes, element, inserted, Node(id, parent, 0, val));
      assert Model() == Offer(was, id, val, parent);
    }

    /** `routech_insert_node` and `pq_set_parent` for a queued handle that gets cheaper. */
    method OfferCheaper(element: nat, id: ItemId, val: int, parent: Option<ItemId>)
      requires Valid() && id in hash && hash[id] == element && pq.nodes[element].key > val && element in pq.live
      modifies pq`nodes, pq.elements, pq.heapElements
      ensures Valid()
      ensures Model() == Offer(old(Model()), id, val, parent)
    {
      ghost var was := Model();
      pq.DecreaseKey(element, val);
      pq.SetParent(element, parent, 0);
      ghost var n := was.nodes[element];
      UpdateTwice(was.nodes, element, n.(key := val), n.(key := val, parent := parent, stalled := 0));
      assert Model() == Offer(was, id, val, parent);
    }

    /** `routech_insert_node`, followed by `pq_set_parent` when a handle came back. */
    method OfferNode(id: ItemId, val: int, parent: Option<ItemId>)
      requires Valid() && (id in hash && pq.nodes[hash[id]].key > val ==> hash[id] in pq.live)
      modifies this`hash, pq, pq.elements, pq.heapElements
      ensures Valid() && ArraysKept()
      ensures Model() == Offer(old(Model()), id, val, parent)
    {
      var element := LookupHandle(id);
      if element == 0 {
        OfferNew(id, val, parent, Model());
      } else {
        var node := pq.Get(element);
        if node.key > val {
          OfferCheaper(element, id, val, parent);
        }
      }
    }

    method MarkStalled(element: nat, stalled: int)
      requires Valid() && element in pq.nodes
      modifies pq`nodes, pq.elements
      ensures Valid() && Model() == SetStalled(old(Model()), element, stalled)
    {
      pq.SetStalled(element, stalled);
    }

    /** The test of `routech_stall` on one edge. */
    method TestStall(e: Edge, key: int) returns (index: nat)
      requires Valid()
      ensures index != 0 <==> Stalls(dir, Model(), e, key)
      ensures index != 0 ==> index == hash[e.target]
    {
      index := 0;
      if EdgeValid(e, dir) {
        var h := LookupHandle(e.target);
        if h != 0 {
          var node := pq.Get(h);
          if key + e.weight < node.key && node.stalled == 0 {
            index := h;
          }
        }
      }
    }

    /** One edge in `routech_stall`; `items` is what it appends to the work list. */
    method StallOver(e: Edge, key: int) returns (items: seq<StallItem>)
      requires Valid()
      modifies pq`nodes, pq.elements
      ensures Valid() && StallEdge(dir, old(Model()), e, key) == Stalling(Model(), items) && |items| <= 1
    {
      var index := TestStall(e, key);
      if index == 0 {
        items := [];
      } else {
        ghost var was := Model();
        var newKey := key + e.weight;
        MarkStalled(index, newKey);
        StallEdgeTaken(dir, was, e, key, index, newKey, Model());
        items := [StallItem(e.target, newKey)];
      }
    }

    /** What that appends moves `se` to the newest item. */
    method Append(ghost list: seq<StallItem>, work: seq<StallItem>, se: nat, appended: seq<StallItem>,
                  ghost items: seq<StallItem>) returns (work': seq<StallItem>, se': nat)
      requires list != [] && work == list + items && se == if |items| == 0 then 0 else |work| - 1
      ensures work' == list + (items + appended) && se' == if |items + appended| == 0 then 0 else |work'| - 1
    {
      work', se' := work + appended, se;
      if |appended| > 0 {
        se' := |work'| - 1;
      }
    }

    /** The edge loop of `routech_stall`: appends to the work list and moves `se` to the newest item. */
    method StallAll(edges: seq<Edge>, key: int, list: seq<StallItem>, ghost was: Search)
      returns (work: seq<StallItem>, se: nat)
      requires Valid() && list != [] && was == Model()
      modifies pq`nodes, pq.elements
      ensures Valid()
      ensures var r := StallEdges(dir, was, edges, key);
        Model() == r.search && work == list + r.items && se == if |r.items| == 0 then 0 else |work| - 1
    {
      ghost var s, items := was, [];
      work, se := list, 0;
      StallFromStart(dir, s, edges, key);
      for k := 0 to |edges|
        invariant Valid() && s == Model()
        invariant work == list + items
        invariant se == if |items| == 0 then 0 else |work| - 1
        invariant StallFrom(dir, s, edges, k, key, items) == StallEdges(dir, was, edges, key)
      {
        var appended := StallOver(edges[k], key);
        StallFromStep(dir, s, edges, k, key, items, Model(), appended);
        work, se := Append(list, work, se, appended, items);
        s, items := Model(), items + appended;
      }
      StallFromEnd(dir, s, edges, key, items);
    }

    /** One turn of the work-list loop of `routech_stall`: the item `se` points at goes. */
    method StallTurn(g: Graph, list: seq<StallItem>) returns (rest: seq<StallItem>)
      requires Valid() && list != [] && PositiveWeights(g) && PositiveItems(list)
      modifies pq`nodes, pq.elements
      ensures Valid() && PositiveItems(rest)
      ensures StallLoop(g, dir, Model(), rest) == StallLoop(g, dir, old(Model()), list)
      ensures Unstalled(Model()) < Unstalled(old(Model()))
        || (Unstalled(Model()) == Unstalled(old(Model())) && |rest| < |list|)
    {
      ghost var was := Model();
      var work, se := StallAll(Out(g, list[0].id), list[0].key, list, was);
      rest := work[..se] + work[se + 1..];
      StallLoopStep(g, dir, was, list, Model(), rest);
    }

    /** `routech_stall`: spreads a cheaper way to a popped node over the work list. */
    method StallNode(g: Graph, id: ItemId, key: int)
      requires Valid() && PositiveWeights(g) && id in hash && key > 0
      modifies pq`nodes, pq.elements
      ensures Valid() && Model() == Stall(g, dir, old(Model()), id, key)
    {
      var index := LookupHandle(id);
      MarkStalled(index, key);
      var list := [StallItem(id, key)];
      ghost var target := StallLoop(g, dir, Model(), list);
      while list != []
        invariant Valid() && PositiveItems(list)
        invariant StallLoop(g, dir, Model(), list) == target
        decreases Unstalled(Model()), |list|
      {
        list := StallTurn(g, list);
      }
    }

    /** Whether an edge that may be followed both ways shows a cheaper way to the popped node; its cost. */
    method TestBeats(e: Edge, val: int) returns (beats: bool, newKey: int)
      requires Valid()
      ensures beats <==> Beats(dir, Model(), e, val)
      ensures beats ==> newKey == Detour(Model(), e)
    {
      beats, newKey := false, 0;
      var index := LookupHandle(e.target);
      if index != 0 && EdgeValid(e, 1 - dir) {
        var node := pq.Get(index);
        if node.stalled != 0 {
          newKey := node.stalled;
        } else {
          newKey := node.key;
        }
        newKey := newKey + e.weight;
        beats := newKey < val;
      }
    }

    /** `routech_relax` offers the target of one edge. */
    method OfferTarget(g: Graph, id: ItemId, val: int, k: nat, ghost start: ItemId)
      requires Valid() && PositiveWeights(g) && k < |Out(g, id)| && Relaxing(g, dir, start, Model(), id, val, k)
      requires EdgeValid(Out(g, id)[k], dir) && !Beats(dir, Model(), Out(g, id)[k], val)
      modifies this`hash, pq, pq.elements, pq.heapElements
      ensures Valid() && ArraysKept()
      ensures RelaxedBy(g, dir, start, old(Model()), Model(), id, val, k)
    {
      var e := Out(g, id)[k];
      RelaxingSpares(g, dir, start, Model(), id, val, k, e);
      ghost var was := Model();
      var key := e.weight + val;
      OfferNode(e.target, key, Some(id));
      OfferRelaxes(g, dir, start, was, Model(), id, val, k, e, key);
    }

    /** The stall test of `routech_relax` on one edge. */
    method StallTest(g: Graph, id: ItemId, val: int, k: nat, ghost start: ItemId) returns (stalled: bool)
      requires Valid() && PositiveWeights(g) && k < |Out(g, id)| && Relaxing(g, dir, start, Model(), id, val, k)
      requires EdgeValid(Out(g, id)[k], dir)
      modifies pq`nodes, pq.elements
      ensures Valid()
      ensures stalled <==> Beats(dir, old(Model()), Out(g, id)[k], val)
      ensures stalled ==> Model() == RelaxFrom(g, dir, old(Model()), id, val, k)
      ensures !stalled ==> Model() == old(Model())
    {
      var e := Out(g, id)[k];
      var newKey;
      stalled, newKey := TestBeats(e, val);
      if stalled {
        DetourPositive(dir, Model(), g, id, e);
        StallNode(g, id, newKey);
      }
    }

    /** One turn of the edge loop of `routech_relax`: it stalls the popped node, or offers the target. */
    method RelaxNext(g: Graph, id: ItemId, val: int, k: nat, ghost start: ItemId) returns (stalled: bool)
      requires Valid() && PositiveWeights(g) && k < |Out(g, id)| && Relaxing(g, dir, start, Model(), id, val, k)
      modifies this`hash, pq, pq.elements, pq.heapElements
      ensures Valid() && ArraysKept()
      ensures stalled ==> Model() == RelaxFrom(g, dir, old(Model()), id, val, k)
      ensures !stalled ==> RelaxedBy(g, dir, start, old(Model()), Model(), id, val, k)
    {
      if EdgeValid(Out(g, id)[k], dir) {
        stalled := StallTest(g, id, val, k, start);
        if !stalled {
          OfferTarget(g, id, val, k, start);
        }
      } else {
        stalled := false;
        RelaxEdgeKeeps(g, dir, start, Model(), id, val, k, Out(g, id)[k], Model());
      }
    }

    /**
     In front of edge `k` of the popped node, or behind the edge that stalled it; `target` is what the loop
     comes to.
     */
    ghost predicate RelaxingAt(g: Graph, start: ItemId, id: ItemId, val: int, k: nat, stalled: bool, target: Search)
      requires PositiveWeights(g)
      reads this`hash, this`relaxed, pq, pq.elements, pq.heapElements
    {
      && Valid()
      && if stalled then Model() == target
        else
          && k <= |Out(g, id)| && Relaxing(g, dir, start, Model(), id, val, k)
          && RelaxFrom(g, dir, Model(), id, val, k) == target
    }

    /** One turn of the edge loop, on the way to `target`. */
    method RelaxPass(g: Graph, id: ItemId, val: int, k: nat, ghost start: ItemId, ghost target: Search)
      returns (stalled: bool)
      requires PositiveWeights(g) && RelaxingAt(g, start, id, val, k, false, target) && k < |Out(g, id)|
      modifies this`hash, pq, pq.elements, pq.heapElements
      ensures ArraysKept() && RelaxingAt(g, start, id, val, k + 1, stalled, target)
    {
      stalled := RelaxNext(g, id, val, k, start);
    }

    /** The edge loop of `routech_relax`, up to its end or to the edge that stalls the popped node. */
    method RelaxEdges(g: Graph, id: ItemId, val: int, ghost start: ItemId, ghost target: Search) returns (stalled: bool)
      requires Valid() && PositiveWeights(g) && Relaxing(g, dir, start, Model(), id, val, 0)
      requires target == RelaxFrom(g, dir, Model(), id, val, 0)
      modifies this`hash, pq, pq.elements, pq.heapElements
      ensures Valid() && ArraysKept()
      ensures target == if stalled then Model() else Model().(relaxed := Model().relaxed + {id})
    {
      var k := 0;
      stalled := false;
      while k < |Out(g, id)| && !stalled
        invariant k <= |Out(g, id)| && ArraysKept() && RelaxingAt(g, start, id, val, k, stalled, target)
      {
        stalled := RelaxPass(g, id, val, k, start, target);
        k := k + 1;
      }
    }

    /** The edge loop of `routech_relax`; a node that gets through it is relaxed. */
    method RelaxAll(g: Graph, id: ItemId, val: int, ghost start: ItemId)
      requires Valid() && PositiveWeights(g) && Relaxing(g, dir, start, Model(), id, val, 0)
      modifies this`hash, this`relaxed, pq, pq.elements, pq.heapElements
      ensures Valid() && ArraysKept()
      ensures Model() == RelaxFrom(g, dir, old(Model()), id, val, 0)
    {
      var stalled := RelaxEdges(g, id, val, start, RelaxFrom(g, dir, Model(), id, val, 0));
      if !stalled {
        relaxed := relaxed + {id};
      }
    }

    /** The two searches share no storage. */
    ghost predicate Apart(other: RoutechSearch)
      reads pq, other.pq
    {
      this != other && pq != other.pq && pq.elements != other.pq.elements && pq.heapElements != other.pq.heapElements
    }

    /** `routech_relax` looks the popped node up in the opposite search and may improve the shared bound. */
    method MeetOpposite(opposite: RoutechSearch, id: ItemId, val: int)
      requires opposite.Valid()
      modifies this`upper, this`via, opposite`upper, opposite`via
      requires upper == opposite.upper && via == opposite.via
      ensures upper == opposite.upper && via == opposite.via
      ensures Meeting(upper, via) == Meet(Meeting(old(upper), old(via)), id, val, opposite.Model())
    {
      var index := opposite.LookupHandle(id);
      if index != 0 {
        var deleted := opposite.pq.IsDeleted(index);
        if deleted {
          var node := opposite.pq.Get(index);
          if val + node.key < upper {
            upper, opposite.upper := val + node.key, val + node.key;
            via, opposite.via := Some(id), Some(id);
          }
        }
      }
    }

    /** The meeting after `element` was popped from `was`. */
    static ghost predicate MetOver(m: Meeting, was: Search, element: nat, opposite: Search, n: Meeting)
      requires Indexed(opposite) && element in was.nodes
    {
      n == Meet(m, was.nodes[element].id, was.nodes[element].key, opposite)
    }

    /** `pq_delete_min` followed by the self-check of the heap. */
    method PopMin(ghost was: Search) returns (found: bool, id: ItemId, val: int, element: nat)
      requires Valid() && was == Model()
      modifies pq`size, pq`live, pq`deleted, pq.elements, pq.heapElements
      ensures Valid()
      ensures found <==> was.live != {}
      ensures !found ==> Model() == was
      ensures found ==> Minimal(was, element) && Model() == Pop(was, element)
      ensures found ==> was.nodes[element].id == id && was.nodes[element].key == val
    {
      found, id, val, element := pq.DeleteMin();
      if found {
        var ok := pq.Check();
      }
    }

    /** The rest of `routech_relax` after the pop: a stalled node is skipped, others are relaxed. */
    method RelaxPopped(g: Graph, id: ItemId, val: int, element: nat, ghost start: ItemId, ghost bound: int,
                       ghost was: Search)
      requires Valid() && PositiveWeights(g) && Inv(g, dir, start, was, bound) && NonNegative(was)
        && Minimal(was, element)
      requires Model() == Pop(was, element) && was.nodes[element].id == id && was.nodes[element].key == val
      modifies this`hash, this`relaxed, pq, pq.elements, pq.heapElements
      ensures Valid() && ArraysKept() && Model() == Relax(g, dir, was, element)
    {
      InvPop(g, dir, start, was, bound, element);
      var node := pq.Get(element);
      if node.stalled == 0 {
        InvNonNegative(g, dir, start, Model(), val);
        RelaxAll(g, id, val, start);
      }
    }

    /** The first part of `routech_relax`: pops the cheapest node and tries to meet the other search there. */
    method PopAndMeet(opposite: RoutechSearch, ghost was: Search, ghost m: Meeting)
      returns (found: bool, id: ItemId, val: int, element: nat)
      requires was == Model() && m == Meeting(upper, via)
      requires Valid() && opposite.Valid() && Apart(opposite) && upper == opposite.upper && via == opposite.via
      modifies this`upper, this`via, pq`size, pq`live, pq`deleted, pq.elements, pq.heapElements, opposite`upper,
        opposite`via
      ensures Valid() && upper == opposite.upper && via == opposite.via
      ensures found <==> was.live != {}
      ensures !found ==> Model() == was && Meeting(upper, via) == m
      ensures found ==> Minimal(was, element) && Model() == Pop(was, element)
      ensures found ==> was.nodes[element].id == id && was.nodes[element].key == val
      ensures opposite.Valid()
      ensures found ==> MetOver(m, was, element, opposite.Model(), Meeting(upper, via))
    {
      found, id, val, element := PopMin(was);
      if found {
        MeetOpposite(opposite, id, val);
      }
    }

    /** `RelaxPopped` leaves the other search and what both share alone. */
    method RelaxBeside(g: Graph, opposite: RoutechSearch, id: ItemId, val: int, element: nat, ghost start: ItemId,
                       ghost bound: int, ghost was: Search, ghost m: Meeting, ghost other: Search)
      requires Valid() && PositiveWeights(g) && Inv(g, dir, start, was, bound) && NonNegative(was)
        && Minimal(was, element)
      requires Model() == Pop(was, element) && was.nodes[element].id == id && was.nodes[element].key == val
      requires opposite.Valid() && Apart(opposite) && other == opposite.Model()
        && m == Meeting(upper, via) == Meeting(opposite.upper, opposite.via)
      modifies this`hash, this`relaxed, pq, pq.elements, pq.heapElements
      ensures Valid() && ArraysKept() && Model() == Relax(g, dir, was, element)
      ensures opposite.Valid() && other == opposite.Model()
        && m == Meeting(upper, via) == Meeting(opposite.upper, opposite.via)
    {
      RelaxPopped(g, id, val, element, start, bound, was);
    }

    /** `routech_relax`: pops the cheapest node, tries to meet the other search there, and relaxes its edges. */
    method RelaxMin(g: Graph, opposite: RoutechSearch, ghost start: ItemId, ghost bound: int, ghost was: Search,
                    ghost m: Meeting)
      returns (found: bool, ghost element: nat)
      requires Valid() && opposite.Valid() && Apart(opposite) && PositiveWeights(g) && was == Model()
        && m == Meeting(upper, via)
      requires Inv(g, dir, start, Model(), bound) && NonNegative(Model()) && upper == opposite.upper
        && via == opposite.via
      modifies this`hash, this`relaxed, this`upper, this`via, pq, pq.elements, pq.heapElements, opposite`upper,
        opposite`via
      ensures Valid() && opposite.Valid() && ArraysKept() && upper == opposite.upper && via == opposite.via
      ensures found <==> was.live != {}
      ensures !found ==> Model() == was && Meeting(upper, via) == m
      ensures found ==> Minimal(was, element) && Model() == Relax(g, dir, was, element)
      ensures found ==> MetOver(m, was, element, opposite.Model(), Meeting(upper, via))
    {
      var id, val, e;
      found, id, val, e := PopAndMeet(opposite, was, m);
      element := e;
      if found {
        RelaxBeside(g, opposite, id, val, e, start, bound, was, Meeting(upper, via), opposite.Model());
      }
    }

    /** The loop of `routech_find_path` that follows parents from the meeting node. */
    method FollowParents(ghost g: Graph, ghost start: ItemId, ghost bound: int) returns (list: seq<ItemId>)
      requires Valid() && Inv(g, dir, start, Model(), bound) && via.Some? && via.value in hash
      ensures list == PathList(g, dir, start, Model(), bound, via.value)
    {
      var curr := via.value;
      list := [];
      ghost var s, done := Model(), [];
      while true
        invariant Following(g, dir, start, s, bound, via.value, done, list, curr)
        decreases s.nodes[s.hash[curr]].key
      {
        var element := LookupHandle(curr);
        var node := pq.Get(element);
        var before := list;
        if dir != 0 {
          list := list + [curr];
        } else {
          list := [curr] + list;
        }
        if node.parent == None {
          FollowEnd(g, dir, start, s, bound, via.value, done, before, curr);
          break;
        }
        FollowStep(g, dir, start, s, bound, via.value, done, before, curr, node.parent.value);
        done := done + [curr];
        curr := node.parent.value;
      }
    }
  }
}
