/**
 The driver of routech.c: alternates the two searches, then writes the route their parents spell out.
 */
module RoutechDriver {
  import opened Basics
  import opened IndexedHeap
  import opened Hierarchy
  import opened SearchModel
  import opened SearchInvariant
  import opened SearchRuns
  import opened SearchOptimum
  import opened Routes
  import opened RoutechSearches

  const MAX_STEPS := 5000

  /** The loop of `routech_find_edge` over the edges stored at a node. */
  method FindEdgeAt(g: Graph, from: ItemId, to: ItemId) returns (r: Option<Edge>)
    ensures r == FindEdge(g, from, to)
  {
    var edges := Out(g, from);
    assert edges[0..] == edges;
    for k := 0 to |edges|
      invariant FirstTo(edges, to) == FirstTo(edges[k..], to)
    {
      assert edges[k..][1..] == edges[k + 1..];
      if edges[k].target == to {
        return Some(edges[k]);
      }
    }
    return None;
  }

  /** `routech_resolve`: appends the segments between two neighbours of the path to the route file. */
  method ResolveInto(g: Graph, ghost level: ItemId -> nat, from: ItemId, to: ItemId, dir: nat, routeFile: seq<Segment>)
    returns (out: seq<Segment>)
    requires dir <= 1 && WellFormed(g, level) && LegEdge(g, from, to, dir).Some?
    ensures out == routeFile + Resolve(g, level, from, to, dir)
    decreases level(Storing(from, to, dir))
  {
    var found;
    if dir != 0 {
      found := FindEdgeAt(g, to, from);
    } else {
      found := FindEdgeAt(g, from, to);
    }
    var e := found.value;
    FoundIsStored(g, Storing(from, to, dir), Storing(to, from, dir));
    if IsShortcut(e) {
      assert Halves(g, level, Storing(from, to, dir), e);
      out := ResolveInto(g, level, from, e.middle, 1, routeFile);
      out := ResolveInto(g, level, e.middle, to, 0, out);
    } else {
      out := routeFile + [Segment(from, to, e.middle, e.flags, dir)];
    }
  }

  /** The loop of `routech_find_path` over neighbours of the list. */
  method ResolveList(g: Graph, ghost level: ItemId -> nat, dir: nat, list: seq<ItemId>, routeFile: seq<Segment>)
    returns (out: seq<Segment>)
    requires dir <= 1 && WellFormed(g, level) && list != [] && Legs(g, dir, list)
    ensures out == routeFile + Emit(g, level, dir, list)
  {
    out := routeFile;
    var i := 0;
    assert list[0..] == list;
    while i + 1 < |list|
      invariant i < |list| && Legs(g, dir, list[i..])
      invariant out + Emit(g, level, dir, list[i..]) == routeFile + Emit(g, level, dir, list)
    {
      assert LegEdge(g, list[i], list[i + 1], dir).Some?;
      assert list[i..][0] == list[i] && list[i..][1] == list[i + 1] && list[i..][1..] == list[i + 1..];
      out := ResolveInto(g, level, list[i], list[i + 1], dir, out);
      i := i + 1;
    }
  }

  /** `routech_find_path`: the route between a search's start and the meeting node goes to the route file. */
  method FindPath(g: Graph, ghost level: ItemId -> nat, s: RoutechSearch, ghost start: ItemId, ghost bound: int,
                  routeFile: seq<Segment>)
    returns (out: seq<Segment>, ghost leg: seq<Segment>)
    requires s.Valid() && WellFormed(g, level) && Inv(g, s.dir, start, s.Model(), bound) && s.via.Some?
      && s.via.value in s.hash
    ensures out == routeFile + leg
    ensures s.dir == 0 ==> Route(g, leg, start, s.via.value)
    ensures s.dir == 1 ==> Route(g, leg, s.via.value, start)
    ensures RouteLength(g, leg) == s.Model().nodes[s.hash[s.via.value]].key
  {
    var list := s.FollowParents(g, start, bound);
    if s.dir == 0 {
      ForwardPath(g, level, start, s.Model(), bound, s.via.value);
    } else {
      BackwardPath(g, level, start, s.Model(), bound, s.via.value);
    }
    leg := Emit(g, level, s.dir, list);
    out := ResolveList(g, level, s.dir, list, routeFile);
  }

  /** The state of the pair of searches; `last` are the keys they popped last. */
  ghost function State(forward: RoutechSearch, backward: RoutechSearch, lastForward: int, lastBackward: int): Bidi
    reads forward`hash, forward`relaxed, forward`upper, forward`via, forward.pq
    reads backward`hash, backward`relaxed, backward.pq
  {
    Bidi(Side(forward.Model(), lastForward), Side(backward.Model(), lastBackward), forward.upper, forward.via)
  }

  /** The two searches are in order, share nothing but agree on the bound and the meeting node. */
  ghost predicate Paired(forward: RoutechSearch, backward: RoutechSearch)
    reads forward`hash, forward`relaxed, forward`upper, forward`via, forward.pq, forward.pq.elements,
      forward.pq.heapElements
    reads backward`hash, backward`relaxed, backward`upper, backward`via, backward.pq, backward.pq.elements,
      backward.pq.heapElements
  {
    && forward.Valid() && backward.Valid() && forward.Apart(backward)
    && forward.dir == 0 && backward.dir == 1
    && forward.upper == backward.upper && forward.via == backward.via
  }

  /** The pair is in the state `x`. */
  ghost predicate Stands(forward: RoutechSearch, backward: RoutechSearch, x: Bidi)
    reads forward`hash, forward`relaxed, forward`upper, forward`via, forward.pq, forward.pq.elements,
      forward.pq.heapElements
    reads backward`hash, backward`relaxed, backward`upper, backward`via, backward.pq, backward.pq.elements,
      backward.pq.heapElements
  {
    Paired(forward, backward) && x == State(forward, backward, x.forward.last, x.backward.last)
  }

  /** The pair of searches has come to the reachable state `x`. */
  ghost predicate Driving(g: Graph, src: ItemId, dst: ItemId, forward: RoutechSearch, backward: RoutechSearch, x: Bidi)
    reads forward`hash, forward`relaxed, forward`upper, forward`via, forward.pq, forward.pq.elements,
      forward.pq.heapElements
    reads backward`hash, backward`relaxed, backward`upper, backward`via, backward.pq, backward.pq.elements,
      backward.pq.heapElements
  {
    Stands(forward, backward, x) && Reachable(g, src, dst, x)
  }

  /** The forward search takes a turn, which is a step of the pair unless its queue was empty. */
  method ForwardTurn(g: Graph, forward: RoutechSearch, backward: RoutechSearch, ghost src: ItemId, ghost dst: ItemId,
                     ghost x: Bidi) returns (ghost y: Bidi)
    requires PositiveWeights(g) && Driving(g, src, dst, forward, backward, x)
    modifies forward`hash, forward`relaxed, forward`upper, forward`via, forward.pq, forward.pq.elements,
      forward.pq.heapElements
    modifies backward`upper, backward`via
    ensures Driving(g, src, dst, forward, backward, y) && forward.ArraysKept() && forward.pq.nodes != map[]
    ensures Took(x, y, 0)
  {
    ReachableInv(g, src, dst, x);
    InvNonNegative(g, 0, src, forward.Model(), x.forward.last);
    ghost var was := forward.Model();
    var found, e := forward.RelaxMin(g, backward, src, x.forward.last, was, Meeting(x.upper, x.via));
    y := x;
    if found {
      y := Bidi(Side(forward.Model(), was.nodes[e].key), x.backward, forward.upper, forward.via);
      ForwardAdvances(g, src, dst, x, y, e);
    }
    ReachableInv(g, src, dst, y);
    assert src in forward.hash;
  }

  /** The backward search takes a turn. */
  method BackwardTurn(g: Graph, forward: RoutechSearch, backward: RoutechSearch, ghost src: ItemId, ghost dst: ItemId,
                      ghost x: Bidi) returns (ghost y: Bidi)
    requires PositiveWeights(g) && Driving(g, src, dst, forward, backward, x)
    modifies backward`hash, backward`relaxed, backward`upper, backward`via, backward.pq, backward.pq.elements,
      backward.pq.heapElements
    modifies forward`upper, forward`via
    ensures Driving(g, src, dst, forward, backward, y) && backward.ArraysKept() && backward.pq.nodes != map[]
    ensures Took(x, y, 1)
  {
    ReachableInv(g, src, dst, x);
    InvNonNegative(g, 1, dst, backward.Model(), x.backward.last);
    ghost var was := backward.Model();
    var found, e := backward.RelaxMin(g, forward, dst, x.backward.last, was, Meeting(x.upper, x.via));
    y := x;
    if found {
      y := Bidi(x.forward, Side(backward.Model(), was.nodes[e].key), forward.upper, forward.via);
      BackwardAdvances(g, src, dst, x, y, e);
    }
    ReachableInv(g, src, dst, y);
    assert dst in backward.hash;
  }

  /** The tests at the head of the driver's loop. */
  method NextSearch(emptyForward: bool, emptyBackward: bool, doneForward: bool, doneBackward: bool, searchId: nat)
    returns (next: Option<nat>)
    requires searchId <= 1
    ensures next ==
      if doneBackward then (if emptyForward then None else Some(0))
      else if doneForward then (if emptyBackward then None else Some(1))
      else if emptyForward && emptyBackward then None
      else if emptyForward then Some(1)
      else if emptyBackward then Some(0)
      else Some(1 - searchId)
  {
    if emptyForward && emptyBackward {
      return None;
    }
    var id := searchId;
    if !(if id == 0 then emptyBackward else emptyForward) {
      id := 1 - id;
    }
    if doneForward {
      id := 1;
    }
    if doneBackward {
      id := 0;
    }
    if (if id == 0 then emptyForward else emptyBackward) {
      return None;
    }
    return Some(id);
  }

  /** Which search the driver lets relax next; `None` when both queues are empty or the chosen one is. */
  method Schedule(forward: RoutechSearch, backward: RoutechSearch, searchId: nat) returns (next: Option<nat>)
    requires forward.Valid() && backward.Valid() && searchId <= 1
    ensures var noForward, noBackward := forward.Model().live == {}, backward.Model().live == {};
      next ==
        if backward.finished then (if noForward then None else Some(0))
        else if forward.finished then (if noBackward then None else Some(1))
        else if noForward && noBackward then None
        else if noForward then Some(1)
        else if noBackward then Some(0)
        else Some(1 - searchId)
  {
    var emptyForward := forward.pq.IsEmpty();
    var emptyBackward := backward.pq.IsEmpty();
    next := NextSearch(emptyForward, emptyBackward, forward.finished, backward.finished, searchId);
  }

  /** A search finishes when its cheapest key exceeds the bound; an empty queue shows a stale key. */
  method Finish(curr: RoutechSearch)
    requires curr.Valid() && curr.pq.nodes != map[]
    modifies curr`finished
    ensures old(curr.finished) ==> curr.finished
    ensures !old(curr.finished) && curr.Model().live != {} ==>
      (curr.finished <==> forall h :: h in curr.Model().live ==> curr.Model().nodes[h].key > curr.upper)
  {
    var min := curr.pq.Min();
    if min > curr.upper {
      curr.finished := true;
    }
  }

  /** A new search whose queue holds its start node. */
  method NewSearch(dir: nat, start: ItemId) returns (s: RoutechSearch)
    requires dir <= 1
    ensures fresh(s.Repr()) && s.Valid() && s.dir == dir && s.upper == UINT_MAX && s.via == None && !s.finished
    ensures s.Model() == Offer(EMPTY, start, 0, None)
  {
    s := new RoutechSearch(dir);
    s.OfferNode(start, 0, None);
  }

  /** `Finish` for one of the pair, which otherwise stays as it is. */
  method FinishOne(forward: RoutechSearch, backward: RoutechSearch, curr: RoutechSearch, ghost x: Bidi)
    requires Stands(forward, backward, x) && (curr == forward || curr == backward) && curr.pq.nodes != map[]
    requires !curr.finished
    modifies curr`finished
    ensures Stands(forward, backward, x)
    ensures curr.finished ==> Finished(if curr == forward then x.forward.search else x.backward.search, x.upper)
  {
    Finish(curr);
  }

  /** The search chosen is not finished. */
  ghost predicate Unfinished(forward: RoutechSearch, backward: RoutechSearch, id: nat)
    reads forward`finished, backward`finished
  {
    if id == 0 then !forward.finished else !backward.finished
  }

  /** It is finished only if nothing it has queued could improve the bound. */
  ghost predicate Ended(forward: RoutechSearch, backward: RoutechSearch, x: Bidi, id: nat)
    reads forward`finished, backward`finished
  {
    Unfinished(forward, backward, id) || Finished(SideOf(x, id).search, x.upper)
  }

  ghost predicate Settled(forward: RoutechSearch, backward: RoutechSearch, x: Bidi)
    reads forward`finished, backward`finished
  {
    Ended(forward, backward, x, 0) && Ended(forward, backward, x, 1)
  }

  ghost function SideOf(x: Bidi, id: nat): Side {
    if id == 0 then x.forward else x.backward
  }

  /** What a turn of the search chosen does: the other one stays, the bound does not rise, a queued node is popped. */
  ghost predicate Took(x: Bidi, y: Bidi, id: nat) {
    && (if id == 0 then y.backward == x.backward else y.forward == x.forward) && y.upper <= x.upper
    && (SideOf(x, id).search.live != {} ==> Popped(y) > Popped(x))
  }

  /** A turn of the forward search, after which it may be finished. */
  method DriveForward(g: Graph, forward: RoutechSearch, backward: RoutechSearch, ghost src: ItemId, ghost dst: ItemId,
                      ghost x: Bidi) returns (ghost y: Bidi)
    requires PositiveWeights(g) && Driving(g, src, dst, forward, backward, x)
    modifies forward`hash, forward`relaxed, forward`upper, forward`via, forward`finished, forward.pq,
      forward.pq.elements, forward.pq.heapElements
    modifies backward`upper, backward`via
    requires !forward.finished
    ensures Driving(g, src, dst, forward, backward, y) && forward.ArraysKept()
    ensures Took(x, y, 0) && Ended(forward, backward, y, 0)
  {
    y := ForwardTurn(g, forward, backward, src, dst, x);
    FinishOne(forward, backward, forward, y);
  }

  /** A turn of the backward search, after which it may be finished. */
  method DriveBackward(g: Graph, forward: RoutechSearch, backward: RoutechSearch, ghost src: ItemId, ghost dst: ItemId,
                       ghost x: Bidi) returns (ghost y: Bidi)
    requires PositiveWeights(g) && Driving(g, src, dst, forward, backward, x)
    modifies backward`hash, backward`relaxed, backward`upper, backward`via, backward`finished, backward.pq,
      backward.pq.elements, backward.pq.heapElements
    modifies forward`upper, forward`via
    requires !backward.finished
    ensures Driving(g, src, dst, forward, backward, y) && backward.ArraysKept()
    ensures Took(x, y, 1) && Ended(forward, backward, y, 1)
  {
    y := BackwardTurn(g, forward, backward, src, dst, x);
    FinishOne(forward, backward, backward, y);
  }

  /** The other search's flag stays. */
  method DriveForwardOnly(g: Graph, forward: RoutechSearch, backward: RoutechSearch, ghost src: ItemId,
                          ghost dst: ItemId, ghost x: Bidi) returns (ghost y: Bidi)
    requires PositiveWeights(g) && Driving(g, src, dst, forward, backward, x) && !forward.finished
    modifies forward`hash, forward`relaxed, forward`upper, forward`via, forward`finished, forward.pq,
      forward.pq.elements, forward.pq.heapElements
    modifies backward`upper, backward`via
    ensures Driving(g, src, dst, forward, backward, y) && forward.ArraysKept()
    ensures Took(x, y, 0) && Ended(forward, backward, y, 0) && backward.finished == old(backward.finished)
  {
    y := DriveForward(g, forward, backward, src, dst, x);
  }

  method DriveBackwardOnly(g: Graph, forward: RoutechSearch, backward: RoutechSearch, ghost src: ItemId,
                           ghost dst: ItemId, ghost x: Bidi) returns (ghost y: Bidi)
    requires PositiveWeights(g) && Driving(g, src, dst, forward, backward, x) && !backward.finished
    modifies backward`hash, backward`relaxed, backward`upper, backward`via, backward`finished, backward.pq,
      backward.pq.elements, backward.pq.heapElements
    modifies forward`upper, forward`via
    ensures Driving(g, src, dst, forward, backward, y) && backward.ArraysKept()
    ensures Took(x, y, 1) && Ended(forward, backward, y, 1) && forward.finished == old(forward.finished)
  {
    y := DriveBackward(g, forward, backward, src, dst, x);
  }

  /** The turn of the search chosen. */
  method Turn(g: Graph, forward: RoutechSearch, backward: RoutechSearch, id: nat, ghost src: ItemId, ghost dst: ItemId,
              ghost x: Bidi) returns (ghost y: Bidi)
    requires PositiveWeights(g) && Driving(g, src, dst, forward, backward, x) && Unfinished(forward, backward, id)
    modifies forward, forward.pq, forward.pq.elements, forward.pq.heapElements
    modifies backward, backward.pq, backward.pq.elements, backward.pq.heapElements
    ensures Driving(g, src, dst, forward, backward, y) && forward.ArraysKept() && backward.ArraysKept()
    ensures Took(x, y, id) && Ended(forward, backward, y, id)
    ensures if id == 0 then backward.finished == old(backward.finished) else forward.finished == old(forward.finished)
  {
    if id == 0 {
      y := DriveForwardOnly(g, forward, backward, src, dst, x);
    } else {
      y := DriveBackwardOnly(g, forward, backward, src, dst, x);
    }
  }

  /** `Schedule` leaves the pair as it is, and finds nothing to do only when both searches have come to their ends. */
  method Choose(g: Graph, forward: RoutechSearch, backward: RoutechSearch, searchId: nat, ghost src: ItemId,
                ghost dst: ItemId, ghost x: Bidi) returns (next: Option<nat>)
    requires searchId <= 1 && Driving(g, src, dst, forward, backward, x) && Settled(forward, backward, x)
    requires !forward.finished || !backward.finished
    ensures Driving(g, src, dst, forward, backward, x) && (next.None? ==> BothFinished(x))
    ensures next.Some? ==> next.value <= 1 && Unfinished(forward, backward, next.value)
    ensures next.Some? ==> SideOf(x, next.value).search.live != {}
  {
    next := Schedule(forward, backward, searchId);
  }

  lemma StaysFinished(s: Search, upper: int, lower: int)
    requires lower <= upper
    ensures Finished(s, upper) ==> Finished(s, lower)
  {
  }

  /** After the turn both searches are settled again. */
  method TurnSettled(g: Graph, forward: RoutechSearch, backward: RoutechSearch, id: nat, ghost src: ItemId,
                     ghost dst: ItemId, ghost x: Bidi) returns (ghost y: Bidi)
    requires PositiveWeights(g) && Driving(g, src, dst, forward, backward, x) && Unfinished(forward, backward, id)
    requires Settled(forward, backward, x) && id <= 1
    modifies forward, forward.pq, forward.pq.elements, forward.pq.heapElements
    modifies backward, backward.pq, backward.pq.elements, backward.pq.heapElements
    ensures Driving(g, src, dst, forward, backward, y) && forward.ArraysKept() && backward.ArraysKept()
    ensures Took(x, y, id) && Settled(forward, backward, y)
  {
    assert Ended(forward, backward, x, 1 - id);
    y := Turn(g, forward, backward, id, src, dst, x);
    StaysFinished(SideOf(x, 1 - id).search, x.upper, y.upper);
  }

  /** The driver goes on while not both searches are finished. */
  ghost predicate Going(forward: RoutechSearch, backward: RoutechSearch, x: Bidi, stop: bool)
    reads forward`finished, backward`finished
  {
    if stop then BothFinished(x) else Settled(forward, backward, x) && (!forward.finished || !backward.finished)
  }

  lemma BothSettled(forward: RoutechSearch, backward: RoutechSearch, x: Bidi)
    requires Settled(forward, backward, x)
    ensures Going(forward, backward, x, forward.finished && backward.finished)
  {
  }

  /** The turn of the search chosen and the test at the end of the driver's loop. */
  method TurnAndTest(g: Graph, forward: RoutechSearch, backward: RoutechSearch, id: nat, ghost src: ItemId,
                     ghost dst: ItemId, ghost x: Bidi) returns (stop: bool, ghost y: Bidi)
    requires PositiveWeights(g) && Driving(g, src, dst, forward, backward, x) && Unfinished(forward, backward, id)
    requires Settled(forward, backward, x) && id <= 1
    modifies forward, forward.pq, forward.pq.elements, forward.pq.heapElements
    modifies backward, backward.pq, backward.pq.elements, backward.pq.heapElements
    ensures Driving(g, src, dst, forward, backward, y) && forward.ArraysKept() && backward.ArraysKept()
    ensures Took(x, y, id) && Going(forward, backward, y, stop)
  {
    y := TurnSettled(g, forward, backward, id, src, dst, x);
    BothSettled(forward, backward, y);
    stop := forward.finished && backward.finished;
  }

  /** One pass of the driver's loop: the scheduled search relaxes its cheapest node. */
  method Pass(g: Graph, forward: RoutechSearch, backward: RoutechSearch, searchId: nat, ghost src: ItemId,
              ghost dst: ItemId, ghost x: Bidi)
    returns (nextId: nat, stop: bool, ghost y: Bidi)
    requires searchId <= 1 && PositiveWeights(g) && Driving(g, src, dst, forward, backward, x)
    requires Going(forward, backward, x, false)
    modifies forward, forward.pq, forward.pq.elements, forward.pq.heapElements
    modifies backward, backward.pq, backward.pq.elements, backward.pq.heapElements
    ensures nextId <= 1 && Driving(g, src, dst, forward, backward, y) && forward.ArraysKept() && backward.ArraysKept()
    ensures Going(forward, backward, y, stop) && (stop || Popped(y) > Popped(x))
  {
    var next := Choose(g, forward, backward, searchId, src, dst, x);
    nextId, stop, y := searchId, true, x;
    if next.Some? {
      nextId := next.value;
      stop, y := TurnAndTest(g, forward, backward, nextId, src, dst, x);
    }
  }

  /** The driver's loop. */
  method Drive(g: Graph, forward: RoutechSearch, backward: RoutechSearch, ghost src: ItemId, ghost dst: ItemId,
               ghost x: Bidi) returns (ghost y: Bidi, ghost stopped: bool)
    requires PositiveWeights(g) && Driving(g, src, dst, forward, backward, x) && !forward.finished && !backward.finished
    modifies forward, forward.pq, forward.pq.elements, forward.pq.heapElements
    modifies backward, backward.pq, backward.pq.elements, backward.pq.heapElements
    ensures Driving(g, src, dst, forward, backward, y) && if stopped then BothFinished(y) else Popped(y) >= MAX_STEPS
  {
    y := x;
    var searchId, i, stop := 0, 0, false;
    while i < MAX_STEPS && !stop
      invariant searchId <= 1 && Driving(g, src, dst, forward, backward, y) && forward.ArraysKept()
        && backward.ArraysKept()
      invariant Going(forward, backward, y, stop) && (stop || Popped(y) >= i)
    {
      searchId, stop, y := Pass(g, forward, backward, searchId, src, dst, y);
      i := i + 1;
    }
    stopped := stop;
  }

  /** The two searches of `routech_test` until the driver stops, in the reachable state `x`. */
  method Search(g: Graph, src: ItemId, dst: ItemId)
    returns (forward: RoutechSearch, backward: RoutechSearch, ghost x: Bidi, ghost stopped: bool)
    requires PositiveWeights(g)
    ensures Driving(g, src, dst, forward, backward, x) && if stopped then BothFinished(x) else Popped(x) >= MAX_STEPS
  {
    forward := NewSearch(0, src);
    backward := NewSearch(1, dst);
    InitialReachable(g, src, dst);
    x, stopped := Drive(g, forward, backward, src, dst, Initial(src, dst));
  }

  /** A search that may write its leg: it is in the state `side` and has met the other one at `via`. */
  ghost predicate Ready(g: Graph, s: RoutechSearch, start: ItemId, side: Side, via: ItemId)
    reads s`hash, s`relaxed, s`upper, s`via, s.pq, s.pq.elements, s.pq.heapElements
  {
    && s.Valid() && s.Model() == side.search && s.via == Some(via)
    && Inv(g, s.dir, start, side.search, side.last) && via in side.search.hash
  }

  /** What the driver stops with: no meeting node and no bound, or two searches ready to write their legs. */
  lemma BothReady(g: Graph, src: ItemId, dst: ItemId, forward: RoutechSearch, backward: RoutechSearch, x: Bidi)
    requires PositiveWeights(g) && Driving(g, src, dst, forward, backward, x)
    ensures forward.upper == x.upper && Reachable(g, src, dst, x)
    ensures forward.upper <= UINT_MAX && (forward.via == None <==> forward.upper == UINT_MAX)
    ensures forward.via.Some? ==> forward.dir == 0 && Ready(g, forward, src, x.forward, forward.via.value)
    ensures forward.via.Some? ==> backward.dir == 1 && Ready(g, backward, dst, x.backward, forward.via.value)
    ensures forward.via.Some? ==>
      forward.upper == KeyOf(x.forward.search, forward.via.value) + KeyOf(x.backward.search, forward.via.value)
  {
    ReachableInv(g, src, dst, x);
  }

  /** The key a search knows a node by. */
  ghost function KeyOf(s: Search, id: ItemId): int
    requires Indexed(s) && id in s.hash
  {
    s.nodes[s.hash[id]].key
  }

  /** One call of `routech_find_path` that writes to the route file. */
  method WriteLeg(g: Graph, ghost level: ItemId -> nat, s: RoutechSearch, ghost start: ItemId, ghost side: Side,
                  ghost via: ItemId, routeFile: seq<Segment>)
    returns (out: seq<Segment>, ghost leg: seq<Segment>)
    requires WellFormed(g, level) && Ready(g, s, start, side, via)
    ensures out == routeFile + leg && RouteLength(g, leg) == KeyOf(side.search, via)
    ensures if s.dir == 0 then Route(g, leg, start, via) else Route(g, leg, via, start)
  {
    out, leg := FindPath(g, level, s, start, side.last, routeFile);
  }

  /** The two calls of `routech_find_path` that write the route file. */
  method WriteRoute(g: Graph, ghost level: ItemId -> nat, forward: RoutechSearch, backward: RoutechSearch,
                    ghost src: ItemId, ghost dst: ItemId, ghost x: Bidi, ghost via: ItemId)
    returns (routeFile: seq<Segment>)
    requires WellFormed(g, level) && forward.dir == 0 && backward.dir == 1
    requires Ready(g, forward, src, x.forward, via) && Ready(g, backward, dst, x.backward, via)
    ensures Route(g, routeFile, src, dst)
    ensures RouteLength(g, routeFile) == KeyOf(x.forward.search, via) + KeyOf(x.backward.search, via)
  {
    ghost var there, back;
    routeFile, there := WriteLeg(g, level, forward, src, x.forward, via, []);
    assert routeFile == there;
    routeFile, back := WriteLeg(g, level, backward, dst, x.backward, via, routeFile);
    RouteConcat(g, there, back, src, via, dst);
  }

  /** Two walks to one node that make a shortest road together, which the searches do not hide from each other. */
  ghost predicate ShortestInSight(g: Graph, src: ItemId, dst: ItemId, x: Bidi, there: Walk, back: Walk) {
    && ShortestPair(g, src, dst, there, back) && Length(there) + Length(back) < UINT_MAX
    && !Hidden(x.forward.search, End(there)) && !Hidden(x.backward.search, End(back))
  }

  /** On a map with fewer nodes than the driver has steps for, the bound it stops with is that of a shortest road. */
  lemma StopsShortest(g: Graph, src: ItemId, dst: ItemId, x: Bidi)
    requires PositiveWeights(g) && Reachable(g, src, dst, x) && (BothFinished(x) || Popped(x) >= MAX_STEPS)
    requires 2 * |Vertices(g, src, dst)| < MAX_STEPS
    ensures forall there: Walk, back: Walk :: ShortestInSight(g, src, dst, x, there, back) ==>
      x.upper == Length(there) + Length(back)
  {
    PoppedIsBounded(g, src, dst, x);
    forall there: Walk, back: Walk | ShortestInSight(g, src, dst, x, there, back)
      ensures x.upper == Length(there) + Length(back)
    {
      BoundIsShortest(g, src, dst, x, there, back);
    }
  }

  /** The run of `routech_test`; `x` is the state the searches stop in. */
  method SearchAndWrite(g: Graph, ghost level: ItemId -> nat, src: ItemId, dst: ItemId)
    returns (upper: int, routeFile: seq<Segment>, ghost x: Bidi)
    requires WellFormed(g, level)
    ensures upper <= UINT_MAX
    ensures upper < UINT_MAX ==> Route(g, routeFile, src, dst) && RouteLength(g, routeFile) == upper
    ensures upper == UINT_MAX ==> routeFile == []
    ensures Reachable(g, src, dst, x) && x.upper == upper && (BothFinished(x) || Popped(x) >= MAX_STEPS)
  {
    var forward, backward;
    ghost var stopped;
    forward, backward, x, stopped := Search(g, src, dst);
    BothReady(g, src, dst, forward, backward, x);
    upper, routeFile := forward.upper, [];
    if forward.via == None {
      return;
    }
    routeFile := WriteRoute(g, level, forward, backward, src, dst, x, forward.via.value);
  }

  /**
   `routech_test`: whatever the two searches met at is written out as a drivable route as long as the bound. On a
   map with fewer nodes than the driver has steps for, that is as long as any shortest road in sight.
   */
  method RoutechTest(g: Graph, ghost level: ItemId -> nat, src: ItemId, dst: ItemId)
    returns (upper: int, routeFile: seq<Segment>, ghost x: Bidi)
    requires WellFormed(g, level)
    ensures upper <= UINT_MAX
    ensures upper < UINT_MAX ==> Route(g, routeFile, src, dst) && RouteLength(g, routeFile) == upper
    ensures upper == UINT_MAX ==> routeFile == []
    ensures Reachable(g, src, dst, x)
    ensures 2 * |Vertices(g, src, dst)| < MAX_STEPS ==>
      forall there: Walk, back: Walk :: ShortestInSight(g, src, dst, x, there, back) ==>
        upper == Length(there) + Length(back)
  {
    upper, routeFile, x := SearchAndWrite(g, level, src, dst);
    if 2 * |Vertices(g, src, dst)| < MAX_STEPS {
      StopsShortest(g, src, dst, x);
    }
  }
}
