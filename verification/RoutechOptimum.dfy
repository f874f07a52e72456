/**
 When the bound of the two searches of routech.c is the length of a shortest route: what was popped
 on both sides has been compared with the bound, and stalling leaves no node of a shortest route out.
 */
module SearchOptimum {
  import opened Basics
  import opened IndexedHeap
  import opened Hierarchy
  import opened SearchModel
  import opened SearchInvariant
  import opened SearchRuns

  /** Each popped node was relaxed, or is marked as stalled for good. */
  ghost predicate StalledOrRelaxed(s: Search) {
    forall h :: h in s.nodes && h !in s.live ==> s.nodes[h].id in s.relaxed || s.nodes[h].stalled != 0
  }

  /** The same but for the node that is being relaxed. */
  ghost predicate StalledOrRelaxedBut(s: Search, id: ItemId) {
    forall h :: h in s.nodes && h !in s.live ==>
      s.nodes[h].id == id || s.nodes[h].id in s.relaxed || s.nodes[h].stalled != 0
  }

  /** Stalling a node marks it, and takes no mark off another one. */
  lemma StallMarks(g: Graph, dir: nat, s: Search, id: ItemId, key: int, t: Search)
    requires dir <= 1 && Indexed(s) && PositiveWeights(g) && id in s.hash && key > 0 && t == Stall(g, dir, s, id, key)
    requires StalledOrRelaxedBut(s, id)
    ensures StalledOrRelaxed(t) && t.deleted == s.deleted
  {
    var m := SetStalled(s, s.hash[id], key);
    StallLoopMarks(g, dir, m, [StallItem(id, key)]);
    forall h | h in t.nodes && h !in t.live ensures t.nodes[h].id in t.relaxed || t.nodes[h].stalled != 0 {
      if t.nodes[h].stalled == 0 {
        assert h in Unstalled(t);
        assert h in Unstalled(m);
      }
    }
  }

  lemma {:induction false} StallLoopMarks(g: Graph, dir: nat, s: Search, list: seq<StallItem>)
    requires dir <= 1 && PositiveWeights(g) && PositiveItems(list)
    ensures Unstalled(StallLoop(g, dir, s, list)) <= Unstalled(s)
    decreases Unstalled(s), |list|
  {
    if list != [] {
      var r := StallEdges(dir, s, Out(g, list[0].id), list[0].key);
      StallEdgesShrinks(dir, s, Out(g, list[0].id), list[0].key);
      StallLoopMarks(g, dir, r.search, AfterTurn(list, r.items));
    }
  }

  lemma {:induction false} RelaxFromMarks(g: Graph, dir: nat, start: ItemId, s: Search, id: ItemId, val: int, k: nat,
                                          t: Search)
    requires dir <= 1 && PositiveWeights(g) && k <= |Out(g, id)| && Relaxing(g, dir, start, s, id, val, k)
    requires t == RelaxFrom(g, dir, s, id, val, k) && StalledOrRelaxedBut(s, id)
    ensures StalledOrRelaxed(t) && t.deleted == s.deleted
    decreases |Out(g, id)| - k
  {
    if k < |Out(g, id)| {
      var e := Out(g, id)[k];
      if EdgeValid(e, dir) && Beats(dir, s, e, val) {
        DetourPositive(dir, s, g, id, e);
        StallMarks(g, dir, s, id, Detour(s, e), t);
      } else {
        var m := RelaxEdge(dir, s, id, val, e);
        RelaxEdgeKeeps(g, dir, start, s, id, val, k, e, m);
        RelaxingSpares(g, dir, start, s, id, val, k, e);
        RelaxFromMarks(g, dir, start, m, id, val, k + 1, t);
      }
    }
  }

  /** Relaxing the cheapest node keeps the marks, and only that node may come to read as deleted. */
  lemma RelaxMarks(g: Graph, dir: nat, start: ItemId, s: Search, bound: int, e: nat, t: Search)
    requires dir <= 1 && Inv(g, dir, start, s, bound) && PositiveWeights(g) && NonNegative(s) && Minimal(s, e)
    requires t == Relax(g, dir, s, e) && StalledOrRelaxed(s)
    ensures StalledOrRelaxed(t) && t.deleted == Pop(s, e).deleted
  {
    var p := Pop(s, e);
    InvPop(g, dir, start, s, bound, e);
    if s.nodes[e].stalled == 0 {
      InvNonNegative(g, dir, start, p, s.nodes[e].key);
      RelaxFromMarks(g, dir, start, p, s.nodes[e].id, s.nodes[e].key, 0, t);
    }
  }

  // ----- what was popped on both sides has been compared with the bound

  /** Nodes that read as deleted in both searches. */
  ghost predicate Compared(a: Search, b: Search, upper: int)
    requires Indexed(a) && Indexed(b)
  {
    forall v :: v in a.hash && v in b.hash && a.hash[v] in a.deleted && b.hash[v] in b.deleted ==>
      upper <= a.nodes[a.hash[v]].key + b.nodes[b.hash[v]].key
  }

  lemma ComparedSwap(a: Search, b: Search, upper: int)
    requires Indexed(a) && Indexed(b) && Compared(a, b, upper)
    ensures Compared(b, a, upper)
  {
  }

  /** The node popped last is compared where it is met, and the others were before. */
  lemma ComparedKeeps(a: Search, a': Search, b: Search, e: nat, m: Meeting, n: Meeting)
    requires Indexed(a) && Indexed(a') && Indexed(b) && Compared(a, b, m.upper) && Evolves(a, a')
    requires e in a.live && a'.deleted <= a.deleted + {e} && a'.nodes[e].key == a.nodes[e].key
    requires n == Meet(m, a.nodes[e].id, a.nodes[e].key, b)
    ensures Compared(a', b, n.upper)
  {
    forall v | v in a'.hash && v in b.hash && a'.hash[v] in a'.deleted && b.hash[v] in b.deleted
      ensures n.upper <= a'.nodes[a'.hash[v]].key + b.nodes[b.hash[v]].key
    {
      var h := a'.hash[v];
      assert h in a.nodes && a.hash[a.nodes[h].id] == h && a'.nodes[h].id == v;
    }
  }

  ghost predicate Tracked(x: Bidi) {
    && Indexed(x.forward.search) && Indexed(x.backward.search)
    && StalledOrRelaxed(x.forward.search) && StalledOrRelaxed(x.backward.search)
    && Compared(x.forward.search, x.backward.search, x.upper)
  }

  lemma ForwardTracks(g: Graph, src: ItemId, dst: ItemId, x: Bidi, y: Bidi, e: nat)
    requires BidiInv(g, src, dst, x) && Tracked(x) && ForwardStep(g, x, y, e)
    ensures Tracked(y)
  {
    var s, t := x.forward.search, y.forward.search;
    RelaxKeeps(g, 0, src, s, x.forward.last, e, t);
    RelaxMarks(g, 0, src, s, x.forward.last, e, t);
    ComparedKeeps(s, t, x.backward.search, e, Meeting(x.upper, x.via), Meeting(y.upper, y.via));
  }

  lemma BackwardTracks(g: Graph, src: ItemId, dst: ItemId, x: Bidi, y: Bidi, e: nat)
    requires BidiInv(g, src, dst, x) && Tracked(x) && BackwardStep(g, x, y, e)
    ensures Tracked(y)
  {
    var s, t, other := x.backward.search, y.backward.search, x.forward.search;
    RelaxKeeps(g, 1, dst, s, x.backward.last, e, t);
    RelaxMarks(g, 1, dst, s, x.backward.last, e, t);
    ComparedSwap(other, s, x.upper);
    ComparedKeeps(s, t, other, e, Meeting(x.upper, x.via), Meeting(y.upper, y.via));
    ComparedSwap(t, other, y.upper);
  }

  lemma {:induction false} RunTracks(g: Graph, src: ItemId, dst: ItemId, run: seq<Bidi>, i: nat)
    requires Run(g, src, dst, run) && i < |run|
    ensures Tracked(run[i])
  {
    if i > 0 {
      RunTracks(g, src, dst, run, i - 1);
      RunKeeps(g, src, dst, run, i - 1);
      var x, y := run[i - 1], run[i];
      var e: nat :| ForwardStep(g, x, y, e) || BackwardStep(g, x, y, e);
      if ForwardStep(g, x, y, e) {
        ForwardTracks(g, src, dst, x, y, e);
      } else {
        BackwardTracks(g, src, dst, x, y, e);
      }
    }
  }

  lemma ReachableTracks(g: Graph, src: ItemId, dst: ItemId, x: Bidi)
    requires Reachable(g, src, dst, x)
    ensures Tracked(x)
  {
    var run :| Run(g, src, dst, run) && run[|run| - 1] == x;
    RunTracks(g, src, dst, run, |run| - 1);
  }

  // ----- what a finished search knows of shortest routes

  /** No road leads to the end of the walk in less. */
  ghost predicate Shortest(g: Graph, dir: nat, start: ItemId, w: Walk)
    requires dir <= 1
  {
    forall r: Walk :: RoadWalk(g, dir, start, r) && End(r) == End(w) ==> Length(w) <= Length(r)
  }

  lemma ShortestPrefix(g: Graph, dir: nat, start: ItemId, w: Walk)
    requires dir <= 1 && SearchWalk(g, dir, start, w) && Shortest(g, dir, start, w) && w.Hop?
    ensures Shortest(g, dir, start, w.prev)
  {
    forall r: Walk | RoadWalk(g, dir, start, r) && End(r) == End(w.prev) ensures Length(w.prev) <= Length(r) {
      assert RoadWalk(g, dir, start, Hop(r, w.to, w.weight));
    }
  }

  /** Nothing that is still queued can improve the bound. */
  ghost predicate Finished(s: Search, upper: int) {
    forall h :: h in s.live && h in s.nodes ==> s.nodes[h].key > upper
  }

  /** No popped node was stalled, or the walk is one no road beats, so that none of its nodes was. */
  ghost predicate Followed(g: Graph, dir: nat, start: ItemId, s: Search, w: Walk)
    requires dir <= 1
  {
    SearchWalk(g, dir, start, w) && (NothingStalled(s) || Shortest(g, dir, start, w))
  }

  /** The walk is longer than the bound, or its end was popped with a key no longer than the walk. */
  lemma {:induction false} WalkIsPopped(g: Graph, dir: nat, start: ItemId, s: Search, bound: int, upper: int, w: Walk)
    requires dir <= 1 && Inv(g, dir, start, s, bound) && PositiveWeights(g) && StalledOrRelaxed(s)
    requires upper >= 0 && Finished(s, upper) && Followed(g, dir, start, s, w)
    ensures Length(w) > upper
      || (End(w) in s.hash && s.hash[End(w)] !in s.live && s.nodes[s.hash[End(w)]].key <= Length(w))
  {
    if w.Hop? {
      if !NothingStalled(s) {
        ShortestPrefix(g, dir, start, w);
      }
      WalkIsPopped(g, dir, start, s, bound, upper, w.prev);
      var u := End(w.prev);
      var k :| 0 <= k < |Out(g, u)| && Out(g, u)[k].target == w.to && Out(g, u)[k].weight == w.weight
        && EdgeValid(Out(g, u)[k], dir);
      assert Out(g, u)[k] in g[u];
      if Length(w.prev) <= upper {
        EndIsRelaxed(g, dir, start, s, bound, w.prev);
        assert Closed(g, dir, s, u);
      }
    }
  }

  /** A stalled node is one a shorter road leads to. */
  lemma StalledIsBeaten(g: Graph, dir: nat, start: ItemId, s: Search, bound: int, h: nat)
    requires dir <= 1 && Inv(g, dir, start, s, bound) && h in s.nodes
    ensures s.nodes[h].stalled != 0 ==>
      s.nodes[h].stalled < s.nodes[h].key && HasRoadWalk(g, dir, start, s.nodes[h].id, s.nodes[h].stalled)
  {
    assert StallOk(g, dir, start, s.nodes[h]);
  }

  lemma EndIsRelaxed(g: Graph, dir: nat, start: ItemId, s: Search, bound: int, w: Walk)
    requires dir <= 1 && Inv(g, dir, start, s, bound) && StalledOrRelaxed(s) && Followed(g, dir, start, s, w)
    requires End(w) in s.hash && s.hash[End(w)] !in s.live && s.nodes[s.hash[End(w)]].key <= Length(w)
    ensures End(w) in s.relaxed
  {
    StalledIsBeaten(g, dir, start, s, bound, s.hash[End(w)]);
  }

  lemma {:induction false} WalkIsLong(g: Graph, dir: nat, start: ItemId, w: Walk)
    requires dir <= 1 && PositiveWeights(g) && SearchWalk(g, dir, start, w)
    ensures Length(w) >= 0
  {
    if w.Hop? {
      WalkIsLong(g, dir, start, w.prev);
      var k :| 0 <= k < |Out(g, End(w.prev))| && Out(g, End(w.prev))[k].weight == w.weight;
      assert Out(g, End(w.prev))[k] in g[End(w.prev)];
    }
  }

  // ----- the bound

  /** The node was popped but does not read as deleted: popping it emptied the queue. */
  ghost predicate Hidden(s: Search, v: ItemId) {
    v in s.hash && s.hash[v] !in s.live && s.hash[v] !in s.deleted
  }

  /** Both searches have come to their ends. */
  ghost predicate BothFinished(x: Bidi) {
    Finished(x.forward.search, x.upper) && Finished(x.backward.search, x.upper)
  }

  lemma BoundIsPositive(g: Graph, src: ItemId, dst: ItemId, x: Bidi)
    requires BidiInv(g, src, dst, x)
    ensures x.upper >= 0
  {
  }

  /**
   Two walks to one node that finished searches do not hide, each one followed by its search, are together no
   shorter than the bound, whether popped nodes were stalled or not.
   */
  lemma BoundIsLeast(g: Graph, src: ItemId, dst: ItemId, x: Bidi, there: Walk, back: Walk)
    requires Reachable(g, src, dst, x) && PositiveWeights(g) && BothFinished(x)
    requires Followed(g, 0, src, x.forward.search, there) && Followed(g, 1, dst, x.backward.search, back)
    requires End(there) == End(back) && !Hidden(x.forward.search, End(there)) && !Hidden(x.backward.search, End(back))
    ensures x.upper <= Length(there) + Length(back)
  {
    ReachableInv(g, src, dst, x);
    ReachableTracks(g, src, dst, x);
    BoundIsPositive(g, src, dst, x);
    WalkIsPopped(g, 0, src, x.forward.search, x.forward.last, x.upper, there);
    WalkIsPopped(g, 1, dst, x.backward.search, x.backward.last, x.upper, back);
    WalkIsLong(g, 0, src, there);
    WalkIsLong(g, 1, dst, back);
  }

  // ----- shortest routes

  /** A walk from the source and one from the destination that meet make a road from the source to the destination. */
  lemma {:induction false} JoinWalks(g: Graph, src: ItemId, dst: ItemId, there: Walk, back: Walk) returns (r: Walk)
    requires RoadWalk(g, 0, src, there) && RoadWalk(g, 1, dst, back) && End(there) == End(back)
    ensures RoadWalk(g, 0, src, r) && End(r) == dst && Length(r) == Length(there) + Length(back)
    decreases back
  {
    if back.Here? {
      r := there;
    } else {
      r := JoinWalks(g, src, dst, Hop(there, End(back.prev), back.weight), back.prev);
    }
  }

  /** No road from the source to the destination is shorter than the two walks together. */
  ghost predicate ShortestPair(g: Graph, src: ItemId, dst: ItemId, there: Walk, back: Walk) {
    && SearchWalk(g, 0, src, there) && SearchWalk(g, 1, dst, back) && End(there) == End(back)
    && forall r: Walk :: RoadWalk(g, 0, src, r) && End(r) == dst ==> Length(there) + Length(back) <= Length(r)
  }

  lemma PairIsShortest(g: Graph, src: ItemId, dst: ItemId, there: Walk, back: Walk)
    requires ShortestPair(g, src, dst, there, back)
    ensures Shortest(g, 0, src, there) && Shortest(g, 1, dst, back)
  {
    SearchWalkIsRoadWalk(g, 0, src, there);
    SearchWalkIsRoadWalk(g, 1, dst, back);
    forall r: Walk | RoadWalk(g, 0, src, r) && End(r) == End(there) ensures Length(there) <= Length(r) {
      var all := JoinWalks(g, src, dst, r, back);
    }
    forall r: Walk | RoadWalk(g, 1, dst, r) && End(r) == End(back) ensures Length(back) <= Length(r) {
      var all := JoinWalks(g, src, dst, there, r);
    }
  }

  /** The bound is never shorter than a shortest road. */
  lemma BoundIsNoLess(g: Graph, src: ItemId, dst: ItemId, x: Bidi, there: Walk, back: Walk)
    requires BidiInv(g, src, dst, x) && ShortestPair(g, src, dst, there, back)
    ensures x.upper >= Length(there) + Length(back) || (x.via.None? && x.upper == UINT_MAX)
  {
    if x.via.Some? {
      var a, b := x.forward.search, x.backward.search;
      var h, k := a.hash[x.via.value], b.hash[x.via.value];
      KnownKeyIsRoad(g, 0, src, a, x.forward.last, h);
      KnownKeyIsRoad(g, 1, dst, b, x.backward.last, k);
      var p: Walk :| RoadWalk(g, 0, src, p) && End(p) == x.via.value && Length(p) == a.nodes[h].key;
      var q: Walk :| RoadWalk(g, 1, dst, q) && End(q) == x.via.value && Length(q) == b.nodes[k].key;
      var all := JoinWalks(g, src, dst, p, q);
    }
  }

  /**
   What a hierarchy is for: if a shortest road between the two ends goes up from both of them to one node, and
   that node is not hidden, finished searches have a bound as long as that road, whatever they stalled.
   */
  lemma BoundIsShortest(g: Graph, src: ItemId, dst: ItemId, x: Bidi, there: Walk, back: Walk)
    requires Reachable(g, src, dst, x) && PositiveWeights(g) && BothFinished(x)
    requires ShortestPair(g, src, dst, there, back)
    requires !Hidden(x.forward.search, End(there)) && !Hidden(x.backward.search, End(back))
    requires Length(there) + Length(back) < UINT_MAX
    ensures x.upper == Length(there) + Length(back) && x.via.Some?
  {
    PairIsShortest(g, src, dst, there, back);
    BoundIsLeast(g, src, dst, x, there, back);
    ReachableInv(g, src, dst, x);
    BoundIsNoLess(g, src, dst, x, there, back);
  }

  lemma KnownKeyIsRoad(g: Graph, dir: nat, start: ItemId, s: Search, bound: int, h: nat)
    requires dir <= 1 && Inv(g, dir, start, s, bound) && h in s.nodes
    ensures HasRoadWalk(g, dir, start, s.nodes[h].id, s.nodes[h].key)
  {
    KeyIsWalk(g, dir, start, s, bound, h);
    HasSearchWalkIsRoad(g, dir, start, s.nodes[h].id, s.nodes[h].key);
  }

  // ----- exactly when the shortest road is found

  /** The node reads as deleted. */
  ghost predicate Marked(s: Search, v: ItemId) {
    v in s.hash && s.hash[v] in s.deleted
  }

  ghost predicate ForwardMeets(g: Graph, x: Bidi, y: Bidi, e: nat, v: ItemId) {
    ForwardStep(g, x, y, e) && x.forward.search.nodes[e].id == v && Marked(x.backward.search, v)
  }

  ghost predicate BackwardMeets(g: Graph, x: Bidi, y: Bidi, e: nat, v: ItemId) {
    BackwardStep(g, x, y, e) && x.backward.search.nodes[e].id == v && Marked(x.forward.search, v)
  }

  /** One search pops the node where it reads as deleted in the other one. */
  ghost predicate MeetsAt(g: Graph, x: Bidi, y: Bidi, v: ItemId) {
    exists e: nat :: ForwardMeets(g, x, y, e, v) || BackwardMeets(g, x, y, e, v)
  }

  ghost predicate BoundedBy(x: Bidi, v: ItemId) {
    var a, b := x.forward.search, x.backward.search;
    && v in a.hash && a.hash[v] in a.nodes && a.hash[v] !in a.live
    && v in b.hash && b.hash[v] in b.nodes && b.hash[v] !in b.live
    && x.upper <= a.nodes[a.hash[v]].key + b.nodes[b.hash[v]].key
  }

  lemma MeetingBounds(g: Graph, src: ItemId, dst: ItemId, x: Bidi, y: Bidi, v: ItemId)
    requires BidiInv(g, src, dst, x) && MeetsAt(g, x, y, v)
    ensures BoundedBy(y, v)
  {
    var e: nat :| ForwardMeets(g, x, y, e, v) || BackwardMeets(g, x, y, e, v);
    if ForwardMeets(g, x, y, e, v) {
      RelaxKeeps(g, 0, src, x.forward.search, x.forward.last, e, y.forward.search);
    } else {
      RelaxKeeps(g, 1, dst, x.backward.search, x.backward.last, e, y.backward.search);
    }
  }

  lemma BoundedStays(x: Bidi, y: Bidi, v: ItemId)
    requires BoundedBy(x, v) && BidiEvolves(x, y)
    ensures BoundedBy(y, v)
  {
  }

  /** The meeting node is one where the searches met. */
  lemma {:induction false} ViaWasMet(g: Graph, src: ItemId, dst: ItemId, run: seq<Bidi>, i: nat)
    requires Run(g, src, dst, run) && i < |run| && run[i].via.Some?
    ensures exists j {:trigger run[j]} :: 0 <= j < i && MeetsAt(g, run[j], run[j + 1], run[i].via.value)
  {
    var x, y := run[i - 1], run[i];
    assert Step(g, x, y);
    if x.via == y.via {
      ViaWasMet(g, src, dst, run, i - 1);
    } else {
      var e: nat :| ForwardStep(g, x, y, e) || BackwardStep(g, x, y, e);
      assert ForwardMeets(g, x, y, e, y.via.value) || BackwardMeets(g, x, y, e, y.via.value);
      assert MeetsAt(g, run[i - 1], run[i - 1 + 1], y.via.value);
    }
  }

  lemma PairsAgree(g: Graph, src: ItemId, dst: ItemId, there: Walk, back: Walk, p: Walk, q: Walk)
    requires ShortestPair(g, src, dst, there, back) && ShortestPair(g, src, dst, p, q)
    ensures Length(p) + Length(q) <= Length(there) + Length(back)
  {
    SearchWalkIsRoadWalk(g, 0, src, there);
    SearchWalkIsRoadWalk(g, 1, dst, back);
    var r := JoinWalks(g, src, dst, there, back);
  }

  /** The searches of the run met at the top of a shortest road. */
  ghost predicate MetAtTop(g: Graph, src: ItemId, dst: ItemId, run: seq<Bidi>) {
    exists j: nat, p: Walk, q: Walk :: j + 1 < |run| && MetAt(g, src, dst, run, j, p, q)
  }

  ghost predicate MetAt(g: Graph, src: ItemId, dst: ItemId, run: seq<Bidi>, j: nat, p: Walk, q: Walk)
    requires j + 1 < |run|
  {
    ShortestPair(g, src, dst, p, q) && MeetsAt(g, run[j], run[j + 1], End(p))
  }

  /** A meeting bounds the rest of the run. */
  lemma MeetingStays(g: Graph, src: ItemId, dst: ItemId, run: seq<Bidi>, j: nat, v: ItemId)
    requires Run(g, src, dst, run) && j + 1 < |run| && MeetsAt(g, run[j], run[j + 1], v)
    ensures BoundedBy(run[|run| - 1], v)
  {
    RunKeeps(g, src, dst, run, j);
    MeetingBounds(g, src, dst, run[j], run[j + 1], v);
    RunEvolves(g, src, dst, run, j + 1, |run| - 1);
    BoundedStays(run[j + 1], run[|run| - 1], v);
  }

  lemma MeetingIsShortest(g: Graph, src: ItemId, dst: ItemId, run: seq<Bidi>, j: nat, p: Walk, q: Walk)
    requires Run(g, src, dst, run) && PositiveWeights(g) && BothFinished(run[|run| - 1])
    requires j + 1 < |run| && MetAt(g, src, dst, run, j, p, q) && Length(p) + Length(q) < UINT_MAX
    ensures run[|run| - 1].upper == Length(p) + Length(q)
  {
    MeetingStays(g, src, dst, run, j, End(p));
    RunKeeps(g, src, dst, run, |run| - 1);
    RunTracks(g, src, dst, run, |run| - 1);
    KeysAreShort(g, src, dst, run[|run| - 1], p, q);
    BoundIsNoLess(g, src, dst, run[|run| - 1], p, q);
  }

  /** At the end of a shortest road both keys are those of the road, unless the bound is shorter. */
  lemma KeysAreShort(g: Graph, src: ItemId, dst: ItemId, x: Bidi, p: Walk, q: Walk)
    requires BidiInv(g, src, dst, x) && Tracked(x) && PositiveWeights(g) && BothFinished(x)
    requires ShortestPair(g, src, dst, p, q) && BoundedBy(x, End(p))
    ensures x.upper <= Length(p) + Length(q)
  {
    PairIsShortest(g, src, dst, p, q);
    BoundIsPositive(g, src, dst, x);
    WalkIsPopped(g, 0, src, x.forward.search, x.forward.last, x.upper, p);
    WalkIsPopped(g, 1, dst, x.backward.search, x.backward.last, x.upper, q);
    WalkIsLong(g, 0, src, p);
    WalkIsLong(g, 1, dst, q);
  }

  lemma ShortestWasMet(g: Graph, src: ItemId, dst: ItemId, run: seq<Bidi>, there: Walk, back: Walk)
    requires Run(g, src, dst, run) && ShortestPair(g, src, dst, there, back)
    requires run[|run| - 1].upper == Length(there) + Length(back) < UINT_MAX
    ensures MetAtTop(g, src, dst, run)
  {
    var x := run[|run| - 1];
    RunKeeps(g, src, dst, run, |run| - 1);
    ViaWasMet(g, src, dst, run, |run| - 1);
    var a, b, v := x.forward.search, x.backward.search, x.via.value;
    KeyIsWalk(g, 0, src, a, x.forward.last, a.hash[v]);
    KeyIsWalk(g, 1, dst, b, x.backward.last, b.hash[v]);
    var p: Walk :| SearchWalk(g, 0, src, p) && End(p) == v && Length(p) == a.nodes[a.hash[v]].key;
    var q: Walk :| SearchWalk(g, 1, dst, q) && End(q) == v && Length(q) == b.nodes[b.hash[v]].key;
    var j: nat :| j < |run| - 1 && MeetsAt(g, run[j], run[j + 1], v);
    assert MetAt(g, src, dst, run, j, p, q);
  }

  /**
   Exactly when finished searches have found a shortest road, one that goes up from both ends to one node: when
   at some step of the run one of them popped the top of such a road where it reads as deleted in the other one.
   */
  lemma ShortestIsFound(g: Graph, src: ItemId, dst: ItemId, run: seq<Bidi>, there: Walk, back: Walk)
    requires Run(g, src, dst, run) && PositiveWeights(g) && BothFinished(run[|run| - 1])
    requires ShortestPair(g, src, dst, there, back) && Length(there) + Length(back) < UINT_MAX
    ensures run[|run| - 1].upper == Length(there) + Length(back) <==> MetAtTop(g, src, dst, run)
  {
    if run[|run| - 1].upper == Length(there) + Length(back) {
      ShortestWasMet(g, src, dst, run, there, back);
    }
    if MetAtTop(g, src, dst, run) {
      var j: nat, p: Walk, q: Walk :| j + 1 < |run| && MetAt(g, src, dst, run, j, p, q);
      PairsAgree(g, src, dst, there, back, p, q);
      PairsAgree(g, src, dst, p, q, there, back);
      MeetingIsShortest(g, src, dst, run, j, p, q);
    }
  }

  // ----- how many steps there can be

  /** The nodes the searches can come to. */
  ghost function Vertices(g: Graph, src: ItemId, dst: ItemId): set<ItemId> {
    {src, dst} + set u, e | u in g && e in g[u] :: e.target
  }

  ghost function PoppedIn(s: Search): set<nat> {
    s.nodes.Keys - s.live
  }

  /** How many nodes both searches have popped. */
  ghost function Popped(x: Bidi): nat {
    |PoppedIn(x.forward.search)| + |PoppedIn(x.backward.search)|
  }

  lemma {:induction false} HandlesCounted(s: Search, hs: set<nat>, ids: set<ItemId>)
    requires Indexed(s) && hs <= s.nodes.Keys && forall h :: h in hs ==> s.nodes[h].id in ids
    ensures |hs| <= |ids|
    decreases hs
  {
    if hs != {} {
      var h :| h in hs;
      HandlesCounted(s, hs - {h}, ids - {s.nodes[h].id});
    }
  }

  lemma SearchCounted(g: Graph, dir: nat, start: ItemId, s: Search, bound: int, ids: set<ItemId>)
    requires dir <= 1 && Inv(g, dir, start, s, bound) && start in ids
    requires forall u, e :: u in g && e in g[u] ==> e.target in ids
    ensures |PoppedIn(s)| <= |ids|
  {
    forall h | h in PoppedIn(s) ensures s.nodes[h].id in ids {
      if s.nodes[h].id != start {
        assert ParentOk(g, dir, s, h);
        var u := s.nodes[h].parent.value;
        var k :| 0 <= k < |Out(g, u)| && Out(g, u)[k].target == s.nodes[h].id;
        assert Out(g, u)[k] in g[u];
      }
    }
    HandlesCounted(s, PoppedIn(s), ids);
  }

  /** Each node is popped once by each search. */
  lemma PoppedIsBounded(g: Graph, src: ItemId, dst: ItemId, x: Bidi)
    requires Reachable(g, src, dst, x)
    ensures Popped(x) <= 2 * |Vertices(g, src, dst)|
  {
    ReachableInv(g, src, dst, x);
    SearchCounted(g, 0, src, x.forward.search, x.forward.last, Vertices(g, src, dst));
    SearchCounted(g, 1, dst, x.backward.search, x.backward.last, Vertices(g, src, dst));
  }

  lemma PoppedGrows(s: Search, t: Search, e: nat)
    requires Indexed(s) && Indexed(t) && Evolves(s, t) && e in s.live && e !in t.live && e in t.nodes
    ensures |PoppedIn(t)| > |PoppedIn(s)|
  {
    SmallerSet(PoppedIn(s), PoppedIn(t) - {e});
  }

  lemma {:induction false} SmallerSet(a: set<nat>, b: set<nat>)
    requires a <= b
    ensures |a| <= |b|
    decreases a
  {
    if a != {} {
      var x :| x in a;
      SmallerSet(a - {x}, b - {x});
    }
  }

  lemma ForwardAdvances(g: Graph, src: ItemId, dst: ItemId, x: Bidi, y: Bidi, e: nat)
    requires Reachable(g, src, dst, x) && ForwardStep(g, x, y, e)
    ensures Reachable(g, src, dst, y) && y.upper <= x.upper && Popped(y) > Popped(x)
  {
    StepReachable(g, src, dst, x, y);
    ReachableInv(g, src, dst, x);
    RelaxKeeps(g, 0, src, x.forward.search, x.forward.last, e, y.forward.search);
    PoppedGrows(x.forward.search, y.forward.search, e);
  }

  lemma BackwardAdvances(g: Graph, src: ItemId, dst: ItemId, x: Bidi, y: Bidi, e: nat)
    requires Reachable(g, src, dst, x) && BackwardStep(g, x, y, e)
    ensures Reachable(g, src, dst, y) && y.upper <= x.upper && Popped(y) > Popped(x)
  {
    StepReachable(g, src, dst, x, y);
    ReachableInv(g, src, dst, x);
    RelaxKeeps(g, 1, dst, x.backward.search, x.backward.last, e, y.backward.search);
    PoppedGrows(x.backward.search, y.backward.search, e);
  }

  // ----- hidden nodes

  /** A start is the only queued node until it is popped. */
  ghost predicate StartAlone(s: Search, start: ItemId)
    requires Indexed(s)
  {
    start in s.hash && s.hash[start] !in s.deleted && (s.hash[start] in s.live ==> s.live == {s.hash[start]})
  }

  lemma StartStaysAlone(g: Graph, dir: nat, start: ItemId, s: Search, bound: int, e: nat, t: Search)
    requires dir <= 1 && Inv(g, dir, start, s, bound) && PositiveWeights(g) && NonNegative(s) && Minimal(s, e)
    requires t == Relax(g, dir, s, e) && StalledOrRelaxed(s) && StartAlone(s, start)
    ensures Indexed(t) && StartAlone(t, start)
  {
    RelaxKeeps(g, dir, start, s, bound, e, t);
    RelaxMarks(g, dir, start, s, bound, e, t);
  }

  ghost predicate StartsAlone(src: ItemId, dst: ItemId, x: Bidi)
    requires Indexed(x.forward.search) && Indexed(x.backward.search)
  {
    StartAlone(x.forward.search, src) && StartAlone(x.backward.search, dst)
  }

  lemma StepStartsAlone(g: Graph, src: ItemId, dst: ItemId, x: Bidi, y: Bidi)
    requires BidiInv(g, src, dst, x) && Tracked(x) && StartsAlone(src, dst, x) && Step(g, x, y)
    ensures BidiInv(g, src, dst, y) && StartsAlone(src, dst, y)
  {
    StepKeeps(g, src, dst, x, y);
    var e: nat :| ForwardStep(g, x, y, e) || BackwardStep(g, x, y, e);
    if ForwardStep(g, x, y, e) {
      StartStaysAlone(g, 0, src, x.forward.search, x.forward.last, e, y.forward.search);
    } else {
      StartStaysAlone(g, 1, dst, x.backward.search, x.backward.last, e, y.backward.search);
    }
  }

  lemma {:induction false} RunStartsAlone(g: Graph, src: ItemId, dst: ItemId, run: seq<Bidi>, i: nat)
    requires Run(g, src, dst, run) && i < |run|
    ensures BidiInv(g, src, dst, run[i]) && StartsAlone(src, dst, run[i])
  {
    RunKeeps(g, src, dst, run, i);
    if i > 0 {
      RunStartsAlone(g, src, dst, run, i - 1);
      RunTracks(g, src, dst, run, i - 1);
      StepStartsAlone(g, src, dst, run[i - 1], run[i]);
    }
  }

  /** Each search hides its start from the other one, as popping it always empties the queue. */
  lemma StartIsHidden(g: Graph, src: ItemId, dst: ItemId, x: Bidi)
    requires Reachable(g, src, dst, x)
    ensures var s := x.forward.search; src in s.hash && (s.hash[src] !in s.live ==> Hidden(s, src))
    ensures var s := x.backward.search; dst in s.hash && (s.hash[dst] !in s.live ==> Hidden(s, dst))
  {
    var run :| Run(g, src, dst, run) && run[|run| - 1] == x;
    RunStartsAlone(g, src, dst, run, |run| - 1);
  }

  /** The map with one road, stored at its end `dst`, that may be driven from `src` to there. */
  function OneRoad(src: ItemId, dst: ItemId, weight: int): Graph {
    map[dst := [Edge(2, weight, src, src)]]
  }

  lemma {:induction false} OneRoadWalks(src: ItemId, dst: ItemId, weight: int, r: Walk)
    requires src != dst && weight > 0 && RoadWalk(OneRoad(src, dst, weight), 0, src, r)
    ensures Length(r) >= if End(r) == src then 0 else weight
  {
    if r.Hop? {
      OneRoadWalks(src, dst, weight, r.prev);
    }
  }

  /** One search after it has popped its start and offered nothing. */
  lemma PopAlone(g: Graph, dir: nat, start: ItemId)
    requires dir <= 1 && PositiveWeights(g) && Out(g, start) == []
    ensures var s := Offer(EMPTY, start, 0, None);
      Relax(g, dir, s, 1) == s.(live := {}, relaxed := {start})
  {
  }

  /** The backward search after it has popped its start and offered the one road. */
  function OfferedRoad(src: ItemId, dst: ItemId, weight: int): Search {
    var nodes := map[1 := Node(dst, None, 0, 0), 2 := Node(src, Some(dst), 0, weight)];
    Search(nodes, 3, {2}, {}, map[dst := 1, src := 2], {dst})
  }

  lemma PopAndOffer(src: ItemId, dst: ItemId, weight: int)
    requires src != dst && weight > 0
    ensures var s := Offer(EMPTY, dst, 0, None);
      NonNegative(s) && Relax(OneRoad(src, dst, weight), 1, s, 1) == OfferedRoad(src, dst, weight)
  {
    var g, s := OneRoad(src, dst, weight), Offer(EMPTY, dst, 0, None);
    var p := Pop(s, 1);
    var m := RelaxEdge(1, p, dst, 0, g[dst][0]);
    assert RelaxFrom(g, 1, p, dst, 0, 0) == RelaxFrom(g, 1, m, dst, 0, 1);
    assert m == OfferedRoad(src, dst, weight).(relaxed := {});
  }

  lemma PopLast(src: ItemId, dst: ItemId, weight: int)
    requires src != dst && weight > 0
    ensures var s := OfferedRoad(src, dst, weight);
      Indexed(s) && NonNegative(s) && Minimal(s, 2)
      && Relax(OneRoad(src, dst, weight), 1, s, 2) == s.(live := {}, relaxed := {dst, src})
  {
  }

  /** The three steps the driver takes on that map. */
  function OneRoadState(src: ItemId, dst: ItemId, weight: int, i: nat): Bidi {
    var x := Initial(src, dst);
    var popped := Side(x.forward.search.(live := {}, relaxed := {src}), 0);
    var offered := OfferedRoad(src, dst, weight);
    if i == 0 then x
    else if i == 1 then x.(backward := Side(offered, 0))
    else if i == 2 then x.(forward := popped, backward := Side(offered, 0))
    else x.(forward := popped, backward := Side(offered.(live := {}, relaxed := {dst, src}), weight))
  }

  lemma OneRoadFirst(src: ItemId, dst: ItemId, weight: int)
    requires src != dst && weight > 0
    ensures var g := OneRoad(src, dst, weight);
      BackwardStep(g, OneRoadState(src, dst, weight, 0), OneRoadState(src, dst, weight, 1), 1)
  {
    PopAndOffer(src, dst, weight);
  }

  lemma OneRoadSecond(src: ItemId, dst: ItemId, weight: int)
    requires src != dst && weight > 0
    ensures var g := OneRoad(src, dst, weight);
      ForwardStep(g, OneRoadState(src, dst, weight, 1), OneRoadState(src, dst, weight, 2), 1)
  {
    PopAlone(OneRoad(src, dst, weight), 0, src);
  }

  lemma OneRoadThird(src: ItemId, dst: ItemId, weight: int)
    requires src != dst && weight > 0
    ensures var g := OneRoad(src, dst, weight);
      BackwardStep(g, OneRoadState(src, dst, weight, 2), OneRoadState(src, dst, weight, 3), 2)
  {
    PopLast(src, dst, weight);
  }

  lemma OneRoadStep(src: ItemId, dst: ItemId, weight: int, i: nat)
    requires src != dst && weight > 0 && i < 3
    ensures Step(OneRoad(src, dst, weight), OneRoadState(src, dst, weight, i), OneRoadState(src, dst, weight, i + 1))
  {
    if i == 0 {
      OneRoadFirst(src, dst, weight);
    } else if i == 1 {
      OneRoadSecond(src, dst, weight);
    } else {
      OneRoadThird(src, dst, weight);
    }
  }

  lemma {:induction false} OneRoadReachable(src: ItemId, dst: ItemId, weight: int, i: nat)
    requires src != dst && weight > 0 && i <= 3
    ensures Reachable(OneRoad(src, dst, weight), src, dst, OneRoadState(src, dst, weight, i))
  {
    var g := OneRoad(src, dst, weight);
    if i == 0 {
      InitialReachable(g, src, dst);
    } else {
      OneRoadReachable(src, dst, weight, i - 1);
      OneRoadStep(src, dst, weight, i - 1);
      StepReachable(g, src, dst, OneRoadState(src, dst, weight, i - 1), OneRoadState(src, dst, weight, i));
    }
  }

  lemma OneRoadIsShortest(src: ItemId, dst: ItemId, weight: int)
    requires src != dst && weight > 0
    ensures ShortestPair(OneRoad(src, dst, weight), src, dst, Here(src), Hop(Here(dst), src, weight))
  {
    var g := OneRoad(src, dst, weight);
    assert Out(g, dst)[0].target == src;
    forall r: Walk | RoadWalk(g, 0, src, r) && End(r) == dst ensures weight <= Length(r) {
      OneRoadWalks(src, dst, weight, r);
    }
  }

  /**
   The exception: each search pops its own start alone, so the other one does not compare it, and a road that one
   of them follows all the way is not found.
   */
  lemma RoadToHiddenStart(src: ItemId, dst: ItemId, weight: int) returns (x: Bidi)
    requires src != dst && 0 < weight < UINT_MAX
    ensures Reachable(OneRoad(src, dst, weight), src, dst, x) && BothFinished(x) && x.upper == UINT_MAX
    ensures ShortestPair(OneRoad(src, dst, weight), src, dst, Here(src), Hop(Here(dst), src, weight))
    ensures Hidden(x.forward.search, src)
  {
    x := OneRoadState(src, dst, weight, 3);
    OneRoadReachable(src, dst, weight, 3);
    OneRoadIsShortest(src, dst, weight);
  }
}
