/**
 The two alternating searches of routech.c with their shared bound and meeting node, as a state
 machine whose steps may come in any order.
 */
module SearchRuns {
  import opened Basics
  import opened IndexedHeap
  import opened Hierarchy
  import opened SearchModel
  import opened SearchInvariant

  const UINT_MAX := 4294967295

  /** Side 0 searches from the source, side 1 from the destination; `last` is the key each popped last. */
  datatype Side = Side(search: Search, last: int)

  datatype Bidi = Bidi(forward: Side, backward: Side, upper: int, via: Option<ItemId>)

  function Initial(src: ItemId, dst: ItemId): Bidi
  {
    Bidi(Side(Offer(EMPTY, src, 0, None), 0), Side(Offer(EMPTY, dst, 0, None), 0), UINT_MAX, None)
  }

  datatype Meeting = Meeting(upper: int, via: Option<ItemId>)

  /** The bound and meeting node after `id` was popped with key `val`, given the other search. */
  function Meet(m: Meeting, id: ItemId, val: int, opposite: Search): Meeting
    requires Indexed(opposite)
  {
    if id in opposite.hash && opposite.hash[id] in opposite.deleted
      && val + opposite.nodes[opposite.hash[id]].key < m.upper then
      Meeting(val + opposite.nodes[opposite.hash[id]].key, Some(id))
    else
      m
  }

  /** `e` is an element `pq_delete_min` may take. */
  ghost predicate Minimal(s: Search, e: nat) {
    e in s.live && s.live <= s.nodes.Keys && forall h :: h in s.live ==> s.nodes[e].key <= s.nodes[h].key
  }

  /** One side pops `e` and relaxes it. */
  ghost predicate SideStep(g: Graph, dir: nat, x: Side, y: Side, e: nat)
    requires dir <= 1
  {
    && Indexed(x.search) && PositiveWeights(g) && NonNegative(x.search) && Minimal(x.search, e)
    && y.search == Relax(g, dir, x.search, e)
    && y.last == x.search.nodes[e].key
  }

  ghost predicate Step(g: Graph, x: Bidi, y: Bidi) {
    exists e: nat :: ForwardStep(g, x, y, e) || BackwardStep(g, x, y, e)
  }

  ghost predicate ForwardStep(g: Graph, x: Bidi, y: Bidi, e: nat) {
    && SideStep(g, 0, x.forward, y.forward, e) && y.backward == x.backward && Indexed(x.backward.search)
    && Meeting(y.upper, y.via) == Meet(Meeting(x.upper, x.via), x.forward.search.nodes[e].id, y.forward.last,
      x.backward.search)
  }

  ghost predicate BackwardStep(g: Graph, x: Bidi, y: Bidi, e: nat) {
    && SideStep(g, 1, x.backward, y.backward, e) && y.forward == x.forward && Indexed(x.forward.search)
    && Meeting(y.upper, y.via) == Meet(Meeting(x.upper, x.via), x.backward.search.nodes[e].id, y.backward.last,
      x.forward.search)
  }

  /** Both searches have popped the meeting node, and the bound is the sum of its two keys. */
  ghost predicate Met(m: Meeting, a: Search, b: Search)
    requires Indexed(a) && Indexed(b)
  {
    if m.via.None? then m.upper == UINT_MAX
    else
      && m.via.value in a.hash && a.hash[m.via.value] !in a.live
      && m.via.value in b.hash && b.hash[m.via.value] !in b.live
      && m.upper == a.nodes[a.hash[m.via.value]].key + b.nodes[b.hash[m.via.value]].key
      && m.upper < UINT_MAX
  }

  ghost predicate BidiInv(g: Graph, src: ItemId, dst: ItemId, x: Bidi) {
    && Inv(g, 0, src, x.forward.search, x.forward.last)
    && Inv(g, 1, dst, x.backward.search, x.backward.last)
    && Met(Meeting(x.upper, x.via), x.forward.search, x.backward.search)
  }

  lemma InitialInv(g: Graph, src: ItemId, dst: ItemId)
    ensures BidiInv(g, src, dst, Initial(src, dst))
  {
    InvInit(g, 0, src);
    InvInit(g, 1, dst);
  }

  /** A meeting that held before one side moved on still holds, and the new one does too. */
  lemma MeetKeeps(m: Meeting, a: Search, a': Search, b: Search, e: nat, n: Meeting)
    requires Indexed(a) && Indexed(a') && Indexed(b) && Evolves(a, a') && Met(m, a, b) && m.upper <= UINT_MAX
    requires e in a.live && e !in a'.live
    requires n == Meet(m, a.nodes[e].id, a.nodes[e].key, b) && a'.nodes[e].key == a.nodes[e].key
    ensures Met(n, a', b) && n.upper <= m.upper
  {
  }

  /** The bound falls to the sum of the two keys exactly when that is less, and only then the meeting node changes. */
  lemma MeetIsLeast(m: Meeting, id: ItemId, val: int, opposite: Search, n: Meeting)
    requires Indexed(opposite) && n == Meet(m, id, val, opposite)
    ensures var seen := id in opposite.hash && opposite.hash[id] in opposite.deleted;
      && n.upper <= m.upper && (n.upper == m.upper ==> n == m) && (n != m ==> seen && n.via == Some(id))
      && (seen ==>
        var sum := val + opposite.nodes[opposite.hash[id]].key; n.upper == if sum < m.upper then sum else m.upper)
  {
  }

  /** What time does to a pair of searches; popped keys never fall and the bound never rises. */
  ghost predicate BidiEvolves(x: Bidi, y: Bidi) {
    && Evolves(x.forward.search, y.forward.search) && x.forward.last <= y.forward.last
    && Evolves(x.backward.search, y.backward.search) && x.backward.last <= y.backward.last
    && y.upper <= x.upper
  }

  lemma MetSwap(m: Meeting, a: Search, b: Search)
    requires Indexed(a) && Indexed(b) && Met(m, a, b)
    ensures Met(m, b, a)
  {
  }

  lemma ForwardKeeps(g: Graph, src: ItemId, dst: ItemId, x: Bidi, y: Bidi, e: nat)
    requires BidiInv(g, src, dst, x) && ForwardStep(g, x, y, e)
    ensures BidiInv(g, src, dst, y) && BidiEvolves(x, y)
  {
    var s, t := x.forward.search, y.forward.search;
    RelaxKeeps(g, 0, src, s, x.forward.last, e, t);
    MeetKeeps(Meeting(x.upper, x.via), s, t, x.backward.search, e, Meeting(y.upper, y.via));
  }

  lemma BackwardKeeps(g: Graph, src: ItemId, dst: ItemId, x: Bidi, y: Bidi, e: nat)
    requires BidiInv(g, src, dst, x) && BackwardStep(g, x, y, e)
    ensures BidiInv(g, src, dst, y) && BidiEvolves(x, y)
  {
    var s, t := x.backward.search, y.backward.search;
    RelaxKeeps(g, 1, dst, s, x.backward.last, e, t);
    MetSwap(Meeting(x.upper, x.via), x.forward.search, s);
    MeetKeeps(Meeting(x.upper, x.via), s, t, x.forward.search, e, Meeting(y.upper, y.via));
    MetSwap(Meeting(y.upper, y.via), t, x.forward.search);
  }

  lemma StepKeeps(g: Graph, src: ItemId, dst: ItemId, x: Bidi, y: Bidi)
    requires BidiInv(g, src, dst, x) && Step(g, x, y)
    ensures BidiInv(g, src, dst, y) && BidiEvolves(x, y)
  {
    var e: nat :| ForwardStep(g, x, y, e) || BackwardStep(g, x, y, e);
    if ForwardStep(g, x, y, e) {
      ForwardKeeps(g, src, dst, x, y, e);
    } else {
      BackwardKeeps(g, src, dst, x, y, e);
    }
  }

  /** A run: from the initial state, in any interleaving. */
  ghost predicate Run(g: Graph, src: ItemId, dst: ItemId, run: seq<Bidi>) {
    |run| > 0 && run[0] == Initial(src, dst) && forall i {:trigger run[i]} :: 0 < i < |run| ==>
      Step(g, run[i - 1], run[i])
  }

  lemma {:induction false} RunKeeps(g: Graph, src: ItemId, dst: ItemId, run: seq<Bidi>, i: nat)
    requires Run(g, src, dst, run) && i < |run|
    ensures BidiInv(g, src, dst, run[i])
  {
    if i == 0 {
      InitialInv(g, src, dst);
    } else {
      RunKeeps(g, src, dst, run, i - 1);
      StepKeeps(g, src, dst, run[i - 1], run[i]);
    }
  }

  /** Between any two moments of a run popped nodes are frozen, popped keys rise and the bound falls. */
  lemma {:induction false} RunEvolves(g: Graph, src: ItemId, dst: ItemId, run: seq<Bidi>, i: nat, j: nat)
    requires Run(g, src, dst, run) && i <= j < |run|
    ensures BidiEvolves(run[i], run[j])
    decreases j
  {
    if i < j {
      RunEvolves(g, src, dst, run, i, j - 1);
      RunKeeps(g, src, dst, run, j - 1);
      StepKeeps(g, src, dst, run[j - 1], run[j]);
      EvolvesTransitive(run[i].forward.search, run[j - 1].forward.search, run[j].forward.search);
      EvolvesTransitive(run[i].backward.search, run[j - 1].backward.search, run[j].backward.search);
    }
  }

  /** Some interleaving of the two searches leads to this state. */
  ghost predicate Reachable(g: Graph, src: ItemId, dst: ItemId, x: Bidi) {
    exists run :: Run(g, src, dst, run) && run[|run| - 1] == x
  }

  lemma InitialReachable(g: Graph, src: ItemId, dst: ItemId)
    ensures Reachable(g, src, dst, Initial(src, dst))
  {
    assert Run(g, src, dst, [Initial(src, dst)]);
  }

  lemma StepReachable(g: Graph, src: ItemId, dst: ItemId, x: Bidi, y: Bidi)
    requires Reachable(g, src, dst, x) && Step(g, x, y)
    ensures Reachable(g, src, dst, y)
  {
    var run :| Run(g, src, dst, run) && run[|run| - 1] == x;
    var longer := run + [y];
    forall i {:trigger longer[i]} | 0 < i < |longer| ensures Step(g, longer[i - 1], longer[i]) {
      if i < |run| {
        assert run[i] == longer[i] && run[i - 1] == longer[i - 1];
      }
    }
    assert Run(g, src, dst, longer);
  }

  lemma ReachableInv(g: Graph, src: ItemId, dst: ItemId, x: Bidi)
    requires Reachable(g, src, dst, x)
    ensures BidiInv(g, src, dst, x)
  {
    var run :| Run(g, src, dst, run) && run[|run| - 1] == x;
    RunKeeps(g, src, dst, run, |run| - 1);
  }
}
