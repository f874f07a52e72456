/**
 The route items and commands of navigation.c as sequences: which items get a command, what is left when
 the vehicle has passed items, and the sums towards the destination.
 */
module NavigationModel {
  import opened Basics

  /** A route item; one object for each stretch of the route. `ways`: other streets start where it does. */
  class Itm {
    const ways: bool
    var length: int
    var time: int
    var destLength: int
    var destTime: int
    var destCount: int
    var next: Itm?
    var prev: Itm?

    constructor (length: int, time: int, ways: bool)
      ensures this.length == length && this.time == time && this.ways == ways && next == null && prev == null
    {
      this.length, this.time, this.ways := length, time, ways;
      destLength, destTime, destCount, next, prev := 0, 0, 0, null, null;
    }
  }

  /** A command: its item, and the angle of the turn. */
  datatype Maneuver = Maneuver(itm: Itm?, delta: int)

  ghost predicate Distinct(its: seq<Itm>) {
    forall i, j :: 0 <= i < j < |its| ==> its[i] != its[j]
  }

  // ----- make_maneuvers

  /** `maneuver_required2`: no turn where there is only one way to go on; else what its other tests make of it. */
  function Answer(ways: bool, judged: Option<int>): Option<int> {
    if ways then judged else None
  }

  /** The answers item by item. */
  ghost function Answers(its: seq<Itm>, judged: seq<Option<int>>): (required: seq<Option<int>>)
    requires |its| == |judged|
    ensures |required| == |its| && forall i :: 0 <= i < |its| ==> required[i] == Answer(its[i].ways, judged[i])
  {
    seq(|its|, i requires 0 <= i < |its| => Answer(its[i].ways, judged[i]))
  }

  /** A route that is complete ends with the destination, where there is no other way to go on. */
  ghost predicate Complete(its: seq<Itm>) {
    its != [] && !its[|its| - 1].ways
  }

  /**
   The commands for the items from position `i` on; `required` says where and by what angle `maneuver_required2`
   wants a turn.
   */
  ghost function Picked(its: seq<Itm>, required: seq<Option<int>>, i: nat): seq<Maneuver>
    requires |its| == |required|
    decreases |its| - i
  {
    if i >= |its| then []
    else (if required[i].Some? then [Maneuver(its[i], required[i].value)] else []) + Picked(its, required, i + 1)
  }

  lemma PickedStep(its: seq<Itm>, required: seq<Option<int>>, i: nat, done: seq<Maneuver>)
    requires |its| == |required| && i < |its|
    ensures var here := if required[i].Some? then [Maneuver(its[i], required[i].value)] else [];
      done + Picked(its, required, i) == done + here + Picked(its, required, i + 1)
  {
  }

  /** All commands: the turns behind the first item, and one for the last. */
  ghost function Maneuvers(its: seq<Itm>, required: seq<Option<int>>): seq<Maneuver>
    requires |its| == |required|
  {
    Picked(its, required, 1) + [Maneuver(if its == [] then null else its[|its| - 1], 0)]
  }

  // ----- navigation_destroy_itms_cmds

  /** The commands once the first item has gone: one for the item that is first now goes too. */
  ghost function Passed(its: seq<Itm>, cmds: seq<Maneuver>): seq<Maneuver>
    requires its != []
  {
    if cmds != [] && cmds[0].itm == (if |its| > 1 then its[1] else null) then cmds[1..] else cmds
  }

  /** The commands once the first `k` items have gone. */
  ghost function PassedAll(its: seq<Itm>, cmds: seq<Maneuver>, k: nat): seq<Maneuver>
    requires k <= |its|
  {
    if k == 0 then cmds else PassedAll(its[1..], Passed(its, cmds), k - 1)
  }

  lemma {:induction false} PassedAllStep(its: seq<Itm>, cmds: seq<Maneuver>, k: nat)
    requires k < |its|
    ensures PassedAll(its, cmds, k + 1) == Passed(its[k..], PassedAll(its, cmds, k))
    decreases k
  {
    if k == 0 {
      assert its[0..] == its;
      assert PassedAll(its, cmds, 1) == PassedAll(its[1..], Passed(its, cmds), 0);
    } else {
      PassedAllStep(its[1..], Passed(its, cmds), k - 1);
      assert its[1..][k - 1..] == its[k..];
    }
  }

  lemma {:induction false} PickedSuffix(its: seq<Itm>, required: seq<Option<int>>, i: nat)
    requires |its| == |required| && 0 < i <= |its|
    ensures Picked(its, required, i) == Picked(its[1..], required[1..], i - 1)
    decreases |its| - i
  {
    if i < |its| {
      PickedSuffix(its, required, i + 1);
    }
  }

  lemma {:induction false} PickedItems(its: seq<Itm>, required: seq<Option<int>>, i: nat)
    requires |its| == |required|
    ensures forall m :: m in Picked(its, required, i) ==> m.itm in its[if i <= |its| then i else |its|..]
    decreases |its| - i
  {
    if i < |its| {
      PickedItems(its, required, i + 1);
    }
  }

  /** Passing the first item of three or more leaves the commands the rest would get by itself. */
  lemma PassedIsRebuilt(its: seq<Itm>, required: seq<Option<int>>)
    requires |its| == |required| >= 3 && Distinct(its)
    ensures Passed(its, Maneuvers(its, required)) == Maneuvers(its[1..], required[1..])
  {
    var cmds := Maneuvers(its, required);
    PickedSuffix(its, required, 2);
    PickedItems(its, required, 2);
    var rest := Picked(its, required, 2) + [Maneuver(its[|its| - 1], 0)];
    assert rest == Maneuvers(its[1..], required[1..]);
    if required[1].Some? {
      assert cmds == [Maneuver(its[1], required[1].value)] + rest;
    } else {
      assert cmds == rest;
      assert its[1] !in its[2..] && rest[0].itm in its[2..];
    }
  }

  /** However many items are passed, as long as two are left: the commands are those the rest would get by itself. */
  lemma {:induction false} PassedAllIsRebuilt(its: seq<Itm>, required: seq<Option<int>>, k: nat)
    requires |its| == |required| && Distinct(its) && k + 2 <= |its|
    ensures PassedAll(its, Maneuvers(its, required), k) == Maneuvers(its[k..], required[k..])
    decreases k
  {
    if k == 0 {
      assert its[0..] == its && required[0..] == required;
    } else {
      PassedIsRebuilt(its, required);
      PassedAllIsRebuilt(its[1..], required[1..], k - 1);
      assert its[1..][k - 1..] == its[k..] && required[1..][k - 1..] == required[k..];
    }
  }

  /** The commands of the last two items once the first of them has gone. */
  lemma TwoItems(a: Itm, b: Itm, required: seq<Option<int>>)
    requires a != b && |required| == 2
    ensures Maneuvers([b], required[1..]) == [Maneuver(b, 0)]
    ensures Passed([a, b], Maneuvers([a, b], required)) == if required[1].Some? then [Maneuver(b, 0)] else []
  {
    var its, end := [a, b], [Maneuver(b, 0)];
    assert Picked(its, required, 2) == [] && Picked([b], required[1..], 1) == [];
    assert Maneuvers(its, required) == if required[1].Some? then [Maneuver(b, required[1].value)] + end else end;
  }

  /** Down to the last of two or more items, this holds exactly when a turn is required there as well. */
  lemma LastRequired(its: seq<Itm>, required: seq<Option<int>>, last: nat)
    requires |its| == |required| >= 2 && Distinct(its) && last == |its| - 1
    ensures PassedAll(its, Maneuvers(its, required), last) ==
      if required[last].Some? then [Maneuver(its[last], 0)] else []
    ensures PassedAll(its, Maneuvers(its, required), last + 1) == PassedAll(its, Maneuvers(its, required), last)
  {
    var cmds := Maneuvers(its, required);
    var a, b, req := its[last - 1], its[last], required[last - 1..];
    PassedAllIsRebuilt(its, required, last - 1);
    PassedAllStep(its, cmds, last - 1);
    PassedAllStep(its, cmds, last);
    assert its[last - 1..] == [a, b] && its[last..] == [b] && req[1..] == required[last..];
    TwoItems(a, b, req);
  }

  /** No command outlives a route exactly when it has two items or more and no turn is required at the last one. */
  lemma CommandsLeft(its: seq<Itm>, required: seq<Option<int>>)
    requires |its| == |required| >= 1 && Distinct(its)
    ensures PassedAll(its, Maneuvers(its, required), |its|) == [] <==> |its| >= 2 && required[|its| - 1].None?
  {
    var cmds := Maneuvers(its, required);
    if |its| == 1 {
      assert Picked(its, required, 1) == [];
      PassedAllStep(its, cmds, 0);
    } else {
      LastRequired(its, required, |its| - 1);
    }
  }

  /**
   The command for the destination of a complete route goes when its item becomes the first, and then none is left;
   but a route of that item alone keeps it for good.
   */
  lemma LastItemCommands(its: seq<Itm>, judged: seq<Option<int>>, last: nat)
    requires |its| == |judged| && Complete(its) && Distinct(its) && last == |its| - 1
    ensures var cmds := Maneuvers(its, Answers(its, judged));
      && PassedAll(its, cmds, last) == (if |its| >= 2 then [] else [Maneuver(its[last], 0)])
      && PassedAll(its, cmds, |its|) == PassedAll(its, cmds, last)
      && (PassedAll(its, cmds, |its|) == [] <==> |its| >= 2)
  {
    var required := Answers(its, judged);
    if |its| == 1 {
      assert Picked(its, required, 1) == [];
      PassedAllStep(its, Maneuvers(its, required), 0);
    } else {
      LastRequired(its, required, last);
    }
  }

  // ----- where commands point

  /** Positions behind the first item, strictly rising up to the last item. */
  ghost predicate Rising(at: seq<nat>, n: nat) {
    && at != [] && at[|at| - 1] == n - 1
    && (forall j :: 0 <= j < |at| ==> 1 <= at[j] < n)
    && (forall i, j :: 0 <= i < j < |at| ==> at[i] < at[j])
  }

  /** The positions of the picked items. */
  ghost function PickedAt(required: seq<Option<int>>, i: nat): (at: seq<nat>)
    ensures forall j :: 0 <= j < |at| ==> i <= at[j] < |required|
    ensures forall j, k :: 0 <= j < k < |at| ==> at[j] < at[k]
    decreases |required| - i
  {
    if i >= |required| then [] else (if required[i].Some? then [i] else []) + PickedAt(required, i + 1)
  }

  lemma {:induction false} PickedIsAt(its: seq<Itm>, required: seq<Option<int>>, i: nat)
    requires |its| == |required|
    ensures |Picked(its, required, i)| == |PickedAt(required, i)|
    ensures forall j :: 0 <= j < |PickedAt(required, i)| ==>
      Picked(its, required, i)[j].itm == its[PickedAt(required, i)[j]]
    decreases |its| - i
  {
    if i < |its| {
      PickedIsAt(its, required, i + 1);
      var all, at := Picked(its, required, i), PickedAt(required, i);
      var rest, restAt := Picked(its, required, i + 1), PickedAt(required, i + 1);
      forall j | 0 <= j < |at| ensures |all| == |at| && all[j].itm == its[at[j]] {
        if required[i].Some? && j > 0 {
          assert all[j] == rest[j - 1] && at[j] == restAt[j - 1];
        }
      }
    }
  }

  /** Commands point, in order, to different items behind the first, and the last one to the last item. */
  ghost predicate PointsInOrder(its: seq<Itm>, cmds: seq<Maneuver>, at: seq<nat>) {
    && Rising(at, |its|) && |at| == |cmds|
    && forall j :: 0 <= j < |cmds| ==> cmds[j].itm == its[at[j]]
  }

  /** After building a complete route, and after passing items with two or more left, commands point in order. */
  lemma CommandsPointInOrder(its: seq<Itm>, judged: seq<Option<int>>, k: nat) returns (at: seq<nat>)
    requires |its| == |judged| && Complete(its) && Distinct(its) && k + 2 <= |its|
    ensures PointsInOrder(its[k..], PassedAll(its, Maneuvers(its, Answers(its, judged)), k), at)
  {
    var required := Answers(its, judged);
    PassedAllIsRebuilt(its, required, k);
    var left, req := its[k..], required[k..];
    PickedIsAt(left, req, 1);
    PickedRise(req);
    at := PickedAt(req, 1) + [|left| - 1];
  }

  /** With no turn at the last item, its position comes behind those picked. */
  lemma PickedRise(required: seq<Option<int>>)
    requires |required| >= 2 && required[|required| - 1].None?
    ensures Rising(PickedAt(required, 1) + [|required| - 1], |required|)
  {
    PickedAreRequired(required, 1);
  }

  lemma {:induction false} PickedAreRequired(required: seq<Option<int>>, i: nat)
    ensures forall j :: 0 <= j < |PickedAt(required, i)| ==> required[PickedAt(required, i)[j]].Some?
    decreases |required| - i
  {
    if i < |required| {
      PickedAreRequired(required, i + 1);
    }
  }

  /** So the destination has one command, the last one. */
  lemma OneForTheLast(its: seq<Itm>, judged: seq<Option<int>>, k: nat, j: nat)
    requires |its| == |judged| && Complete(its) && Distinct(its) && k + 2 <= |its|
    requires j < |PassedAll(its, Maneuvers(its, Answers(its, judged)), k)|
    ensures var cmds := PassedAll(its, Maneuvers(its, Answers(its, judged)), k);
      cmds[j].itm == its[|its| - 1] <==> j == |cmds| - 1
  {
    var at := CommandsPointInOrder(its, judged, k);
    var left := its[k..];
    assert left[|left| - 1] == its[|its| - 1] && left[at[j]] == its[k + at[j]];
  }

  /** An item from position `from` on is picked exactly when a turn is required there. */
  lemma {:induction false} PickedIffRequired(its: seq<Itm>, required: seq<Option<int>>, from: nat, i: nat)
    requires |its| == |required| && Distinct(its) && from <= i < |its|
    ensures (exists m :: m in Picked(its, required, from) && m.itm == its[i]) <==> required[i].Some?
    decreases |its| - from
  {
    if from == i {
      PickedItems(its, required, from + 1);
      if required[i].Some? {
        assert Maneuver(its[i], required[i].value) in Picked(its, required, from);
      }
    } else {
      PickedIffRequired(its, required, from + 1, i);
      var head := if required[from].Some? then [Maneuver(its[from], required[from].value)] else [];
      assert forall m :: m in Picked(its, required, from) <==> m in head || m in Picked(its, required, from + 1);
    }
  }

  /**
   After passing `k` items, an item behind the first one left and before the last has a command exactly when a
   turn is required there.
   */
  lemma CommandIffRequired(its: seq<Itm>, required: seq<Option<int>>, k: nat, i: nat)
    requires |its| == |required| && Distinct(its) && k < i < |its| - 1
    ensures (exists m :: m in PassedAll(its, Maneuvers(its, required), k) && m.itm == its[i]) <==> required[i].Some?
  {
    PassedAllIsRebuilt(its, required, k);
    var left, req, j := its[k..], required[k..], i - k;
    var end := Maneuver(left[|left| - 1], 0);
    PickedIffRequired(left, req, 1, j);
    assert left[j] == its[i] && req[j] == required[i] && end.itm != left[j];
    assert forall m :: m in Maneuvers(left, req) <==> m in Picked(left, req, 1) || m == end;
  }

  /** The commands picked for an item turn by the angle required there. */
  lemma {:induction false} PickedTurn(its: seq<Itm>, required: seq<Option<int>>, from: nat, i: nat, m: Maneuver)
    requires |its| == |required| && Distinct(its) && i < |its| && m in Picked(its, required, from) && m.itm == its[i]
    ensures required[i] == Some(m.delta)
    decreases |its| - from
  {
    if !(required[from].Some? && m == Maneuver(its[from], required[from].value)) {
      PickedTurn(its, required, from + 1, i, m);
    }
  }

  /** The only command for an item. */
  ghost predicate OneCommand(cmds: seq<Maneuver>, itm: Itm, j: nat) {
    j < |cmds| && forall k :: 0 <= k < |cmds| ==> (cmds[k].itm == itm <==> k == j)
  }

  /** Commands that point in order do so once. */
  lemma PointsOnce(its: seq<Itm>, cmds: seq<Maneuver>, at: seq<nat>, j: nat)
    requires Distinct(its) && PointsInOrder(its, cmds, at) && j < |cmds|
    ensures OneCommand(cmds, its[at[j]], j)
  {
    forall k | 0 <= k < |cmds| ensures cmds[k].itm == its[at[j]] <==> k == j {
      if k < j {
        assert at[k] < at[j];
      } else if j < k {
        assert at[j] < at[k];
      }
    }
  }

  /**
   On a complete route, an item between the first one left and the last has a command exactly when streets branch
   off there and the tests find a turn; it has one then, with the angle they found.
   */
  lemma TurnIsAnnounced(its: seq<Itm>, judged: seq<Option<int>>, k: nat, i: nat)
    requires |its| == |judged| && Complete(its) && Distinct(its) && k < i < |its| - 1
    ensures var cmds := PassedAll(its, Maneuvers(its, Answers(its, judged)), k);
      && ((exists m :: m in cmds && m.itm == its[i]) <==> its[i].ways && judged[i].Some?)
      && (forall j :: 0 <= j < |cmds| && cmds[j].itm == its[i] ==>
        OneCommand(cmds, its[i], j) && judged[i] == Some(cmds[j].delta))
  {
    var required := Answers(its, judged);
    var cmds := PassedAll(its, Maneuvers(its, required), k);
    CommandIffRequired(its, required, k, i);
    PassedAllIsRebuilt(its, required, k);
    var at := CommandsPointInOrder(its, judged, k);
    var left, req := its[k..], required[k..];
    assert left[i - k] == its[i] && req[i - k] == required[i];
    forall j | 0 <= j < |cmds| && cmds[j].itm == its[i]
      ensures OneCommand(cmds, its[i], j) && judged[i] == Some(cmds[j].delta)
    {
      PointsOnce(left, cmds, at, j);
      OneForTheLast(its, judged, k, j);
      assert cmds[j] in Picked(left, req, 1);
      PickedTurn(left, req, 1, i - k, cmds[j]);
    }
  }

  /** The destination's command, the last one, turns by no angle. */
  lemma DestinationIsAnnounced(its: seq<Itm>, judged: seq<Option<int>>, k: nat)
    requires |its| == |judged| && Complete(its) && Distinct(its) && k + 2 <= |its|
    ensures var cmds := PassedAll(its, Maneuvers(its, Answers(its, judged)), k);
      cmds != [] && cmds[|cmds| - 1] == Maneuver(its[|its| - 1], 0) && OneCommand(cmds, its[|its| - 1], |cmds| - 1)
  {
    var required := Answers(its, judged);
    var cmds := PassedAll(its, Maneuvers(its, required), k);
    PassedAllIsRebuilt(its, required, k);
    forall j | 0 <= j < |cmds| ensures cmds[j].itm == its[|its| - 1] <==> j == |cmds| - 1 {
      OneForTheLast(its, judged, k, j);
    }
  }

  // ----- sums

  /** The sum of the numbers from position `i` up to before `j`. */
  function Sum(ns: seq<int>, i: nat, j: nat): int
    requires i <= j <= |ns|
    decreases j - i
  {
    if i == j then 0 else ns[i] + Sum(ns, i + 1, j)
  }

  lemma {:induction false} SumIsPositive(ns: seq<int>, i: nat, j: nat)
    requires i <= j <= |ns| && forall n :: n in ns ==> n >= 0
    ensures Sum(ns, i, j) >= 0
    decreases j - i
  {
    if i < j {
      assert ns[i] in ns;
      SumIsPositive(ns, i + 1, j);
    }
  }

  lemma {:induction false} SumSplit(ns: seq<int>, i: nat, k: nat, j: nat)
    requires i <= k <= j <= |ns|
    ensures Sum(ns, i, j) == Sum(ns, i, k) + Sum(ns, k, j)
    decreases k - i
  {
    if i < k {
      SumSplit(ns, i + 1, k, j);
    }
  }

  lemma {:induction false} SumShift(ns: seq<int>, k: nat, i: nat, j: nat)
    requires k <= i <= j <= |ns|
    ensures Sum(ns, i, j) == Sum(ns[k..], i - k, j - k)
    decreases j - i
  {
    if i < j {
      SumShift(ns, k, i + 1, j);
    }
  }

  /** Changing the first number does not change sums behind it. */
  lemma {:induction false} SumBehind(ns: seq<int>, n: int, i: nat, j: nat)
    requires 0 < i <= j <= |ns|
    ensures Sum(ns[0 := n], i, j) == Sum(ns, i, j)
    decreases j - i
  {
    if i < j {
      SumBehind(ns, n, i + 1, j);
    }
  }
}
