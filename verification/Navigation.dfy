/**
 The doubly linked lists of route items and of commands that navigation.c keeps in step.
 */
module Navigations {
  import opened Basics
  import opened NavigationModel

  class Command {
    const maneuver: Maneuver
    var next: Command?
    var prev: Command?

    constructor (itm: Itm?, delta: int)
      ensures maneuver == Maneuver(itm, delta) && next == null && prev == null
    {
      maneuver := Maneuver(itm, delta);
      next, prev := null, null;
    }
  }

  /** Items linked in both directions. */
  ghost predicate Chain(its: seq<Itm>)
    reads its
  {
    && Distinct(its)
    && (forall i :: 0 < i < |its| ==> its[i].prev == its[i - 1])
    && (forall i :: 0 <= i < |its| - 1 ==> its[i].next == its[i + 1])
    && (its != [] ==> its[0].prev == null && its[|its| - 1].next == null)
  }

  ghost predicate CommandChain(cmds: seq<Command>, maneuvers: seq<Maneuver>)
    reads cmds
  {
    && |cmds| == |maneuvers| && (forall i :: 0 <= i < |cmds| ==> cmds[i].maneuver == maneuvers[i])
    && (forall i, j :: 0 <= i < j < |cmds| ==> cmds[i] != cmds[j])
    && (forall i :: 0 < i < |cmds| ==> cmds[i].prev == cmds[i - 1])
    && (forall i :: 0 <= i < |cmds| - 1 ==> cmds[i].next == cmds[i + 1])
    && (cmds != [] ==> cmds[0].prev == null && cmds[|cmds| - 1].next == null)
  }

  /** The lengths and times of the items. */
  ghost predicate Shown(its: seq<Itm>, lengths: seq<int>, times: seq<int>)
    reads its`length, its`time
  {
    |lengths| == |times| == |its| && forall i :: 0 <= i < |its| ==>
      its[i].length == lengths[i] && its[i].time == times[i]
  }

  /**
   Each item from position `k` on knows the length and the time to the destination, itself included, and the
   items behind it.
   */
  ghost predicate Sums(its: seq<Itm>, lengths: seq<int>, times: seq<int>, k: nat)
    reads its`destLength, its`destTime, its`destCount
  {
    |lengths| == |times| == |its| && forall i :: k <= i < |its| ==>
      its[i].destLength == Sum(lengths, i, |its|) && its[i].destTime == Sum(times, i, |its|)
        && its[i].destCount == |its| - 1 - i
  }

  /** Between two items, the distances differ by what lies between. */
  lemma SumsDiffer(its: seq<Itm>, lengths: seq<int>, times: seq<int>, k: nat, i: nat, j: nat)
    requires Sums(its, lengths, times, k) && k <= i <= j < |its|
    ensures its[i].destLength - its[j].destLength == Sum(lengths, i, j)
    ensures its[i].destTime - its[j].destTime == Sum(times, i, j)
    ensures its[i].destCount - its[j].destCount == j - i
  {
    SumSplit(lengths, i, j, |its|);
    SumSplit(times, i, j, |its|);
  }

  /** Sums stay right when items in front are passed. */
  lemma {:induction false} SumsOfRest(its: seq<Itm>, lengths: seq<int>, times: seq<int>, k: nat)
    requires Sums(its, lengths, times, 0) && k <= |its|
    ensures Sums(its[k..], lengths[k..], times[k..], 0)
    decreases k
  {
    forall i | k <= i < |its|
      ensures Sum(lengths, i, |its|) == Sum(lengths[k..], i - k, |its| - k)
        && Sum(times, i, |its|) == Sum(times[k..], i - k, |its| - k)
    {
      SumShift(lengths, k, i, |its|);
      SumShift(times, k, i, |its|);
    }
  }

  /** A new length and time of the first item leave the sums behind it right. */
  lemma SumsBehindFirst(its: seq<Itm>, lengths: seq<int>, times: seq<int>, length: int, time: int)
    requires its != [] && Sums(its, lengths, times, 1)
    ensures Sums(its, lengths[0 := length], times[0 := time], 1)
  {
    forall i | 1 <= i < |its|
      ensures Sum(lengths[0 := length], i, |its|) == Sum(lengths, i, |its|)
        && Sum(times[0 := time], i, |its|) == Sum(times, i, |its|)
    {
      SumBehind(lengths, length, i, |its|);
      SumBehind(times, time, i, |its|);
    }
  }

  /** Sums from the next item on give those of the item in front of it. */
  lemma SumsExtend(its: seq<Itm>, lengths: seq<int>, times: seq<int>, k: nat)
    requires k < |its| && Sums(its, lengths, times, k + 1)
    requires its[k].destLength == lengths[k] + (if k + 1 < |its| then its[k + 1].destLength else 0)
    requires its[k].destTime == times[k] + (if k + 1 < |its| then its[k + 1].destTime else 0)
    requires its[k].destCount == |its| - 1 - k
    ensures Sums(its, lengths, times, k)
  {
    var n := |its|;
    assert Sum(lengths, k, n) == lengths[k] + Sum(lengths, k + 1, n);
    assert Sum(times, k, n) == times[k] + Sum(times, k + 1, n);
    assert k + 1 < n || (Sum(lengths, n, n) == 0 && Sum(times, n, n) == 0);
  }

  class Navigation {
    var first: Itm?
    var last: Itm?
    var cmdFirst: Command?
    var cmdLast: Command?
    ghost var its: seq<Itm>
    ghost var lengths: seq<int>
    ghost var times: seq<int>
    ghost var cmds: seq<Command>
    ghost var maneuvers: seq<Maneuver>

    /** The list, but that `last` may be stale when there are no items. */
    ghost predicate Linked()
      reads this`first, this`last, this`its, this`lengths, this`times, its
    {
      Chain(its) && Shown(its, lengths, times) && if its == [] then first == null
        else first == its[0] && last == its[|its| - 1]
    }

    ghost predicate ItemsValid()
      reads this`first, this`last, this`its, this`lengths, this`times, its
    {
      Linked() && (its == [] ==> last == null)
    }

    ghost predicate CommandsValid()
      reads this`cmdFirst, this`cmds, this`maneuvers, cmds
    {
      CommandChain(cmds, maneuvers) && cmdFirst == if cmds == [] then null else cmds[0]
    }

    ghost predicate Valid()
      reads this, its, cmds
    {
      ItemsValid() && CommandsValid()
    }

    constructor ()
      ensures Valid() && its == [] && cmds == []
    {
      first, last, cmdFirst, cmdLast := null, null, null, null;
      its, lengths, times, cmds, maneuvers := [], [], [], [], [];
    }

    /** The end of `navigation_itm_new`: the new item is the last one. */
    method AddItm(length: int, time: int, ways: bool) returns (itm: Itm)
      requires ItemsValid()
      modifies this`first, this`last, this`its, this`lengths, this`times, its`next
      ensures ItemsValid() && fresh(itm) && itm.ways == ways && its == old(its) + [itm]
      ensures lengths == old(lengths) + [length] && times == old(times) + [time]
    {
      itm := new Itm(length, time, ways);
      if first == null {
        first := itm;
      }
      if last != null {
        last.next := itm;
        itm.prev := last;
      }
      last := itm;
      its, lengths, times := its + [itm], lengths + [length], times + [time];
    }

    /** The list part of `command_new`. */
    method AddCommand(itm: Itm?, delta: int)
      requires CommandsValid() && cmdLast == (if cmds == [] then null else cmds[|cmds| - 1])
      modifies this`cmdFirst, this`cmdLast, this`cmds, this`maneuvers, cmds`next
      ensures CommandsValid() && cmds != [] && cmdLast == cmds[|cmds| - 1]
      ensures fresh(cmdLast) && cmds == old(cmds) + [cmdLast] && maneuvers == old(maneuvers) + [Maneuver(itm, delta)]
    {
      var ret := new Command(itm, delta);
      if cmdLast != null {
        cmdLast.next := ret;
        ret.prev := cmdLast;
      }
      cmdLast := ret;
      if cmdFirst == null {
        cmdFirst := ret;
      }
      cmds, maneuvers := cmds + [ret], maneuvers + [Maneuver(itm, delta)];
    }

    /** The newest command is the last one. */
    ghost predicate Building()
      reads this`cmdFirst, this`cmdLast, this`cmds, this`maneuvers, cmds
    {
      CommandsValid() && cmdLast == if cmds == [] then null else cmds[|cmds| - 1]
    }

    /** Where the loop of `make_maneuvers` stands. */
    ghost predicate At(i: nat, itm: Itm?, lastItm: Itm?, done: seq<Maneuver>, required: seq<Option<int>>)
      requires |required| == |its|
      reads this`its
    {
      && i <= |its| && itm == (if i < |its| then its[i] else null) && lastItm == (if i == 0 then null else its[i - 1])
      && Picked(its, required, 1) == done + Picked(its, required, if i == 0 then 1 else i)
    }

    /** A pass of that loop. */
    method Visit(itm: Itm, lastItm: Itm?, required: Option<int>)
      requires Building()
      modifies this`cmdFirst, this`cmdLast, this`cmds, this`maneuvers, cmds`next
      ensures Building() && (cmds == old(cmds) || (cmdLast != null && fresh(cmdLast) && cmds == old(cmds) + [cmdLast]))
      ensures maneuvers == old(maneuvers) + if lastItm != null && required.Some? then [Maneuver(itm, required.value)]
        else []
    {
      if lastItm != null {
        if required.Some? {
          AddCommand(itm, required.value);
        }
      }
    }

    lemma AtNext(i: nat, itm: Itm, lastItm: Itm?, done: seq<Maneuver>, required: seq<Option<int>>, more: seq<Maneuver>)
      requires ItemsValid() && |required| == |its| && At(i, itm, lastItm, done, required)
      requires more == done + if lastItm != null && required[i].Some? then [Maneuver(itm, required[i].value)] else []
      ensures i < |its| && At(i + 1, itm.next, itm, more, required)
    {
      PickedStep(its, required, i, done);
    }

    /** The lists and the place in the loop of `make_maneuvers`. */
    ghost predicate Looping(i: nat, itm: Itm?, lastItm: Itm?, required: seq<Option<int>>)
      reads this, its, cmds
    {
      ItemsValid() && Building() && |required| == |its| && At(i, itm, lastItm, maneuvers, required)
    }

    /** A pass of that loop, with the step to the next item. */
    method Pass(itm: Itm, lastItm: Itm?, i: nat, judged: seq<Option<int>>, ghost required: seq<Option<int>>)
      returns (next: Itm?)
      requires |judged| == |its| && required == Answers(its, judged) && Looping(i, itm, lastItm, required)
      modifies this`cmdFirst, this`cmdLast, this`cmds, this`maneuvers, cmds`next
      ensures Looping(i + 1, next, itm, required)
      ensures cmds == old(cmds) || (cmdLast != null && fresh(cmdLast) && cmds == old(cmds) + [cmdLast])
    {
      ghost var done := maneuvers;
      Visit(itm, lastItm, Answer(itm.ways, judged[i]));
      AtNext(i, itm, lastItm, done, required, maneuvers);
      next := itm.next;
    }

    /** The command for the last item, behind that loop. */
    method Finish(lastItm: Itm?, ghost required: seq<Option<int>>)
      requires Looping(|its|, null, lastItm, required)
      modifies this`cmdFirst, this`cmdLast, this`cmds, this`maneuvers, cmds`next
      ensures ItemsValid() && CommandsValid() && maneuvers == Maneuvers(its, required)
      ensures cmdLast != null && fresh(cmdLast) && cmds == old(cmds) + [cmdLast]
    {
      AddCommand(lastItm, 0);
    }

    /** The loop of `make_maneuvers`, from the first item on. */
    method PickAll(judged: seq<Option<int>>, ghost required: seq<Option<int>>) returns (lastItm: Itm?)
      requires |judged| == |its| && required == Answers(its, judged) && Looping(0, first, null, required) && cmds == []
      modifies this`cmdFirst, this`cmdLast, this`cmds, this`maneuvers, cmds`next
      ensures Looping(|its|, null, lastItm, required)
      ensures fresh(cmds)
    {
      var itm, i := first, 0;
      lastItm := null;
      while itm != null
        invariant Looping(i, itm, lastItm, required) && fresh(cmds)
        decreases |its| - i
      {
        var next := Pass(itm, lastItm, i, judged, required);
        itm, lastItm := next, itm;
        i := i + 1;
      }
    }

    /** `make_maneuvers`; `judged` is what `maneuver_required2` makes of each item where there are other ways. */
    method MakeManeuvers(judged: seq<Option<int>>)
      requires ItemsValid() && |judged| == |its|
      modifies this`cmdFirst, this`cmdLast, this`cmds, this`maneuvers
      ensures ItemsValid() && CommandsValid() && fresh(cmds) && maneuvers == Maneuvers(its, Answers(its, judged))
    {
      ghost var required := Answers(its, judged);
      cmdLast, cmdFirst, cmds, maneuvers := null, null, [], [];
      var lastItm := PickAll(judged, required);
      Finish(lastItm, required);
    }

    /** The end of `navigation_update`: the destination completes the route, which gets its commands. */
    method CompleteRoute(judged: seq<Option<int>>)
      requires ItemsValid() && |judged| == |its| + 1
      modifies this`first, this`last, this`its, this`lengths, this`times, this`cmdFirst, this`cmdLast, this`cmds,
        this`maneuvers, its`next
      ensures ItemsValid() && CommandsValid() && Complete(its) && its[..|its| - 1] == old(its)
      ensures lengths == old(lengths) + [0] && times == old(times) + [0]
      ensures maneuvers == Maneuvers(its, Answers(its, judged))
    {
      var destination := AddItm(0, 0, false);
      MakeManeuvers(judged);
    }

    /** The items of a pass of `navigation_destroy_itms_cmds`: the first one goes. */
    method DropFirstItm() returns (next: Itm?)
      requires Linked() && its != []
      modifies this`first, this`its, this`lengths, this`times, its`prev
      ensures Linked() && its == old(its)[1..] && lengths == old(lengths)[1..] && times == old(times)[1..]
      ensures next == if its == [] then null else its[0]
    {
      var itm := first;
      next := itm.next;
      first := next;
      if first != null {
        assert first == its[1];
        first.prev := null;
      }
      its, lengths, times := its[1..], lengths[1..], times[1..];
    }

    /** The commands of that pass: the first one goes if it belongs to the item that is first now. */
    method DropCommand(next: Itm?)
      requires Linked() && CommandsValid()
      modifies this`cmdFirst, this`cmds, this`maneuvers, cmds`prev
      ensures Linked() && CommandsValid() && |cmds| <= |old(cmds)| && cmds == old(cmds)[|old(cmds)| - |cmds|..]
      ensures maneuvers == if old(maneuvers) != [] && old(maneuvers)[0].itm == next then old(maneuvers)[1..]
        else old(maneuvers)
    {
      if cmdFirst != null && cmdFirst.maneuver.itm == next {
        var cmd := cmdFirst;
        cmdFirst := cmd.next;
        if cmd.next != null {
          assert cmd.next == cmds[1];
          cmd.next.prev := null;
        }
        cmds, maneuvers := cmds[1..], maneuvers[1..];
      }
    }

    /** A pass of `navigation_destroy_itms_cmds`. */
    method DestroyFirst()
      requires Linked() && CommandsValid() && its != []
      modifies this`first, this`its, this`lengths, this`times, this`cmdFirst, this`cmds, this`maneuvers, its`prev,
        cmds`prev
      ensures Linked() && CommandsValid() && its == old(its)[1..] && lengths == old(lengths)[1..]
        && times == old(times)[1..] && maneuvers == Passed(old(its), old(maneuvers))
      ensures |cmds| <= |old(cmds)| && cmds == old(cmds)[|old(cmds)| - |cmds|..]
    {
      ghost var its0 := its;
      var next := DropFirstItm();
      assert next == if |its0| > 1 then its0[1] else null;
      DropCommand(next);
    }

    /** Where the loop of `navigation_destroy_itms_cmds` stands. */
    ghost predicate Destroyed(its0: seq<Itm>, ls0: seq<int>, ts0: seq<int>, cmds0: seq<Command>, ms0: seq<Maneuver>,
                              k: nat)
      reads this, its, cmds
    {
      && Linked() && CommandsValid() && k <= |its0| && |ls0| == |ts0| == |its0| && its == its0[k..]
        && lengths == ls0[k..] && times == ts0[k..] && |cmds| <= |cmds0| && cmds == cmds0[|cmds0| - |cmds|..]
      && maneuvers == PassedAll(its0, ms0, k)
    }

    /** A pass of that loop. */
    method DestroyStep(ghost its0: seq<Itm>, ghost ls0: seq<int>, ghost ts0: seq<int>, ghost cmds0: seq<Command>,
                       ghost ms0: seq<Maneuver>, ghost k: nat)
      requires Destroyed(its0, ls0, ts0, cmds0, ms0, k) && its != []
      modifies this`first, this`its, this`lengths, this`times, this`cmdFirst, this`cmds, this`maneuvers, its0`prev,
        cmds0`prev
      ensures Destroyed(its0, ls0, ts0, cmds0, ms0, k + 1)
    {
      PassedAllStep(its0, ms0, k);
      DestroyFirst();
    }

    /** The loop of `navigation_destroy_itms_cmds`. */
    method DestroyUpTo(end: Itm?, ghost its0: seq<Itm>, ghost ls0: seq<int>, ghost ts0: seq<int>,
                       ghost cmds0: seq<Command>, ghost ms0: seq<Maneuver>)
      returns (ghost k: nat)
      requires Destroyed(its0, ls0, ts0, cmds0, ms0, 0)
      modifies this`first, this`its, this`lengths, this`times, this`cmdFirst, this`cmds, this`maneuvers, its0`prev,
        cmds0`prev
      ensures Destroyed(its0, ls0, ts0, cmds0, ms0, k) && (first == null || first == end)
      ensures forall i :: 0 <= i < k ==> its0[i] != end
    {
      k := 0;
      while first != null && first != end
        invariant Destroyed(its0, ls0, ts0, cmds0, ms0, k) && forall i :: 0 <= i < k ==> its0[i] != end
        decreases |its0| - k
      {
        DestroyStep(its0, ls0, ts0, cmds0, ms0, k);
        k := k + 1;
      }
    }

    /** `navigation_destroy_itms_cmds`: the items in front of `end` go, all when it is not in the list. */
    method DestroyItms(end: Itm?) returns (ghost k: nat)
      requires Valid()
      modifies this`first, this`last, this`its, this`lengths, this`times, this`cmdFirst, this`cmds, this`maneuvers,
        its`prev, cmds`prev
      ensures Valid() && k <= |old(its)| == |old(lengths)| == |old(times)|
      ensures its == old(its)[k..] && lengths == old(lengths)[k..] && times == old(times)[k..]
      ensures end != null && end in old(its) ==> its != [] && its[0] == end
      ensures end == null || end !in old(its) ==> its == []
      ensures maneuvers == PassedAll(old(its), old(maneuvers), k)
    {
      k := DestroyUpTo(end, its, lengths, times, cmds, maneuvers);
      if first == null {
        last := null;
      }
    }

    /** `navigation_itm_update` of the first item, as when part of it is behind the vehicle. */
    method UpdateFirst(length: int, time: int)
      requires ItemsValid() && its != []
      modifies this`lengths, this`times, first`length, first`time
      ensures ItemsValid() && lengths == old(lengths)[0 := length] && times == old(times)[0 := time]
      ensures old(Sums(its, lengths, times, 1)) ==> Sums(its, lengths, times, 1)
    {
      if Sums(its, lengths, times, 1) {
        SumsBehindFirst(its, lengths, times, length, time);
      }
      SetFirst(length, time);
    }

    method SetFirst(length: int, time: int)
      requires ItemsValid() && its != []
      modifies this`lengths, this`times, first`length, first`time
      ensures ItemsValid() && lengths == old(lengths)[0 := length] && times == old(times)[0 := time]
    {
      assert forall i :: 0 < i < |its| ==> its[i] != first;
      first.length := length;
      first.time := time;
      lengths, times := lengths[0 := length], times[0 := time];
    }

    method SetDest(itm: Itm, len: int, time: int, count: int)
      modifies itm`destLength, itm`destTime, itm`destCount
      ensures itm.destLength == len && itm.destTime == time && itm.destCount == count
    {
      itm.destLength := len;
      itm.destCount := count;
      itm.destTime := time;
    }

    /** The sums of the first item from those of the second. */
    method SumFirst()
      requires ItemsValid() && |its| >= 2 && Sums(its, lengths, times, 1)
      modifies its`destLength, its`destTime, its`destCount
      ensures ItemsValid() && Sums(its, lengths, times, 0)
    {
      var itm := first;
      var next := itm.next;
      assert itm == its[0] && next == its[1];
      assert forall i :: 0 < i < |its| ==> its[i] != itm;
      SetDest(itm, next.destLength + itm.length, next.destTime + itm.time, next.destCount + 1);
      assert Sums(its, lengths, times, 1);
      SumsExtend(its, lengths, times, 0);
    }

    /** The sums of an item, and what they are behind it. */
    ghost predicate SummedTo(k: nat, len: int, time: int)
      reads this`its, this`lengths, this`times, its
    {
      && k <= |its| && Sums(its, lengths, times, k)
      && len == (if k < |its| then its[k].destLength else 0) && time == if k < |its| then its[k].destTime else 0
    }

    /** A pass of the loop of `calculate_dest_distance`. */
    method SumItm(itm: Itm, len: int, time: int, count: int, ghost k: nat)
      requires ItemsValid() && k < |its| && its[k] == itm && SummedTo(k + 1, len - itm.length, time - itm.time)
        && count == |its| - 1 - k
      modifies itm`destLength, itm`destTime, itm`destCount
      ensures ItemsValid() && SummedTo(k, len, time)
    {
      assert forall i :: k < i < |its| ==> its[i] != itm;
      SetDest(itm, len, time, count);
      assert Sums(its, lengths, times, k + 1);
      SumsExtend(its, lengths, times, k);
    }

    /** `calculate_dest_distance`: all sums from the back, or only the first item's from the second one's. */
    method CalculateDest(incr: bool)
      requires ItemsValid() && (incr ==> |its| >= 2 && Sums(its, lengths, times, 1))
      modifies its`destLength, its`destTime, its`destCount
      ensures ItemsValid() && Sums(its, lengths, times, 0)
    {
      if incr {
        SumFirst();
        return;
      }
      var len, time, count := 0, 0, 0;
      var itm := last;
      ghost var k: nat := |its|;
      while itm != null
        invariant ItemsValid() && SummedTo(k, len, time) && count == |its| - k
        invariant itm == if k == 0 then null else its[k - 1]
        decreases k
      {
        len := len + itm.length;
        time := time + itm.time;
        SumItm(itm, len, time, count, k - 1);
        count := count + 1;
        itm := itm.prev;
        k := k - 1;
      }
    }

    /**
     `navigation_time`: the time from one item up to another, both included, or -1 when it is not behind the
     first.
     */
    method NavigationTime(from: Itm, to: Itm?, ghost i: nat) returns (time: int, ghost j: nat)
      requires ItemsValid() && i < |its| && its[i] == from
      ensures i <= j <= |its| && (forall k :: i <= k < j ==> its[k] != to)
      ensures if j < |its| then its[j] == to && time == Sum(times, i, j + 1) else time == -1
      ensures (forall t :: t in times ==> t >= 0) ==> (time == -1 <==> to !in its[i..])
    {
      time, j := 0, i;
      var cur: Itm? := from;
      while cur != null
        invariant i <= j <= |its| && cur == (if j < |its| then its[j] else null)
        invariant (forall k :: i <= k < j ==> its[k] != to) && time == Sum(times, i, j)
        decreases |its| - j
      {
        time := time + cur.time;
        SumSplit(times, i, j, j + 1);
        if cur == to {
          break;
        }
        cur := cur.next;
        j := j + 1;
      }
      if forall t :: t in times ==> t >= 0 {
        SumIsPositive(times, i, if cur == null then j else j + 1);
      }
      NotBefore(i, j, to);
      if cur == null {
        time := -1;
      }
    }

    lemma NotBefore(i: nat, j: nat, to: Itm?)
      requires i <= j <= |its| && (forall k :: i <= k < j ==> its[k] != to) && (j < |its| ==> its[j] == to)
      ensures to in its[i..] <==> j < |its|
    {
      if j < |its| {
        assert its[i..][j - i] == to;
      }
    }
  }
}
