/**
 How many bytes the lists of the cache hold, for entries of any size, used or not: what each operation
 adds and frees, and exactly when a run stays within a limit.
 */
module CacheBounds {
  import opened Basics
  import opened CacheModel
  import opened CacheInvariant

  // ----- bytes held, for entries of any size, used or not

  /** What is bounded: the resident entries, T1 with its ghosts, or all four lists. */
  datatype Bound = Residents | Recent | Everything

  function Bytes(b: Bound, s: State): nat {
    match b
    case Residents => Sum(s.t1) + Sum(s.t2)
    case Recent => Sum(s.t1) + Sum(s.b1)
    case Everything => Sum(s.t1) + Sum(s.t2) + Sum(s.b1) + Sum(s.b2)
  }

  function Limit(b: Bound, c: Config): nat {
    if b == Everything then 2 * c.capacity else c.capacity
  }

  function SizeOf(victim: Option<Entry>): nat {
    if victim.None? then 0 else victim.value.size
  }

  /** What a list loses with the least recently used entry nobody uses. */
  lemma RotatedSum(list: seq<Entry>)
    ensures Sum(Rotated(list)) + SizeOf(Victim(list)) == Sum(list)
  {
    var k := LastUnused(list);
    if k >= 0 {
      SumWithout(list, k);
      SumConcat(list[..k], list[k + 1..]);
      SumConcat(list[k + 1..], list[..k]);
    }
  }

  /** Whether T1 gives way when something is to be replaced: T2 does otherwise, if it can. */
  predicate FromT1(s: State) {
    Victim(s.t1).Some? && (Sum(s.t1) >= Max(1, s.target) || Victim(s.t2).None?)
  }

  /** What turning one resident entry into a ghost frees. */
  function FreedByReplacing(b: Bound, c: Config, s: State): int {
    var lost := if FromT1(s) then Victim(s.t1) else Victim(s.t2);
    if lost.None? then 0
    else if b == Residents then lost.value.size
    else if b == Everything || FromT1(s) then lost.value.size - c.header
    else 0
  }

  /** What making room for an entry frees, by the guards of `cache_insert`. */
  function Freed(b: Bound, c: Config, s: State): int {
    if s.insert != Some(T1) then 0
    else if Bytes(Recent, s) >= c.capacity then
      if Sum(s.t1) < c.capacity then (if b == Residents then 0 else SizeOf(Victim(s.b1))) + FreedByReplacing(b, c, s)
      else SizeOf(Victim(s.t1))
    else if Bytes(Everything, s) >= c.capacity then
      (if b == Everything && Bytes(b, s) >= 2 * c.capacity then SizeOf(Victim(s.b2)) else 0) + FreedByReplacing(b, c, s)
    else 0
  }

  /** What the new entry adds. */
  function Added(b: Bound, s: State, e: Entry): nat {
    if b == Recent && s.insert == Some(T2) then 0 else e.size
  }

  lemma SumMore(e: Entry, list: seq<Entry>)
    ensures Sum([e] + list) == e.size + Sum(list)
  {
    assert ([e] + list)[1..] == list;
  }

  lemma ReplaceChoice(c: Config, s: State)
    ensures FromT1(s) ==> Replace(c, s) == MoveT1(c, s)
    ensures !FromT1(s) ==> Replace(c, s) == if Victim(s.t2).Some? then MoveT2(c, s) else s
  {
  }

  lemma ReplaceBytes(b: Bound, c: Config, s: State, t: State)
    requires t == Replace(c, s)
    ensures Bytes(b, t) + FreedByReplacing(b, c, s) == Bytes(b, s)
  {
    ReplaceChoice(c, s);
    if FromT1(s) {
      RotatedSum(s.t1);
      SumMore(Trim(c, Victim(s.t1).value), s.b1);
    } else if Victim(s.t2).Some? {
      RotatedSum(s.t2);
      SumMore(Trim(c, Victim(s.t2).value), s.b2);
    }
  }

  lemma DropB1Bytes(b: Bound, c: Config, s: State, t: State)
    requires t == Replace(c, s.(b1 := Rotated(s.b1)))
    ensures Bytes(b, t) + FreedByReplacing(b, c, s)
      + (if b == Residents then 0 else SizeOf(Victim(s.b1))) == Bytes(b, s)
  {
    RotatedSum(s.b1);
    ReplaceBytes(b, c, s.(b1 := Rotated(s.b1)), t);
  }

  lemma DropB2Bytes(b: Bound, c: Config, s: State, t: State)
    requires t == Replace(c, s.(b2 := Rotated(s.b2)))
    ensures Bytes(b, t) + FreedByReplacing(b, c, s)
      + (if b == Everything then SizeOf(Victim(s.b2)) else 0) == Bytes(b, s)
  {
    RotatedSum(s.b2);
    ReplaceBytes(b, c, s.(b2 := Rotated(s.b2)), t);
  }

  lemma MakeRoomBytes(b: Bound, c: Config, s: State, t: State)
    requires t == MakeRoom(c, s) && s.insert == Some(T1)
    ensures Bytes(b, t) + Freed(b, c, s) == Bytes(b, s)
  {
    if Bytes(Recent, s) >= c.capacity {
      if Sum(s.t1) < c.capacity {
        DropB1Bytes(b, c, s, t);
      } else {
        RotatedSum(s.t1);
      }
    } else if Bytes(Everything, s) >= c.capacity {
      if Bytes(Everything, s) >= 2 * c.capacity {
        DropB2Bytes(b, c, s, t);
      } else {
        ReplaceBytes(b, c, s, t);
      }
    }
  }

  /**
   Conservation: an insertion adds the new entry's bytes and frees what the guards say, in each of the three
   counts.
   */
  lemma InsertBytes(b: Bound, c: Config, s: State, e: Entry, t: State)
    requires (s.insert == Some(T1) || s.insert == Some(T2)) && t == Insert(c, s, e)
    ensures Bytes(b, t) + Freed(b, c, s) == Bytes(b, s) + Added(b, s, e)
  {
    if s.insert == Some(T1) {
      var m := MakeRoom(c, s);
      MakeRoomBytes(b, c, s, m);
      SumMore(e, m.t1);
    } else {
      SumMore(e, s.t2);
    }
  }

  /** Exactly when an insertion leaves a count within its limit. */
  lemma InsertFits(b: Bound, c: Config, s: State, e: Entry)
    requires s.insert == Some(T1) || s.insert == Some(T2)
    ensures Bytes(b, Insert(c, s, e)) <= Limit(b, c) <==> Bytes(b, s) + Added(b, s, e) <= Limit(b, c) + Freed(b, c, s)
  {
    InsertBytes(b, c, s, e, Insert(c, s, e));
  }

  lemma WithoutBytes(list: seq<Entry>, id: Id)
    ensures Sum(Without(list, id)) <= Sum(list)
    ensures Has(list, id) ==> Sum(list) == Sum(Without(list, id)) + Get(list, id).size
  {
    if Has(list, id) {
      SumWithout(list, Find(list, id));
    }
  }

  lemma {:induction false} SumReleased(list: seq<Entry>, id: Id)
    ensures Sum(Release'(list, id)) == Sum(list)
  {
    if list != [] {
      if list[0].id == id {
        assert Release'(list, id)[1..] == list[1..];
      } else {
        SumReleased(list[1..], id);
        if Has(list[1..], id) {
          assert Release'(list, id)[1..] == Release'(list[1..], id);
        }
      }
    }
  }

  /** A hit moves bytes from T1 to T2 at most. */
  lemma HitBytes(b: Bound, s: State, id: Id)
    requires Has(s.t1, id) || Has(s.t2, id)
    ensures Bytes(b, Hit(s, id)) <= Bytes(b, s)
  {
    WithoutBytes(s.t1, id);
    WithoutBytes(s.t2, id);
    var t := Hit(s, id);
    assert t.t2[1..] == if Has(s.t1, id) then s.t2 else Without(s.t2, id);
  }

  /** A lookup adds no bytes to any count. */
  lemma LookupBytes(b: Bound, c: Config, s: State, id: Id, t: State)
    requires Ok(c, s) && t == Lookup(c, s, id).state
    ensures Bytes(b, t) <= Bytes(b, s)
  {
    if Has(s.t1, id) || Has(s.t2, id) {
      HitBytes(b, s, id);
    } else if Has(s.b1, id) || Has(s.b2, id) {
      var a := Adapt(c, s, id);
      WithoutBytes(s.b1, id);
      WithoutBytes(s.b2, id);
      AdaptKeeps(c, s, id, a);
      ReplaceBytes(b, c, a, Replace(c, a));
      FreedIsPositive(b, c, a);
    }
  }

  lemma FreedIsPositive(b: Bound, c: Config, s: State)
    requires ResidentsOk(c, s.t1) && ResidentsOk(c, s.t2)
    ensures FreedByReplacing(b, c, s) >= 0
  {
    VictimIsOk(c, s.t1);
    VictimIsOk(c, s.t2);
  }

  lemma VictimIsOk(c: Config, list: seq<Entry>)
    requires ResidentsOk(c, list)
    ensures Victim(list).Some? ==> Victim(list).value.size >= c.header
  {
    var k := LastUnused(list);
    if k >= 0 {
      assert list[k] in list;
    }
  }

  /** A release keeps every count, and a flush raises none. */
  lemma ReleaseFlushBytes(b: Bound, s: State, id: Id)
    ensures Bytes(b, Release(s, id)) == Bytes(b, s) && Bytes(b, Flush(s, id)) <= Bytes(b, s)
  {
    SumReleased(s.t1, id);
    SumReleased(s.t2, id);
    WithoutBytes(s.t1, id);
    WithoutBytes(s.b1, id);
    WithoutBytes(s.t2, id);
    WithoutBytes(s.b2, id);
  }

  /** Whether an insertion fits, by what the cache is before it. */
  ghost predicate Fits(b: Bound, c: Config, s: State, e: Entry) {
    Bytes(b, s) + Added(b, s, e) <= Limit(b, c) + Freed(b, c, s)
  }

  ghost predicate InsertsFit(b: Bound, c: Config, hs: seq<History>) {
    forall i: nat, id: Id, data: seq<int> :: 0 < i < |hs| && Applied(c, hs[i - 1], InsertOp(id, data), hs[i]) ==>
      Fits(b, c, hs[i - 1].state, NewEntry(c, id, data))
  }

  /** Only an insertion can take a count over its limit, and only one that does not fit. */
  lemma StepFits(b: Bound, c: Config, h: History, op: Op, h': History)
    requires Faithful(c, h) && Applied(c, h, op, h')
    ensures !op.InsertOp? ==> Bytes(b, h'.state) <= Bytes(b, h.state)
    ensures op.InsertOp? ==> (Bytes(b, h'.state) <= Limit(b, c) <==> Fits(b, c, h.state, NewEntry(c, op.id, op.data)))
  {
    match op
    case LookupOp(id) => LookupBytes(b, c, h.state, id, h'.state);
    case InsertOp(id, data) => InsertFits(b, c, h.state, NewEntry(c, id, data));
    case ReleaseOp(id) => ReleaseFlushBytes(b, h.state, id);
    case FlushOp(id) => ReleaseFlushBytes(b, h.state, id);
  }

  /** A run stays within a limit exactly when each of its insertions fits. */
  lemma RunFits(b: Bound, c: Config, hs: seq<History>)
    requires Run(c, hs)
    ensures (forall i {:trigger hs[i]} :: 0 <= i < |hs| ==> Bytes(b, hs[i].state) <= Limit(b, c)) <==>
      InsertsFit(b, c, hs)
  {
    if InsertsFit(b, c, hs) {
      forall i: nat | i < |hs| ensures Bytes(b, hs[i].state) <= Limit(b, c) {
        FittingRun(b, c, hs, i);
      }
    }
    if forall i {:trigger hs[i]} :: 0 <= i < |hs| ==> Bytes(b, hs[i].state) <= Limit(b, c) {
      forall i: nat, id: Id, data: seq<int> | 0 < i < |hs| && Applied(c, hs[i - 1], InsertOp(id, data), hs[i])
        ensures Fits(b, c, hs[i - 1].state, NewEntry(c, id, data))
      {
        InsertOfRun(b, c, hs, i, id, data);
      }
    }
  }

  lemma InsertOfRun(b: Bound, c: Config, hs: seq<History>, i: nat, id: Id, data: seq<int>)
    requires 0 < i < |hs| && Applied(c, hs[i - 1], InsertOp(id, data), hs[i])
    requires Bytes(b, hs[i].state) <= Limit(b, c)
    ensures Fits(b, c, hs[i - 1].state, NewEntry(c, id, data))
  {
    InsertFits(b, c, hs[i - 1].state, NewEntry(c, id, data));
  }

  lemma FittingStep(b: Bound, c: Config, h: History, h': History)
    requires Faithful(c, h) && Step(c, h, h') && Bytes(b, h.state) <= Limit(b, c)
    requires forall id, data :: Applied(c, h, InsertOp(id, data), h') ==> Fits(b, c, h.state, NewEntry(c, id, data))
    ensures Bytes(b, h'.state) <= Limit(b, c)
  {
    var op :| Applied(c, h, op, h');
    StepFits(b, c, h, op, h');
  }

  lemma {:induction false} FittingRun(b: Bound, c: Config, hs: seq<History>, i: nat)
    requires Run(c, hs) && InsertsFit(b, c, hs) && i < |hs|
    ensures Bytes(b, hs[i].state) <= Limit(b, c)
  {
    if i > 0 {
      FittingRun(b, c, hs, i - 1);
      RunIsFaithful(c, hs, i - 1);
      FittingStep(b, c, hs[i - 1], hs[i]);
    }
  }
}
