/**
 Which list gives way and how the target of T1 moves, in sizes and users alone.
 */
module CacheAdapts {
  import opened Basics
  import opened CacheModel
  import opened CacheInvariant

  // ----- the target

  /** `step` is the whole ratio of the other ghost list's bytes to this one's, but at least 1. */
  predicate Ratio(step: int, other: int, own: int) {
    step >= 1 && other < (step + 1) * own && (step * own <= other || step == 1)
  }

  lemma PullIsRatio(other: nat, own: nat)
    requires own > 0
    ensures Ratio(Pull(other, own), other, own)
  {
    var q := other / own;
    assert q * own <= other < (q + 1) * own;
  }

  lemma TimesGrow(a: int, b: int, own: nat)
    ensures a <= b ==> a * own <= b * own
  {
    if a <= b {
      assert (b - a) * own >= 0;
    }
  }

  lemma RatioOnce(step: int, step': int, other: nat, own: nat)
    requires own > 0 && Ratio(step, other, own) && Ratio(step', other, own)
    ensures step == step'
  {
    TimesGrow(step + 1, step', own);
    TimesGrow(step' + 1, step, own);
  }

  /** A ghost's list has bytes. */
  lemma {:induction false} GhostsHaveBytes(c: Config, list: seq<Entry>, id: Id)
    requires c.header > 0 && GhostsOk(c, list) && Has(list, id)
    ensures Sum(list) > 0
  {
    assert list[0] in list;
  }

  /** A target is `step` up from another one, as far as the capacity allows. */
  predicate Raised(c: Config, target: int, step: int, target': int) {
    && target <= target' <= c.capacity
    && (target' == target + step || (target' == c.capacity && target + step > c.capacity))
  }

  predicate Lowered(target: int, step: int, target': int) {
    0 <= target' <= target && (target' == target - step || (target' == 0 && target - step < 0))
  }

  lemma ReplaceKeepsTarget(c: Config, s: State)
    ensures Replace(c, s).target == s.target
  {
  }

  /** A ghost of B1 found again raises the target: T1 was too small. */
  lemma FoundInB1(c: Config, s: State, id: Id, target: int)
    requires Ok(c, s) && c.header > 0 && Has(s.b1, id) && target == Lookup(c, s, id).state.target
    ensures Sum(s.b1) > 0 && exists step :: Ratio(step, Sum(s.b2), Sum(s.b1)) && Raised(c, s.target, step, target)
    ensures target == c.capacity || target > s.target
  {
    OnlyOneHas(c, s, id);
    GhostsHaveBytes(c, s.b1, id);
    PullIsRatio(Sum(s.b2), Sum(s.b1));
    ReplaceKeepsTarget(c, Adapt(c, s, id));
    assert Raised(c, s.target, Pull(Sum(s.b2), Sum(s.b1)), target);
  }

  /** A ghost of B2 found again lowers it: T2 was too small. */
  lemma FoundInB2(c: Config, s: State, id: Id, target: int)
    requires Ok(c, s) && c.header > 0 && Has(s.b2, id) && target == Lookup(c, s, id).state.target
    ensures Sum(s.b2) > 0 && exists step :: Ratio(step, Sum(s.b1), Sum(s.b2)) && Lowered(s.target, step, target)
    ensures target == 0 || target < s.target
  {
    OnlyOneHas(c, s, id);
    GhostsHaveBytes(c, s.b2, id);
    PullIsRatio(Sum(s.b1), Sum(s.b2));
    ReplaceKeepsTarget(c, Adapt(c, s, id));
    assert Lowered(s.target, Pull(Sum(s.b1), Sum(s.b2)), target);
  }

  /** Nothing else moves it. */
  lemma TargetStays(c: Config, s: State, id: Id, e: Entry)
    ensures !Has(s.b1, id) && !Has(s.b2, id) ==> Lookup(c, s, id).state.target == s.target
    ensures s.insert == Some(T1) || s.insert == Some(T2) ==> Insert(c, s, e).target == s.target
    ensures Release(s, id).target == s.target && Flush(s, id).target == s.target
  {
    ReplaceKeepsTarget(c, s);
    ReplaceKeepsTarget(c, s.(b1 := Rotated(s.b1)));
    ReplaceKeepsTarget(c, s.(b2 := Rotated(s.b2)));
  }

  // ----- which list gives way

  ghost predicate HasUnused(list: seq<Entry>) {
    exists e :: e in list && e.usage == 0
  }

  /** Position `k` holds the least recently used entry without users, and `rest` is what removing it leaves. */
  predicate LastFree(list: seq<Entry>, k: int, rest: seq<Entry>) {
    && 0 <= k < |list| && list[k].usage == 0 && (forall i :: k < i < |list| ==> list[i].usage != 0)
    && rest == list[k + 1..] + list[..k]
  }

  /** `list'` is `list` without that entry, whose identifier heads `ghosts'`. */
  ghost predicate GaveWay(c: Config, list: seq<Entry>, list': seq<Entry>, ghosts: seq<Entry>, ghosts': seq<Entry>) {
    exists k :: LastFree(list, k, list') && ghosts' == [Entry(list[k].id, c.header, 0, [])] + ghosts
  }

  /** `list'` is `list` without that entry, if it has one. */
  ghost predicate Dropped(list: seq<Entry>, list': seq<Entry>) {
    if HasUnused(list) then exists k :: LastFree(list, k, list') else list' == list
  }

  lemma VictimGivesWay(c: Config, list: seq<Entry>, ghosts: seq<Entry>)
    ensures Victim(list).Some? <==> HasUnused(list)
    ensures Victim(list).Some? ==> GaveWay(c, list, Rotated(list), ghosts, [Trim(c, Victim(list).value)] + ghosts)
    ensures Dropped(list, Rotated(list))
  {
    LruEviction(list);
    LastUnusedIsLast(list);
    assert Victim(list).Some? ==> LastFree(list, LastUnused(list), Rotated(list));
  }

  /** T1 has to give way when it is not empty and has reached its target, and T2 otherwise. */
  predicate T1First(s: State) {
    Sum(s.t1) > 0 && Sum(s.t1) >= s.target
  }

  /** Replacing turns one entry into a ghost, of the list that has to give way unless all in it are in use. */
  ghost predicate Replaced(c: Config, s: State, t: State) {
    && t.insert == s.insert && t.target == s.target
    && if HasUnused(s.t1) && (T1First(s) || !HasUnused(s.t2)) then
        GaveWay(c, s.t1, t.t1, s.b1, t.b1) && t.t2 == s.t2 && t.b2 == s.b2
      else if HasUnused(s.t2) then
        GaveWay(c, s.t2, t.t2, s.b2, t.b2) && t.t1 == s.t1 && t.b1 == s.b1
      else t == s
  }

  lemma ReplaceChooses(c: Config, s: State)
    ensures Replaced(c, s, Replace(c, s))
  {
    VictimGivesWay(c, s.t1, s.b1);
    VictimGivesWay(c, s.t2, s.b2);
  }

  /** Room is made when T1 and B1, or else all lists, fill the capacity; ghosts go when their lists are too long. */
  ghost predicate RoomMade(c: Config, s: State, t: State) {
    var t1, l1 := Sum(s.t1), Sum(s.t1) + Sum(s.b1);
    var all := l1 + Sum(s.t2) + Sum(s.b2);
    if t1 >= c.capacity then Dropped(s.t1, t.t1) && t == s.(t1 := t.t1)
    else if l1 >= c.capacity then exists b1 :: Dropped(s.b1, b1) && Replaced(c, s.(b1 := b1), t)
    else if all >= 2 * c.capacity then exists b2 :: Dropped(s.b2, b2) && Replaced(c, s.(b2 := b2), t)
    else if all >= c.capacity then Replaced(c, s, t)
    else t == s
  }

  lemma MakeRoomChooses(c: Config, s: State)
    ensures RoomMade(c, s, MakeRoom(c, s))
  {
    VictimGivesWay(c, s.t1, []);
    VictimGivesWay(c, s.b1, []);
    VictimGivesWay(c, s.b2, []);
    ReplaceChooses(c, s);
    ReplaceChooses(c, s.(b1 := Rotated(s.b1)));
    ReplaceChooses(c, s.(b2 := Rotated(s.b2)));
  }

  // ----- where entries go

  /** The entries with other identifiers, in their order. */
  function Others(list: seq<Entry>, id: Id): seq<Entry> {
    if list == [] then [] else (if list[0].id == id then [] else [list[0]]) + Others(list[1..], id)
  }

  lemma {:induction false} OthersAll(list: seq<Entry>, id: Id)
    requires !Has(list, id)
    ensures Others(list, id) == list
  {
    if list != [] {
      OthersAll(list[1..], id);
    }
  }

  lemma WithoutStep(list: seq<Entry>, id: Id)
    requires list != [] && list[0].id != id
    ensures Without(list, id) == [list[0]] + Without(list[1..], id)
  {
    var k := Find(list[1..], id);
    assert Find(list, id) == k + 1;
    if k < |list| - 1 {
      assert list[..k + 1] == [list[0]] + list[1..][..k] && list[k + 2..] == list[1..][k + 1..];
    }
  }

  lemma {:induction false} WithoutIsOthers(list: seq<Entry>, id: Id)
    requires Ids(list)[id] <= 1
    ensures Without(list, id) == Others(list, id)
  {
    if list != [] {
      if list[0].id == id {
        HasIsIds(list[1..], id);
        OthersAll(list[1..], id);
      } else {
        WithoutIsOthers(list[1..], id);
        WithoutStep(list, id);
      }
    }
  }

  /** The same entry with one user more. */
  predicate UsedOnceMore(e: Entry, e': Entry) {
    e'.id == e.id && e'.size == e.size && e'.data == e.data && e'.usage == e.usage + 1
  }

  /** A hit in T1 or T2 brings the entry to the front of T2. */
  lemma HitGoesToFront(c: Config, s: State, e: Entry, t: State)
    requires Ok(c, s) && Resident(s, e) && t == Lookup(c, s, e.id).state
    ensures t.t2 != [] && UsedOnceMore(e, t.t2[0]) && t.t2[1..] == Others(s.t2, e.id) && t.t1 == Others(s.t1, e.id)
    ensures t.b1 == s.b1 && t.b2 == s.b2 && t.insert == s.insert
  {
    HasIsIds(s.t1, e.id);
    HasIsIds(s.t2, e.id);
    OnlyOneHas(c, s, e.id);
    WithoutIsOthers(s.t1, e.id);
    WithoutIsOthers(s.t2, e.id);
    if e in s.t1 {
      FoundIsOnly(s.t1, e);
    } else {
      FoundIsOnly(s.t2, e);
    }
  }

  /** A state without a ghost, and with another target. */
  function Forgotten(s: State, id: Id, target: int): State {
    s.(b1 := Others(s.b1, id), b2 := Others(s.b2, id), target := target)
  }

  /** What is inserted after a miss goes to T2 when it was a ghost, and to T1 when it was not known. */
  lemma MissChoosesList(c: Config, s: State, id: Id, t: State)
    requires Ok(c, s) && Lookup(c, s, id) == Found(t, None)
    ensures t.insert == Some(if Has(s.b1, id) || Has(s.b2, id) then T2 else T1)
    ensures Count(s, id) == 0 ==> t == s.(insert := Some(T1))
    ensures Count(s, id) != 0 ==> Replaced(c, Forgotten(s, id, t.target), t.(insert := s.insert))
  {
    OnlyOneHas(c, s, id);
    if Has(s.b1, id) || Has(s.b2, id) {
      WithoutIsOthers(s.b1, id);
      WithoutIsOthers(s.b2, id);
      var u := Adapt(c, s, id);
      OthersAll(if Has(s.b1, id) then s.b2 else s.b1, id);
      ReplaceKeepsTarget(c, u);
      ReplaceChooses(c, u);
      assert u == Forgotten(s, id, t.target);
    }
  }

  /** A new entry heads T1, in the room made, or T2, for which none is made. */
  lemma InsertGoesToFront(c: Config, s: State, e: Entry, t: State)
    requires (s.insert == Some(T1) || s.insert == Some(T2)) && t == Insert(c, s, e)
    ensures s.insert == Some(T1) ==> t.t1 != [] && t.t1[0] == e && RoomMade(c, s, t.(t1 := t.t1[1..]))
    ensures s.insert == Some(T2) ==> t.t2 != [] && t.t2[0] == e && t.(t2 := t.t2[1..]) == s
  {
    MakeRoomChooses(c, s);
    if s.insert == Some(T1) {
      assert t.(t1 := t.t1[1..]) == MakeRoom(c, s);
    }
  }
}
