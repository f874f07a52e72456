/**
 What every operation of the cache keeps, and what a lookup returns over whole runs.
 */
module CacheInvariant {
  import opened Basics
  import opened CacheModel

  /** How often each identifier occurs in a list. */
  ghost function Ids(list: seq<Entry>): multiset<Id> {
    if list == [] then multiset{} else multiset{list[0].id} + Ids(list[1..])
  }

  /** How often an identifier occurs in all four lists. */
  ghost function Count(s: State, id: Id): nat {
    Ids(s.t1)[id] + Ids(s.b1)[id] + Ids(s.t2)[id] + Ids(s.b2)[id]
  }

  ghost predicate SameIds(s: State, t: State) {
    forall id :: Count(t, id) == Count(s, id)
  }

  ghost predicate FewerIds(s: State, t: State) {
    forall id :: Count(t, id) <= Count(s, id)
  }

  ghost predicate GhostsOk(c: Config, list: seq<Entry>) {
    forall e :: e in list ==> e.usage == 0 && e.size == c.header && e.data == []
  }

  ghost predicate ResidentsOk(c: Config, list: seq<Entry>) {
    forall e :: e in list ==> e.usage >= 0 && e.size == c.header + |e.data|
  }

  /** The four lists are disjoint in identifiers, ghosts hold no data and no users, and the target is in range. */
  ghost predicate Ok(c: Config, s: State) {
    && (forall id :: Count(s, id) <= 1)
    && ResidentsOk(c, s.t1) && ResidentsOk(c, s.t2) && GhostsOk(c, s.b1) && GhostsOk(c, s.b2)
    && 0 <= s.target <= c.capacity
  }

  ghost predicate Resident(s: State, e: Entry) {
    e in s.t1 || e in s.t2
  }

  // ----- identifiers of rearranged lists

  lemma {:induction false} IdsConcat(a: seq<Entry>, b: seq<Entry>)
    ensures Ids(a + b) == Ids(a) + Ids(b)
  {
    if a == [] {
      assert a + b == b;
    } else {
      assert (a + b)[1..] == a[1..] + b;
      IdsConcat(a[1..], b);
    }
  }

  lemma IdsSplit(list: seq<Entry>, k: nat, x: Entry, before: seq<Entry>, after: seq<Entry>)
    requires k < |list| && x == list[k] && before == list[..k] && after == list[k + 1..]
    ensures Ids(list) == Ids(before) + multiset{x.id} + Ids(after)
    ensures Ids(before + after) == Ids(before) + Ids(after) == Ids(after + before)
  {
    var rest := list[k..];
    assert list == before + rest;
    IdsConcat(before, rest);
    IdsFirst(x, after, rest);
    IdsConcat(before, after);
    IdsConcat(after, before);
  }

  lemma IdsFirst(x: Entry, after: seq<Entry>, rest: seq<Entry>)
    requires |rest| > 0 && rest[0] == x && rest[1..] == after
    ensures Ids(rest) == multiset{x.id} + Ids(after)
  {
  }

  lemma MembersSplit(list: seq<Entry>, k: nat, x: Entry, before: seq<Entry>, after: seq<Entry>)
    requires k < |list| && x == list[k] && before == list[..k] && after == list[k + 1..]
    ensures forall e :: e in list <==> e == x || e in before || e in after
  {
    forall e | e in list ensures e == x || e in before || e in after {
      var i :| 0 <= i < |list| && list[i] == e;
      if i < k {
        assert before[i] == e;
      } else if i > k {
        assert after[i - k - 1] == e;
      }
    }
  }

  lemma {:induction false} HasIsIds(list: seq<Entry>, id: Id)
    ensures Has(list, id) <==> id in Ids(list)
    ensures Has(list, id) <==> exists e :: e in list && e.id == id
  {
    if list != [] {
      HasIsIds(list[1..], id);
      assert forall e :: e in list <==> e == list[0] || e in list[1..];
    }
  }

  /** An entry whose identifier occurs once is the one found. */
  lemma {:induction false} FoundIsOnly(list: seq<Entry>, e: Entry)
    requires e in list && Ids(list)[e.id] <= 1
    ensures Has(list, e.id) && Get(list, e.id) == e
  {
    if list[0].id == e.id {
      if e in list[1..] {
        HasIsIds(list[1..], e.id);
      }
    } else {
      FoundIsOnly(list[1..], e);
    }
  }

  /** An identifier that occurs once is found where it is. */
  lemma {:induction false} FindIsOnly(list: seq<Entry>, k: nat)
    requires k < |list| && Ids(list)[list[k].id] <= 1
    ensures Find(list, list[k].id) == k
  {
    var id := list[k].id;
    if k > 0 {
      assert list[1..][k - 1] == list[k];
      HasIsIds(list[1..], id);
      FindIsOnly(list[1..], k - 1);
    }
  }

  /** An identifier is in one list at most. */
  lemma OnlyOneHas(c: Config, s: State, id: Id)
    requires Ok(c, s)
    ensures Has(s.t1, id) ==> !Has(s.b1, id) && !Has(s.t2, id) && !Has(s.b2, id)
    ensures Has(s.b1, id) ==> !Has(s.t2, id) && !Has(s.b2, id)
    ensures Has(s.t2, id) ==> !Has(s.b2, id)
    ensures Ids(s.t1)[id] <= 1 && Ids(s.b1)[id] <= 1 && Ids(s.t2)[id] <= 1 && Ids(s.b2)[id] <= 1
    ensures Count(s, id) == 0 <==> !Has(s.t1, id) && !Has(s.b1, id) && !Has(s.t2, id) && !Has(s.b2, id)
  {
    assert Count(s, id) <= 1;
    HasIsIds(s.t1, id);
    HasIsIds(s.b1, id);
    HasIsIds(s.t2, id);
    HasIsIds(s.b2, id);
  }

  lemma WithoutIds(list: seq<Entry>, id: Id)
    requires Has(list, id)
    ensures forall x :: Ids(list)[x] == Ids(Without(list, id))[x] + if x == id then 1 else 0
    ensures forall e :: e in Without(list, id) ==> e in list
    ensures forall e :: e in list && e.id != id ==> e in Without(list, id)
  {
    var k := Find(list, id);
    IdsSplit(list, k, list[k], list[..k], list[k + 1..]);
    MembersSplit(list, k, list[k], list[..k], list[k + 1..]);
  }

  /** Evicting takes the victim's identifier out and keeps every other entry. */
  lemma RotatedIds(list: seq<Entry>)
    requires Victim(list).Some?
    ensures Ids(list) == Ids(Rotated(list)) + multiset{Victim(list).value.id}
    ensures forall e :: e in Rotated(list) ==> e in list
    ensures Victim(list).value in list && Victim(list).value.usage == 0
    ensures forall e :: e in list && e != Victim(list).value ==> e in Rotated(list)
  {
    var k := LastUnused(list);
    LastUnusedIsLast(list);
    IdsSplit(list, k, list[k], list[..k], list[k + 1..]);
    MembersSplit(list, k, list[k], list[..k], list[k + 1..]);
  }

  /** The victim sits at `k`, everything behind it is in use, and just that moves to the front. */
  ghost predicate EvictedAt(list: seq<Entry>, k: nat)
    requires k < |list|
  {
    && Victim(list) == Some(list[k]) && list[k].usage == 0
    && (forall i :: k < i < |list| ==> list[i].usage != 0)
    && Rotated(list) == list[k + 1..] + list[..k]
  }

  /** `cache_remove_lru`: the victim is the least recently used entry nobody uses; only in-use entries move. */
  lemma LruEviction(list: seq<Entry>)
    ensures Victim(list).None? <==> forall e :: e in list ==> e.usage != 0
    ensures Victim(list).None? ==> Rotated(list) == list
    ensures Victim(list).Some? ==> exists k :: 0 <= k < |list| && EvictedAt(list, k)
  {
    LastUnusedIsLast(list);
    var k := LastUnused(list);
    if k >= 0 {
      assert list[k] in list && EvictedAt(list, k);
    }
  }

  // ----- what each operation keeps

  /** No entry gains data, and the entries in use stay exactly as they are. */
  ghost predicate Spares(s: State, t: State) {
    && (forall e :: Resident(t, e) ==> Resident(s, e))
    && (forall e :: Resident(s, e) && e.usage != 0 ==> Resident(t, e))
  }

  lemma MoveT1Keeps(c: Config, s: State, t: State)
    requires Ok(c, s) && Victim(s.t1).Some? && t == MoveT1(c, s)
    ensures Ok(c, t) && SameIds(s, t) && Spares(s, t)
  {
    RotatedIds(s.t1);
    assert t.b1[1..] == s.b1;
    assert forall id :: Count(t, id) == Count(s, id);
  }

  lemma MoveT2Keeps(c: Config, s: State, t: State)
    requires Ok(c, s) && Victim(s.t2).Some? && t == MoveT2(c, s)
    ensures Ok(c, t) && SameIds(s, t) && Spares(s, t)
  {
    RotatedIds(s.t2);
    assert t.b2[1..] == s.b2;
    assert forall id :: Count(t, id) == Count(s, id);
  }

  lemma ReplaceKeeps(c: Config, s: State, t: State)
    requires Ok(c, s) && t == Replace(c, s)
    ensures Ok(c, t) && SameIds(s, t) && Spares(s, t)
  {
    if t != s {
      if Victim(s.t1).Some? && t == MoveT1(c, s) {
        MoveT1Keeps(c, s, t);
      } else {
        MoveT2Keeps(c, s, t);
      }
    }
  }

  /** Dropping the victim of any one list. */
  lemma EvictKeeps(c: Config, s: State, t: State)
    requires Ok(c, s)
    requires t == s.(t1 := Rotated(s.t1)) || t == s.(b1 := Rotated(s.b1)) || t == s.(b2 := Rotated(s.b2))
    ensures Ok(c, t) && FewerIds(s, t) && Spares(s, t)
  {
    RotatedSubset(s.t1);
    RotatedSubset(s.b1);
    RotatedSubset(s.b2);
    assert forall id :: Count(t, id) <= Count(s, id);
  }

  lemma RotatedSubset(list: seq<Entry>)
    ensures Ids(Rotated(list)) <= Ids(list)
    ensures forall e :: e in Rotated(list) ==> e in list
    ensures forall e :: e in list && e.usage != 0 ==> e in Rotated(list)
  {
    if Victim(list).Some? {
      RotatedIds(list);
    }
  }

  lemma MakeRoomKeeps(c: Config, s: State, t: State)
    requires Ok(c, s) && t == MakeRoom(c, s)
    ensures Ok(c, t) && FewerIds(s, t) && Spares(s, t)
  {
    if t == s {
    } else if t == s.(t1 := Rotated(s.t1)) {
      EvictKeeps(c, s, t);
    } else if t == Replace(c, s) {
      ReplaceKeeps(c, s, t);
    } else {
      var m := if Sum(s.t1) + Sum(s.b1) >= c.capacity then s.(b1 := Rotated(s.b1)) else s.(b2 := Rotated(s.b2));
      EvictKeeps(c, s, m);
      ReplaceKeeps(c, m, t);
    }
  }

  /** The entry a hit returns has gone to the front of T2 with one more user; the other residents stay. */
  lemma HitKeeps(c: Config, s: State, id: Id, e: Entry, t: State)
    requires Ok(c, s) && (Has(s.t1, id) || Has(s.t2, id)) && t == Hit(s, id)
    requires e == if Has(s.t1, id) then Get(s.t1, id) else Get(s.t2, id)
    ensures Ok(c, t) && SameIds(s, t)
    ensures Resident(s, e) && e.id == id && t.t2 != [] && t.t2[0] == Used(e, 1)
    ensures forall x :: Resident(t, x) ==> x == Used(e, 1) || Resident(s, x)
    ensures forall x :: Resident(s, x) && x.id != id ==> Resident(t, x)
  {
    if Has(s.t1, id) {
      WithoutIds(s.t1, id);
    } else {
      WithoutIds(s.t2, id);
    }
    assert t.t2[1..] == if Has(s.t1, id) then s.t2 else Without(s.t2, id);
    assert forall x :: Count(t, x) == Count(s, x);
  }

  lemma ForgetB1Keeps(c: Config, s: State, id: Id, target: int, rest: seq<Entry>, t: State)
    requires Ok(c, s) && 0 <= target <= c.capacity && Has(s.b1, id) && rest == Without(s.b1, id)
    requires t == s.(target := target, b1 := rest)
    ensures Ok(c, t) && Count(t, id) == 0 && FewerIds(s, t) && Spares(s, t)
  {
    WithoutIds(s.b1, id);
    assert forall x :: Count(s, x) == Count(t, x) + if x == id then 1 else 0;
    assert Count(s, id) <= 1;
  }

  lemma ForgetB2Keeps(c: Config, s: State, id: Id, target: int, rest: seq<Entry>, t: State)
    requires Ok(c, s) && 0 <= target <= c.capacity && Has(s.b2, id) && rest == Without(s.b2, id)
    requires t == s.(target := target, b2 := rest)
    ensures Ok(c, t) && Count(t, id) == 0 && FewerIds(s, t) && Spares(s, t)
  {
    WithoutIds(s.b2, id);
    assert forall x :: Count(s, x) == Count(t, x) + if x == id then 1 else 0;
    assert Count(s, id) <= 1;
  }

  lemma AdaptKeeps(c: Config, s: State, id: Id, t: State)
    requires Ok(c, s) && (Has(s.b1, id) || Has(s.b2, id)) && t == Adapt(c, s, id)
    ensures Ok(c, t) && Count(t, id) == 0 && FewerIds(s, t) && Spares(s, t)
  {
    assert 0 <= t.target <= c.capacity;
    if Has(s.b1, id) {
      ForgetB1Keeps(c, s, id, t.target, t.b1, t);
    } else {
      ForgetB2Keeps(c, s, id, t.target, t.b2, t);
    }
  }

  lemma GhostHitKeeps(c: Config, s: State, id: Id, t: State)
    requires Ok(c, s) && (Has(s.b1, id) || Has(s.b2, id)) && t == GhostHit(c, s, id)
    ensures Ok(c, t) && Count(t, id) == 0 && FewerIds(s, t) && Spares(s, t)
  {
    var u := Adapt(c, s, id);
    var r := Replace(c, u);
    AdaptKeeps(c, s, id, u);
    ReplaceKeeps(c, u, r);
    assert forall x :: Count(t, x) == Count(r, x);
  }

  /** `cache_lookup`: data comes back exactly for resident identifiers, and belongs to the resident entry. */
  lemma LookupKeeps(c: Config, s: State, id: Id, r: Found)
    requires Ok(c, s) && r == Lookup(c, s, id)
    ensures Ok(c, r.state)
    ensures r.data.Some? <==> exists e :: Resident(s, e) && e.id == id
    ensures forall e :: Resident(s, e) && e.id == id ==> r.data == Some(e.data) && Resident(r.state, Used(e, 1))
    ensures forall e :: Resident(s, e) && e.id != id && e.usage != 0 ==> Resident(r.state, e)
    ensures forall e :: Resident(r.state, e) && e.id != id ==> Resident(s, e)
    ensures r.data.None? ==> Count(r.state, id) == 0 && Spares(s, r.state) && r.state.insert.Some?
  {
    HasIsIds(s.t1, id);
    HasIsIds(s.t2, id);
    HasIsIds(s.b1, id);
    HasIsIds(s.b2, id);
    assert Count(s, id) <= 1;
    forall e | Resident(s, e) && e.id == id ensures e == if Has(s.t1, id) then Get(s.t1, id) else Get(s.t2, id) {
      if e in s.t1 {
        FoundIsOnly(s.t1, e);
      } else {
        FoundIsOnly(s.t2, e);
      }
    }
    if Has(s.t1, id) || Has(s.t2, id) {
      HitKeeps(c, s, id, if Has(s.t1, id) then Get(s.t1, id) else Get(s.t2, id), r.state);
    } else if Has(s.b1, id) || Has(s.b2, id) {
      GhostHitKeeps(c, s, id, r.state);
    } else {
      assert forall x :: Count(r.state, x) == Count(s, x);
    }
  }

  lemma PutIds(s: State, e: Entry, t: State)
    requires t == s.(t1 := [e] + s.t1) || t == s.(t2 := [e] + s.t2)
    ensures forall x :: Count(t, x) == Count(s, x) + if x == e.id then 1 else 0
  {
    if t == s.(t1 := [e] + s.t1) {
      assert t.t1[1..] == s.t1;
    } else {
      assert t.t2[1..] == s.t2;
    }
  }

  /** Putting an entry with a new identifier in front of T1 or T2. */
  lemma PutKeeps(c: Config, s: State, e: Entry, t: State)
    requires Ok(c, s) && Count(s, e.id) == 0 && e.usage >= 0 && e.size == c.header + |e.data|
    requires t == s.(t1 := [e] + s.t1) || t == s.(t2 := [e] + s.t2)
    ensures Ok(c, t) && Resident(t, e)
    ensures forall x :: Resident(t, x) <==> x == e || Resident(s, x)
  {
    PutIds(s, e, t);
  }

  /** `cache_insert` of an identifier that is in no list. */
  lemma InsertKeeps(c: Config, s: State, e: Entry, t: State)
    requires Ok(c, s) && s.insert.Some? && (s.insert == Some(T1) || s.insert == Some(T2)) && Count(s, e.id) == 0
    requires e.usage >= 0 && e.size == c.header + |e.data| && t == Insert(c, s, e)
    ensures Ok(c, t) && Resident(t, e)
    ensures forall x :: Resident(t, x) ==> x == e || Resident(s, x)
    ensures forall x :: Resident(s, x) && x.usage != 0 ==> Resident(t, x)
  {
    var m := if s.insert == Some(T1) then MakeRoom(c, s) else s;
    if s.insert == Some(T1) {
      MakeRoomKeeps(c, s, m);
    }
    PutKeeps(c, m, e, t);
  }

  lemma ReleasedIds(list: seq<Entry>, id: Id)
    requires Has(list, id)
    ensures Ids(Release'(list, id)) == Ids(list)
    ensures forall e :: e in Release'(list, id) ==> e == Used(Get(list, id), -1) || e in list
    ensures forall e :: e in list && e.id != id ==> e in Release'(list, id)
    ensures Used(Get(list, id), -1) in Release'(list, id)
  {
    var k, t := Find(list, id), Release'(list, id);
    IdsSplit(list, k, list[k], list[..k], list[k + 1..]);
    IdsSplit(t, k, t[k], t[..k], t[k + 1..]);
    MembersSplit(list, k, list[k], list[..k], list[k + 1..]);
    MembersSplit(t, k, t[k], t[..k], t[k + 1..]);
    assert t[..k] == list[..k] && t[k + 1..] == list[k + 1..];
  }

  /** `cache_entry_destroy` on a resident entry that has users. */
  lemma ReleaseKeeps(c: Config, s: State, e: Entry, t: State)
    requires Ok(c, s) && Resident(s, e) && e.usage > 0 && t == Release(s, e.id)
    ensures Ok(c, t) && Resident(t, Used(e, -1)) && SameIds(s, t)
    ensures forall x :: Resident(t, x) ==> x == Used(e, -1) || Resident(s, x)
    ensures forall x :: Resident(s, x) && x.id != e.id ==> Resident(t, x)
  {
    assert Count(s, e.id) <= 1;
    HasIsIds(s.t1, e.id);
    HasIsIds(s.t2, e.id);
    if e in s.t1 {
      FoundIsOnly(s.t1, e);
      ReleasedIds(s.t1, e.id);
    } else {
      FoundIsOnly(s.t2, e);
      ReleasedIds(s.t2, e.id);
    }
    assert forall id :: Count(t, id) == Count(s, id);
  }

  lemma WithoutSubset(list: seq<Entry>, id: Id)
    ensures forall x :: Ids(Without(list, id))[x] <= Ids(list)[x]
    ensures Ids(list)[id] <= 1 ==> Ids(Without(list, id))[id] == 0
    ensures forall e :: e in Without(list, id) ==> e in list
    ensures forall e :: e in list && e.id != id ==> e in Without(list, id)
  {
    HasIsIds(list, id);
    if Has(list, id) {
      WithoutIds(list, id);
    }
  }

  /** `cache_flush` forgets the identifier, used or not, and nothing else. */
  lemma FlushKeeps(c: Config, s: State, id: Id, t: State)
    requires Ok(c, s) && t == Flush(s, id)
    ensures Ok(c, t) && Count(t, id) == 0 && FewerIds(s, t)
    ensures forall x :: Resident(t, x) ==> Resident(s, x)
    ensures forall x :: Resident(s, x) && x.id != id ==> Resident(t, x)
  {
    assert Count(s, id) <= 1;
    WithoutSubset(s.t1, id);
    WithoutSubset(s.b1, id);
    WithoutSubset(s.t2, id);
    WithoutSubset(s.b2, id);
    assert forall x :: Count(t, x) <= Count(s, x);
  }

  // ----- whole runs

  /** What a client may do; `Insert` brings the data for an identifier it has just looked up in vain. */
  datatype Op = LookupOp(id: Id) | InsertOp(id: Id, data: seq<int>) | ReleaseOp(id: Id) | FlushOp(id: Id)

  /** The cache, the identifier just looked up in vain, and the data last inserted under each identifier. */
  datatype History = History(state: State, missed: Option<Id>, inserted: map<Id, seq<int>>)

  function NewEntry(c: Config, id: Id, data: seq<int>): Entry {
    Entry(id, c.header + |data|, 1, data)
  }

  ghost predicate InUse(s: State, id: Id) {
    exists e :: Resident(s, e) && e.id == id && e.usage > 0
  }

  ghost predicate Allowed(h: History, op: Op) {
    match op
    case LookupOp(_) => true
    case InsertOp(id, _) => h.missed == Some(id) && (h.state.insert == Some(T1) || h.state.insert == Some(T2))
    case ReleaseOp(id) => InUse(h.state, id)
    case FlushOp(_) => true
  }

  ghost function Apply(c: Config, h: History, op: Op): History
    requires Allowed(h, op)
  {
    match op
    case LookupOp(id) =>
      var r := Lookup(c, h.state, id);
      History(r.state, if r.data.None? then Some(id) else None, h.inserted)
    case InsertOp(id, data) => History(Insert(c, h.state, NewEntry(c, id, data)), None, h.inserted[id := data])
    case ReleaseOp(id) => h.(state := Release(h.state, id))
    case FlushOp(id) => h.(state := Flush(h.state, id))
  }

  /** Every resident entry holds the data last inserted under its identifier; an identifier missed is in no list. */
  ghost predicate Faithful(c: Config, h: History) {
    && Ok(c, h.state)
    && (forall e :: Resident(h.state, e) ==> e.id in h.inserted && h.inserted[e.id] == e.data)
    && (h.missed.Some? ==>
      Count(h.state, h.missed.value) == 0
      && (h.state.insert == Some(T1) || h.state.insert == Some(T2)))
  }

  lemma EmptyIsFaithful(c: Config)
    requires c.capacity >= 0
    ensures Faithful(c, History(EMPTY, None, map[]))
  {
    assert forall id :: Count(EMPTY, id) == 0;
  }

  lemma LookupInsertList(c: Config, s: State, id: Id)
    requires Ok(c, s) && Lookup(c, s, id).data.None?
    ensures Lookup(c, s, id).state.insert == Some(T1) || Lookup(c, s, id).state.insert == Some(T2)
  {
  }

  lemma AbsentIsNotResident(s: State, id: Id)
    requires Count(s, id) == 0
    ensures forall e :: Resident(s, e) ==> e.id != id
  {
    HasIsIds(s.t1, id);
    HasIsIds(s.t2, id);
  }

  lemma InsertIsFaithful(c: Config, h: History, id: Id, data: seq<int>, e: Entry, t: State)
    requires Faithful(c, h) && Allowed(h, InsertOp(id, data)) && e == NewEntry(c, id, data)
      && t == Insert(c, h.state, e)
    ensures Faithful(c, History(t, None, h.inserted[id := data]))
  {
    InsertKeeps(c, h.state, e, t);
    AbsentIsNotResident(h.state, id);
  }

  lemma LookupIsFaithful(c: Config, h: History, id: Id, r: Found)
    requires Faithful(c, h) && r == Lookup(c, h.state, id)
    ensures Faithful(c, History(r.state, if r.data.None? then Some(id) else None, h.inserted))
  {
    LookupKeeps(c, h.state, id, r);
    if r.data.None? {
      LookupInsertList(c, h.state, id);
    } else {
      var e :| Resident(h.state, e) && e.id == id;
      HitResidents(c, h.state, id, r);
    }
  }

  /** After a hit, residents are the ones before, one of them with another user. */
  lemma HitResidents(c: Config, s: State, id: Id, r: Found)
    requires Ok(c, s) && r == Lookup(c, s, id) && r.data.Some?
    ensures forall x :: Resident(r.state, x) ==> Resident(s, x) || exists e :: Resident(s, e) && x == Used(e, 1)
  {
    HitKeeps(c, s, id, if Has(s.t1, id) then Get(s.t1, id) else Get(s.t2, id), r.state);
  }

  lemma ReleaseIsFaithful(c: Config, h: History, e: Entry, t: State)
    requires Faithful(c, h) && Resident(h.state, e) && e.usage > 0 && t == Release(h.state, e.id)
    ensures Faithful(c, h.(state := t))
  {
    ReleaseKeeps(c, h.state, e, t);
  }

  lemma FlushIsFaithful(c: Config, h: History, id: Id, t: State)
    requires Faithful(c, h) && t == Flush(h.state, id)
    ensures Faithful(c, h.(state := t))
  {
    FlushKeeps(c, h.state, id, t);
  }

  lemma ApplyKeeps(c: Config, h: History, op: Op)
    requires Faithful(c, h) && Allowed(h, op)
    ensures Faithful(c, Apply(c, h, op))
  {
    match op
    case LookupOp(id) =>
      LookupIsFaithful(c, h, id, Lookup(c, h.state, id));
    case InsertOp(id, data) =>
      InsertIsFaithful(c, h, id, data, NewEntry(c, id, data), Insert(c, h.state, NewEntry(c, id, data)));
    case ReleaseOp(id) =>
      var e :| Resident(h.state, e) && e.id == id && e.usage > 0;
      ReleaseIsFaithful(c, h, e, Release(h.state, id));
    case FlushOp(id) =>
      FlushIsFaithful(c, h, id, Flush(h.state, id));
  }

  ghost predicate Applied(c: Config, h: History, op: Op, h': History) {
    Allowed(h, op) && h' == Apply(c, h, op)
  }

  ghost predicate Step(c: Config, h: History, h': History) {
    exists op :: Applied(c, h, op, h')
  }

  /** A run of allowed operations from the empty cache. */
  ghost predicate Run(c: Config, hs: seq<History>) {
    && hs != [] && hs[0] == History(EMPTY, None, map[])
    && (forall i {:trigger hs[i]} :: 0 < i < |hs| ==> Step(c, hs[i - 1], hs[i]))
  }

  lemma {:induction false} RunIsFaithful(c: Config, hs: seq<History>, i: nat)
    requires c.capacity >= 0 && Run(c, hs) && i < |hs|
    ensures Faithful(c, hs[i])
  {
    if i == 0 {
      EmptyIsFaithful(c);
    } else {
      RunIsFaithful(c, hs, i - 1);
      var op :| Applied(c, hs[i - 1], op, hs[i]);
      ApplyKeeps(c, hs[i - 1], op);
    }
  }

  /** At any point of any run, a lookup that returns data returns what was last inserted under the identifier. */
  lemma LookupReturnsLastInserted(c: Config, hs: seq<History>, i: nat, id: Id)
    requires c.capacity >= 0 && Run(c, hs) && i < |hs|
    ensures var r := Lookup(c, hs[i].state, id);
      r.data.Some? ==> id in hs[i].inserted && r.data.value == hs[i].inserted[id]
  {
    RunIsFaithful(c, hs, i);
    LookupKeeps(c, hs[i].state, id, Lookup(c, hs[i].state, id));
  }

  /** At any point of any run, an entry in use outlives a lookup or an insertion with its data and size. */
  lemma InUseIsKept(c: Config, hs: seq<History>, i: nat, op: Op, e: Entry)
    requires c.capacity >= 0 && Run(c, hs) && i < |hs| && Allowed(hs[i], op) && (op.LookupOp? || op.InsertOp?)
    requires Resident(hs[i].state, e) && e.usage > 0
    ensures var t := Apply(c, hs[i], op).state;
      Resident(t, if op == LookupOp(e.id) then Used(e, 1) else e)
  {
    RunIsFaithful(c, hs, i);
    match op
    case LookupOp(id) => LookupKeeps(c, hs[i].state, id, Lookup(c, hs[i].state, id));
    case InsertOp(id, data) => InsertKeeps(c, hs[i].state, NewEntry(c, id, data), Apply(c, hs[i], op).state);
  }
}
