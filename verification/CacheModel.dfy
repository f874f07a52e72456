/**
 The adaptive replacement cache of cache.c as functions on values. Lists run from the most to
 the least recently used entry.
 */
module CacheModel {
  import opened Basics

  /** The words of an identifier: one for 4-byte identifiers, five for 20-byte ones. */
  type Id = seq<int>

  /** An entry; `size` counts its header and `data`, the client's bytes behind it. */
  datatype Entry = Entry(id: Id, size: nat, usage: int, data: seq<int>)

  /** T1 and T2 hold data, B1 and B2 remember the identifiers of entries that lost theirs. */
  datatype Which = T1 | B1 | T2 | B2

  datatype State = State(t1: seq<Entry>, b1: seq<Entry>, t2: seq<Entry>, b2: seq<Entry>, insert: Option<Which>,
    target: int)

  /** What `cache_new` fixes: the capacity in bytes and the size of an entry without data. */
  datatype Config = Config(capacity: nat, header: nat)

  const EMPTY := State([], [], [], [], None, 0)

  function Sum(list: seq<Entry>): nat {
    if list == [] then 0 else list[0].size + Sum(list[1..])
  }

  lemma {:induction false} SumConcat(a: seq<Entry>, b: seq<Entry>)
    ensures Sum(a + b) == Sum(a) + Sum(b)
  {
    if a == [] {
      assert a + b == b;
    } else {
      assert (a + b)[1..] == a[1..] + b;
      SumConcat(a[1..], b);
    }
  }

  lemma SumSplit(list: seq<Entry>, k: nat)
    requires k <= |list|
    ensures Sum(list) == Sum(list[..k]) + Sum(list[k..])
  {
    SumConcat(list[..k], list[k..]);
    assert list == list[..k] + list[k..];
  }

  lemma SumWithout(list: seq<Entry>, k: nat)
    requires k < |list|
    ensures Sum(list[..k] + list[k + 1..]) == Sum(list) - list[k].size
  {
    SumConcat(list[..k], list[k + 1..]);
    SumConcat(list[..k], list[k..]);
    assert list == list[..k] + list[k..];
  }

  function Max(a: int, b: int): int { if a > b then a else b }

  function Min(a: int, b: int): int { if a < b then a else b }

  // ----- eviction of the least recently used entry without users

  /** Where the least recently used entry without users is; -1 when all are in use. */
  function LastUnused(list: seq<Entry>): (k: int)
    ensures -1 <= k < |list|
  {
    if list == [] then -1
    else if list[|list| - 1].usage == 0 then |list| - 1
    else LastUnused(list[..|list| - 1])
  }

  /** The list without its victim; the in-use entries behind the victim go to the front in their order. */
  function Rotated(list: seq<Entry>): seq<Entry> {
    var k := LastUnused(list);
    if k < 0 then list else list[k + 1..] + list[..k]
  }

  /** `cache_remove_lru`'s choice. */
  function Victim(list: seq<Entry>): Option<Entry> {
    var k := LastUnused(list);
    if k < 0 then None else Some(list[k])
  }

  lemma {:induction false} LastUnusedIsLast(list: seq<Entry>)
    ensures var k := LastUnused(list);
      && (k >= 0 ==> list[k].usage == 0)
      && (forall i :: k < i < |list| ==> list[i].usage != 0)
  {
    if list != [] && list[|list| - 1].usage != 0 {
      LastUnusedIsLast(list[..|list| - 1]);
    }
  }

  // ----- operations

  /** `cache_trim`: only the header of an evicted entry is kept. */
  function Trim(c: Config, e: Entry): Entry {
    e.(size := c.header, data := [])
  }

  function MoveT1(c: Config, s: State): State
    requires Victim(s.t1).Some?
  {
    s.(t1 := Rotated(s.t1), b1 := [Trim(c, Victim(s.t1).value)] + s.b1)
  }

  function MoveT2(c: Config, s: State): State
    requires Victim(s.t2).Some?
  {
    s.(t2 := Rotated(s.t2), b2 := [Trim(c, Victim(s.t2).value)] + s.b2)
  }

  /**
   `cache_replace`: T1 gives way once it has reached its target, T2 otherwise; the other one if that is all in
   use.
   */
  function Replace(c: Config, s: State): State {
    if Sum(s.t1) >= Max(1, s.target) then
      if Victim(s.t1).Some? then MoveT1(c, s) else if Victim(s.t2).Some? then MoveT2(c, s) else s
    else
      if Victim(s.t2).Some? then MoveT2(c, s) else if Victim(s.t1).Some? then MoveT1(c, s) else s
  }

  /** Where an identifier is in a list; |list| when it is not. */
  function Find(list: seq<Entry>, id: Id): (k: nat)
    ensures k <= |list| && (k < |list| ==> list[k].id == id)
  {
    if list == [] then 0 else if list[0].id == id then 0 else 1 + Find(list[1..], id)
  }

  predicate Has(list: seq<Entry>, id: Id) {
    Find(list, id) < |list|
  }

  function Without(list: seq<Entry>, id: Id): seq<Entry> {
    var k := Find(list, id);
    if k < |list| then list[..k] + list[k + 1..] else list
  }

  function Get(list: seq<Entry>, id: Id): Entry
    requires Has(list, id)
  {
    list[Find(list, id)]
  }

  /** A hit moves the entry to the front of T2 with one more user. */
  function Hit(s: State, id: Id): State
    requires Has(s.t1, id) || Has(s.t2, id)
  {
    if Has(s.t1, id) then
      s.(t1 := Without(s.t1, id), t2 := [Used(Get(s.t1, id), 1)] + s.t2)
    else
      s.(t2 := [Used(Get(s.t2, id), 1)] + Without(s.t2, id))
  }

  function Used(e: Entry, users: int): Entry {
    e.(usage := e.usage + users)
  }

  /** By how much a ghost hit moves the target: the ratio of the other ghost list to this one, at least 1. */
  function Pull(other: nat, own: nat): (r: int)
    ensures r >= 1
  {
    if own == 0 then 1 else Max(other / own, 1)
  }

  /** A ghost hit moves the target towards that list's side, within the capacity, and forgets the ghost. */
  function Adapt(c: Config, s: State, id: Id): State
    requires Has(s.b1, id) || Has(s.b2, id)
  {
    if Has(s.b1, id) then
      s.(target := Min(s.target + Pull(Sum(s.b2), Sum(s.b1)), c.capacity), b1 := Without(s.b1, id))
    else
      s.(target := Max(s.target - Pull(Sum(s.b1), Sum(s.b2)), 0), b2 := Without(s.b2, id))
  }

  function GhostHit(c: Config, s: State, id: Id): State
    requires Has(s.b1, id) || Has(s.b2, id)
  {
    Replace(c, Adapt(c, s, id)).(insert := Some(T2))
  }

  datatype Found = Found(state: State, data: Option<seq<int>>)

  /** `cache_lookup`. */
  function Lookup(c: Config, s: State, id: Id): Found {
    if Has(s.t1, id) then Found(Hit(s, id), Some(Get(s.t1, id).data))
    else if Has(s.t2, id) then Found(Hit(s, id), Some(Get(s.t2, id).data))
    else if Has(s.b1, id) || Has(s.b2, id) then Found(GhostHit(c, s, id), None)
    else Found(s.(insert := Some(T1)), None)
  }

  /** The room `cache_insert` makes for an entry that was in no list. */
  function MakeRoom(c: Config, s: State): State {
    if Sum(s.t1) + Sum(s.b1) >= c.capacity then
      if Sum(s.t1) < c.capacity then Replace(c, s.(b1 := Rotated(s.b1)))
      else s.(t1 := Rotated(s.t1))
    else if Sum(s.t1) + Sum(s.t2) + Sum(s.b1) + Sum(s.b2) >= c.capacity then
      if Sum(s.t1) + Sum(s.t2) + Sum(s.b1) + Sum(s.b2) >= 2 * c.capacity then Replace(c, s.(b2 := Rotated(s.b2)))
      else Replace(c, s)
    else s
  }

  /** `cache_insert`, which needs a lookup before it to have set `insert`. */
  function Insert(c: Config, s: State, e: Entry): State
    requires s.insert == Some(T1) || s.insert == Some(T2)
  {
    if s.insert == Some(T1) then
      var t := MakeRoom(c, s); t.(t1 := [e] + t.t1)
    else
      s.(t2 := [e] + s.t2)
  }

  function Release'(list: seq<Entry>, id: Id): seq<Entry> {
    if Has(list, id) then list[Find(list, id) := Used(Get(list, id), -1)] else list
  }

  /** `cache_entry_destroy` on the data found or inserted under an identifier. */
  function Release(s: State, id: Id): State {
    s.(t1 := Release'(s.t1, id), t2 := Release'(s.t2, id))
  }

  /** `cache_flush`. */
  function Flush(s: State, id: Id): State {
    s.(t1 := Without(s.t1, id), b1 := Without(s.b1, id), t2 := Without(s.t2, id), b2 := Without(s.b2, id))
  }
}
