/**
 The doubly linked lists of cache.c. A list keeps, as ghost state, its entry objects and their values
 from the most to the least recently used.
 */
module CacheLists {
  import opened Basics
  import opened CacheModel

  class CacheEntry {
    const id: Id
    var usage: int
    var size: nat
    var data: seq<int>
    var where: EntryList?
    var next: CacheEntry?
    var prev: CacheEntry?

    constructor (id: Id, size: nat, usage: int, data: seq<int>)
      ensures Value() == Entry(id, size, usage, data) && where == null && next == null && prev == null
    {
      this.id, this.size, this.usage, this.data := id, size, usage, data;
      where, next, prev := null, null, null;
    }

    function Value(): Entry
      reads this`size, this`usage, this`data
    {
      Entry(id, size, usage, data)
    }
  }

  /** Each entry points at its neighbours. */
  ghost predicate Chain(nodes: seq<CacheEntry>)
    reads nodes`next, nodes`prev
  {
    && (forall i :: 0 < i < |nodes| ==> nodes[i].prev == nodes[i - 1])
    && (forall i :: 0 <= i < |nodes| - 1 ==> nodes[i].next == nodes[i + 1])
    && (nodes != [] ==> nodes[0].prev == null && nodes[|nodes| - 1].next == null)
  }

  ghost predicate Distinct(nodes: seq<CacheEntry>) {
    forall i, j :: 0 <= i < j < |nodes| ==> nodes[i] != nodes[j]
  }

  /** The sequence without position `k`. */
  ghost function Dropped<T>(s: seq<T>, k: nat): (r: seq<T>)
    requires k < |s|
    ensures |r| == |s| - 1 && forall i :: 0 <= i < |r| ==> r[i] == s[if i < k then i else i + 1]
  {
    s[..k] + s[k + 1..]
  }

  /** The sequence after its last `r` elements went to the front in their order. */
  ghost function Turned<T>(s: seq<T>, r: nat): (t: seq<T>)
    requires r <= |s|
    ensures |t| == |s|
  {
    s[|s| - r..] + s[..|s| - r]
  }

  lemma TurnedOnce<T>(s: seq<T>, r: nat)
    requires r < |s|
    ensures Turned(Turned(s, r), 1) == Turned(s, r + 1)
    ensures Turned(s, r)[|s| - 1] == s[|s| - 1 - r]
  {
  }

  lemma TurnedMembers<T>(s: seq<T>, r: nat)
    requires r <= |s|
    ensures forall x :: x in Turned(s, r) ==> x in s
  {
  }

  lemma TurnedFully<T>(s: seq<T>)
    ensures Turned(s, |s|) == s
  {
  }

  /** What is left of a turned sequence without its last element. */
  lemma TurnedRest<T>(s: seq<T>, r: nat)
    requires r < |s|
    ensures Dropped(Turned(s, r), |s| - 1) == s[|s| - r..] + s[..|s| - 1 - r]
  {
  }

  lemma DistinctDropped(nodes: seq<CacheEntry>, k: nat)
    requires Distinct(nodes) && k < |nodes|
    ensures Distinct(Dropped(nodes, k)) && nodes[k] !in Dropped(nodes, k)
  {
  }

  /** Users do not count towards the size of a list. */
  lemma {:induction false} SumUsed(items: seq<Entry>, k: nat, users: int)
    requires k < |items|
    ensures Sum(items[k := Used(items[k], users)]) == Sum(items)
  {
    if k > 0 {
      SumUsed(items[1..], k - 1, users);
      assert items[k := Used(items[k], users)][1..] == items[1..][k - 1 := Used(items[k], users)];
    }
  }

  datatype Listing = Broken | Listing(nodes: seq<CacheEntry>, items: seq<Entry>)

  class EntryList {
    var first: CacheEntry?
    var last: CacheEntry?
    var size: int
    ghost var nodes: seq<CacheEntry>
    ghost var items: seq<Entry>

    /** Every entry knows its list and shows its value. */
    ghost predicate Shown(nodes: seq<CacheEntry>, items: seq<Entry>)
      reads nodes`where, nodes`size, nodes`usage, nodes`data
    {
      |nodes| == |items| && forall i :: 0 <= i < |nodes| ==> nodes[i].where == this && nodes[i].Value() == items[i]
    }

    /** The ends of the list. */
    ghost predicate Ends(nodes: seq<CacheEntry>)
      reads this`first, this`last
    {
      if nodes == [] then first == null && last == null else first == nodes[0] && last == nodes[|nodes| - 1]
    }

    ghost predicate Valid()
      reads this, nodes
    {
      Distinct(nodes) && Shown(nodes, items) && Chain(nodes) && Ends(nodes) && size == Sum(items)
    }

    /** What the list holds, if its pointers, values and size agree. */
    ghost function Contents(): Listing
      reads this, nodes
    {
      if Valid() then Listing(nodes, items) else Broken
    }

    ghost predicate Sound()
      reads this, nodes
    {
      Contents() != Broken
    }

    constructor ()
      ensures Valid() && nodes == []
    {
      first, last, size, nodes, items := null, null, 0, [], [];
    }

    /** The pointers of `cache_insert_mru`. */
    method LinkFirst(entry: CacheEntry)
      requires Valid() && entry !in nodes
      modifies this`first, this`last, nodes, entry`where, entry`next, entry`prev
      ensures Chain([entry] + nodes) && Ends([entry] + nodes) && entry.where == this
      ensures Shown(nodes, items)
    {
      entry.prev := null;
      entry.next := first;
      entry.where := this;
      if entry.next != null {
        entry.next.prev := entry;
      }
      first := entry;
      if last == null {
        last := entry;
      }
    }

    /** The accounting of an insertion whose pointers are done. */
    method Account(entry: CacheEntry, ghost ns: seq<CacheEntry>, ghost es: seq<Entry>)
      requires Distinct(ns) && Shown(ns, es) && size + entry.size == Sum(es) && Chain(ns) && Ends(ns)
      modifies this`size, this`nodes, this`items
      ensures Valid() && nodes == ns && items == es
    {
      size := size + entry.size;
      nodes, items := ns, es;
    }

    lemma ShownMore(nodes: seq<CacheEntry>, items: seq<Entry>, entry: CacheEntry, v: Entry)
      requires Distinct(nodes) && Shown(nodes, items) && entry !in nodes && entry.where == this && v == entry.Value()
      ensures Distinct([entry] + nodes) && Shown([entry] + nodes, [v] + items)
        && Sum([v] + items) == v.size + Sum(items)
    {
      assert ([v] + items)[1..] == items;
    }

    /** `cache_insert_mru`, without the hash. */
    method InsertMru(entry: CacheEntry)
      requires Valid() && entry !in nodes
      modifies this, nodes, entry`where, entry`next, entry`prev
      ensures Valid() && nodes == [entry] + old(nodes) && items == [entry.Value()] + old(items)
    {
      LinkFirst(entry);
      ghost var v := entry.Value();
      ShownMore(nodes, items, entry, v);
      Account(entry, [entry] + nodes, [v] + items);
    }

    /** The pointers of `cache_remove_from_list`. */
    method Unlink(entry: CacheEntry, ghost k: nat)
      requires Valid() && k < |nodes| && nodes[k] == entry
      modifies this`first, this`last, nodes
      ensures Chain(Dropped(nodes, k)) && Ends(Dropped(nodes, k))
      ensures Shown(nodes, items)
    {
      assert if k == 0 then entry.prev == null else entry.prev == nodes[k - 1];
      assert if k == |nodes| - 1 then entry.next == null else entry.next == nodes[k + 1];
      if entry.prev != null {
        entry.prev.next := entry.next;
      } else {
        first := entry.next;
      }
      if entry.next != null {
        entry.next.prev := entry.prev;
      } else {
        last := entry.prev;
      }
    }

    /** The accounting of a removal whose pointers are done. */
    method Forget(entry: CacheEntry, ghost ns: seq<CacheEntry>, ghost es: seq<Entry>)
      requires Distinct(ns) && Shown(ns, es) && size - entry.size == Sum(es) && Chain(ns) && Ends(ns)
      modifies this`size, this`nodes, this`items
      ensures Valid() && nodes == ns && items == es
    {
      size := size - entry.size;
      nodes, items := ns, es;
    }

    lemma ShownLess(nodes: seq<CacheEntry>, items: seq<Entry>, k: nat)
      requires Distinct(nodes) && Shown(nodes, items) && k < |nodes|
      ensures Distinct(Dropped(nodes, k)) && Shown(Dropped(nodes, k), Dropped(items, k))
        && Sum(Dropped(items, k)) == Sum(items) - nodes[k].size
      ensures nodes[k].Value() == items[k]
    {
      assert nodes[k].Value() == items[k];
      SumWithout(items, k);
      DistinctDropped(nodes, k);
    }

    /** `cache_remove_from_list`. */
    method Remove(entry: CacheEntry, ghost k: nat)
      requires Valid() && k < |nodes| && nodes[k] == entry
      modifies this, nodes
      ensures Valid() && nodes == Dropped(old(nodes), k) && items == Dropped(old(items), k)
      ensures entry.Value() == old(entry.Value()) == old(items)[k]
    {
      Unlink(entry, k);
      ShownLess(nodes, items, k);
      Forget(entry, Dropped(nodes, k), Dropped(items, k));
    }

    /** One user more or less for an entry of the list. */
    method Use(entry: CacheEntry, users: int, ghost k: nat)
      requires Valid() && k < |nodes| && nodes[k] == entry
      modifies this`items, entry`usage
      ensures Valid() && items == old(items)[k := Used(old(items)[k], users)]
    {
      SumUsed(items, k, users);
      assert nodes[k].Value() == items[k];
      entry.usage := entry.usage + users;
      items := items[k := Used(items[k], users)];
    }

    /** The pointers of `cache_remove_lru_helper`. */
    method UnlinkLast()
      requires Valid() && nodes != []
      modifies this`first, this`last, nodes
      ensures Chain(Dropped(nodes, |nodes| - 1)) && Ends(Dropped(nodes, |nodes| - 1))
      ensures Shown(nodes, items)
    {
      assert |nodes| > 1 ==> last.prev == nodes[|nodes| - 2];
      var before := last.prev;
      if before != null {
        before.next := null;
      } else {
        first := null;
      }
      last := before;
    }

    /** `cache_remove_lru_helper`: takes the least recently used entry off the list. */
    method RemoveLast() returns (entry: CacheEntry?)
      requires Valid()
      modifies this, nodes
      ensures Valid() && (entry == null <==> old(nodes) == [])
      ensures entry == null ==> nodes == old(nodes) && items == old(items)
      ensures entry != null ==>
        entry == old(nodes)[|old(nodes)| - 1] && nodes == Dropped(old(nodes), |old(nodes)| - 1)
        && items == Dropped(old(items), |old(items)| - 1)
      ensures entry != null ==> entry.Value() == old(items)[|old(items)| - 1] && entry !in nodes
    {
      entry := last;
      if entry == null {
        return;
      }
      UnlinkLast();
      ghost var k := |nodes| - 1;
      DistinctDropped(nodes, k);
      ShownLess(nodes, items, k);
      Forget(entry, Dropped(nodes, k), Dropped(items, k));
    }

    /** One turn of the loop of `cache_remove_lru`: an entry in use goes back to the front. */
    method RotateOne() returns (turned: nat)
      requires Valid() && nodes != []
      modifies this, nodes
      ensures Valid() && nodes == Turned(old(nodes), 1) && items == Turned(old(items), 1) && size == old(size)
      ensures turned == old(items)[|old(items)| - 1].size
    {
      ghost var ns, es := nodes, items;
      var entry := RemoveLast();
      InsertMru(entry);
      turned := entry.size;
      SumWithout(es, |es| - 1);
      assert items == Turned(es, 1) && nodes == Turned(ns, 1);
      assert items[1..] == Dropped(es, |es| - 1);
    }

    /** The list after `r` turns of the loop of `cache_remove_lru`. */
    ghost predicate Spinning(ns: seq<CacheEntry>, es: seq<Entry>, r: nat, seen: nat)
      reads this, nodes
    {
      && Valid() && |ns| == |es| && r <= |ns| && nodes == Turned(ns, r) && items == Turned(es, r)
      && Spun(es, r, seen) && size == Sum(es)
    }

    /** One turn of that loop. */
    method SpinOne(ghost ns: seq<CacheEntry>, ghost es: seq<Entry>, ghost r: nat, seen: nat) returns (more: nat)
      requires Spinning(ns, es, r, seen) && r < |ns| && es[|es| - 1 - r].usage != 0
      modifies this, nodes
      ensures Spinning(ns, es, r + 1, more)
    {
      TurnedOnce(ns, r);
      TurnedOnce(es, r);
      SpunOnce(es, r, seen);
      var turned := RotateOne();
      more := seen + turned;
    }

    /** Why the loop goes on: an entry in use is last, and not all have had their turn. */
    lemma SpinTest(ns: seq<CacheEntry>, es: seq<Entry>, r: nat, seen: nat)
      requires Spinning(ns, es, r, seen) && PositiveSizes(es)
      ensures last == null <==> |es| == 0
      ensures seen < size <==> r < |es|
      ensures r < |es| ==> last != null && last.Value() == es[|es| - 1 - r] && last == ns[|ns| - 1 - r]
    {
      SpunAll(es, r, seen);
      if r < |es| {
        TurnedOnce(ns, r);
        TurnedOnce(es, r);
        assert nodes[|nodes| - 1].Value() == items[|items| - 1];
      }
    }

    /** Where the loop of `cache_remove_lru` stands, and what its test sees. */
    ghost predicate Looping(ns: seq<CacheEntry>, es: seq<Entry>, r: nat, seen: nat)
      reads this, nodes, last
    {
      && Spinning(ns, es, r, seen)
      && (forall n :: n in nodes ==> n in ns)
      && (last == null <==> |es| == 0)
      && (seen < size <==> r < |es|)
      && (r < |es| ==> last != null && last.Value() == es[|es| - 1 - r])
    }

    lemma LoopsOn(ns: seq<CacheEntry>, es: seq<Entry>, r: nat, seen: nat)
      requires Spinning(ns, es, r, seen) && PositiveSizes(es)
      ensures Looping(ns, es, r, seen)
    {
      TurnedMembers(ns, r);
      SpinTest(ns, es, r, seen);
    }

    lemma StartLooping()
      requires Valid() && PositiveSizes(items)
      ensures Looping(nodes, items, 0, 0)
    {
      assert Spinning(nodes, items, 0, 0);
      SpinTest(nodes, items, 0, 0);
    }

    /** One pass of that loop. */
    method SpinPass(ghost ns: seq<CacheEntry>, ghost es: seq<Entry>, ghost r: nat, seen: nat) returns (more: nat)
      requires Looping(ns, es, r, seen) && r < |ns| && es[|es| - 1 - r].usage != 0 && PositiveSizes(es)
      modifies this, nodes
      ensures Looping(ns, es, r + 1, more)
    {
      more := SpinOne(ns, es, r, seen);
      LoopsOn(ns, es, r + 1, more);
    }

    /**
     The loop of `cache_remove_lru`: entries in use go to the front until one without users is last, or all had
     their turn.
     */
    method SpinUsed(ghost ns: seq<CacheEntry>, ghost es: seq<Entry>) returns (seen: nat, ghost r: nat)
      requires Valid() && PositiveSizes(es) && ns == nodes && es == items
      modifies this, nodes
      ensures Looping(ns, es, r, seen)
      ensures r == |es| || es[|es| - 1 - r].usage == 0
    {
      seen, r := 0, 0;
      StartLooping();
      while last != null && last.usage != 0 && seen < size
        invariant Looping(ns, es, r, seen)
        decreases |ns| - r
      {
        seen := SpinPass(ns, es, r, seen);
        r := r + 1;
      }
    }

    /** The last entry after the loop comes off the list. */
    method TakeTurned(ghost ns: seq<CacheEntry>, ghost es: seq<Entry>, ghost r: nat, ghost seen: nat)
      returns (victim: CacheEntry)
      requires Spinning(ns, es, r, seen) && r < |ns|
      modifies this, nodes
      requires es[|es| - 1 - r].usage == 0
      ensures Valid() && items == Rotated(es) && nodes == RotatedNodes(ns, es)
      ensures LastUnused(es) == |es| - 1 - r && victim == ns[|ns| - 1 - r] && victim.Value() == es[|es| - 1 - r]
        && victim !in nodes
    {
      TurnedOnce(ns, r);
      TurnedOnce(es, r);
      RotatedAfterSpin(ns, es, r);
      victim := RemoveLast();
    }

    /** After a full turn the list is as it was, since all its entries are in use. */
    lemma FullTurn(ns: seq<CacheEntry>, es: seq<Entry>, r: nat, seen: nat)
      requires Spinning(ns, es, r, seen) && r == |es|
      ensures Victim(es).None? && items == Rotated(es) && nodes == RotatedNodes(ns, es)
    {
      SpunIsLastUnused(es, r);
      TurnedFully(ns);
      TurnedFully(es);
    }

    /** `cache_remove_lru` up to freeing: the victim is off the list, or the list is as it was. */
    method RemoveLru(ghost ns: seq<CacheEntry>, ghost es: seq<Entry>) returns (victim: CacheEntry?)
      requires Valid() && PositiveSizes(es) && ns == nodes && es == items
      modifies this, nodes
      ensures Valid() && items == Rotated(es) && nodes == RotatedNodes(ns, es)
      ensures victim == null <==> Victim(es).None?
      ensures victim != null ==> victim == ns[LastUnused(es)] && Victim(es) == Some(victim.Value()) && victim !in nodes
    {
      var seen, r := SpinUsed(ns, es);
      if last == null || last.usage != 0 || seen >= size {
        FullTurn(ns, es, r, seen);
        victim := null;
      } else {
        victim := TakeTurned(ns, es, r, seen);
      }
    }
  }

  /** The entry objects after `cache_remove_lru`. */
  ghost function RotatedNodes(nodes: seq<CacheEntry>, items: seq<Entry>): seq<CacheEntry>
    requires |nodes| == |items|
  {
    var k := LastUnused(items);
    if k < 0 then nodes else nodes[k + 1..] + nodes[..k]
  }

  /** Dropping the last entry after the loop leaves the list without its victim. */
  lemma RotatedAfterSpin(ns: seq<CacheEntry>, es: seq<Entry>, r: nat)
    requires |ns| == |es| && r < |es| && es[|es| - 1 - r].usage == 0 && forall i :: |es| - r <= i < |es| ==>
      es[i].usage != 0
    ensures LastUnused(es) == |es| - 1 - r
    ensures Dropped(Turned(es, r), |es| - 1) == Rotated(es)
    ensures Dropped(Turned(ns, r), |ns| - 1) == RotatedNodes(ns, es)
  {
    SpunIsLastUnused(es, r);
    TurnedRest(ns, r);
    TurnedRest(es, r);
  }

  ghost predicate PositiveSizes(items: seq<Entry>) {
    forall e :: e in items ==> e.size > 0
  }

  /** The last `r` entries. */
  ghost function Tail(items: seq<Entry>, r: nat): seq<Entry>
    requires r <= |items|
  {
    items[|items| - r..]
  }

  /** The last `r` entries are in use and `seen` is their size. */
  ghost predicate Spun(items: seq<Entry>, r: nat, seen: nat) {
    r <= |items| && seen == Sum(Tail(items, r)) && forall i :: |items| - r <= i < |items| ==> items[i].usage != 0
  }

  lemma SpunOnce(items: seq<Entry>, r: nat, seen: nat)
    requires Spun(items, r, seen) && r < |items| && items[|items| - 1 - r].usage != 0
    ensures Spun(items, r + 1, seen + items[|items| - 1 - r].size)
  {
    assert Tail(items, r + 1)[1..] == Tail(items, r);
  }

  lemma {:induction false} PositiveSum(items: seq<Entry>)
    requires PositiveSizes(items)
    ensures items != [] ==> Sum(items) > 0
  {
    if items != [] {
      assert items[0] in items;
    }
  }

  lemma PositivePrefix(items: seq<Entry>, k: nat)
    requires PositiveSizes(items) && k <= |items|
    ensures Sum(items[..k]) > 0 <==> k > 0
  {
    if k > 0 {
      assert items[..k][0] == items[0] && items[0] in items;
    }
  }

  /** Sizes are positive, so only a full turn has seen the size of the list. */
  lemma SpunAll(items: seq<Entry>, r: nat, seen: nat)
    requires PositiveSizes(items) && r <= |items| && seen == Sum(Tail(items, r))
    ensures seen >= Sum(items) <==> r == |items|
  {
    var k := |items| - r;
    assert Tail(items, r) == items[k..];
    SumSplit(items, k);
    PositivePrefix(items, k);
  }

  lemma SpunIsLastUnused(items: seq<Entry>, r: nat)
    requires r <= |items| && (forall i :: |items| - r <= i < |items| ==> items[i].usage != 0)
    requires r == |items| || items[|items| - 1 - r].usage == 0
    ensures LastUnused(items) == |items| - 1 - r
  {
    LastUnusedIsLast(items);
  }
}
