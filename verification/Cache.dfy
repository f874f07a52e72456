/**
 The cache object of cache.c: four lists, the hash over all their entries, and the adaptive target.
 Each operation is tied to its function on values.
 */
module Caches {
  import opened Basics
  import opened CacheModel
  import opened CacheInvariant
  import opened CacheLists
  import opened CacheHash

  class Cache {
    const t1: EntryList
    const b1: EntryList
    const t2: EntryList
    const b2: EntryList
    var insert: EntryList?
    const capacity: nat
    const entrySize: nat
    var t1Target: int
    var hash: map<Id, CacheEntry>

    ghost function Limits(): Config {
      Config(capacity, entrySize)
    }

    ghost function InsertList(): Option<Which>
      reads this`insert
    {
      if insert == t1 then Some(T1) else if insert == t2 then Some(T2) else None
    }

    ghost function Model(): State
      reads this`insert, this`t1Target, t1`items, b1`items, t2`items, b2`items
    {
      State(t1.items, b1.items, t2.items, b2.items, InsertList(), t1Target)
    }

    /** The hash covers the four lists and `floating`, entries on their way between lists. */
    ghost predicate Holds(floating: set<CacheEntry>)
      reads this`hash, t1, t1.nodes, b1, b1.nodes, t2, t2.nodes, b2, b2.nodes
    {
      && Four(t1, b1, t2, b2) && Indexes(hash, Entries(t1, b1, t2, b2) + floating)
        && Entries(t1, b1, t2, b2) !! floating
      && entrySize > 0
    }

    ghost predicate Valid()
      reads this, t1, t1.nodes, b1, b1.nodes, t2, t2.nodes, b2, b2.nodes
    {
      Holds({}) && Ok(Limits(), Model())
    }

    /** Every entry in use is still the same object, with its value. */
    twostate predicate InUseStay()
      reads Objects()
    {
      forall e :: e in old(Owned()) && old(e.usage) > 0 ==> e in Owned() && e.Value() == old(e.Value())
    }

    /** The insertion list and the target are as before. */
    twostate predicate Steady()
      reads this`insert, this`t1Target
    {
      insert == old(insert) && t1Target == old(t1Target)
    }

    /** The entries of the cache. */
    ghost function Owned(): set<CacheEntry>
      reads t1`nodes, b1`nodes, t2`nodes, b2`nodes
    {
      Entries(t1, b1, t2, b2)
    }

    /** Entries nobody uses. */
    ghost predicate Unused(entries: set<CacheEntry>)
      reads entries`usage
    {
      forall e :: e in entries ==> e.usage == 0
    }

    /** Its lists and entries. */
    ghost function Objects(): set<object>
      reads t1`nodes, b1`nodes, t2`nodes, b2`nodes
    {
      {t1, b1, t2, b2} + Owned()
    }

    /** `cache_new`; the header is what an entry takes without data. */
    constructor (header: nat, size: nat)
      requires header > 0
      ensures Valid() && Model() == EMPTY && capacity == size && entrySize == header
    {
      capacity, entrySize := size, header;
      t1 := new EntryList();
      b1 := new EntryList();
      t2 := new EntryList();
      b2 := new EntryList();
      insert, t1Target, hash := null, 0, map[];
      new;
      NewIsValid();
    }

    lemma NewIsValid()
      requires Four(t1, b1, t2, b2) && t1.items == b1.items == t2.items == b2.items == []
      requires t1.nodes == b1.nodes == t2.nodes == b2.nodes == []
      requires hash == map[] && insert == null && t1Target == 0 && entrySize > 0
      ensures Valid() && Model() == EMPTY
    {
      EmptyIsFaithful(Limits());
    }

    /** `cache_trim`: an entry with data is replaced by a new one without. */
    method TrimEntry(entry: CacheEntry) returns (trimmed: CacheEntry, ghost extra: set<CacheEntry>)
      requires entry.size >= entrySize && (entry.size == entrySize ==> entry.data == [])
      modifies this`hash
      ensures Steady()
      ensures fresh(extra) && if trimmed == entry then extra == {} else extra == {trimmed}
      ensures trimmed.id == entry.id && trimmed.Value() == Trim(Limits(), entry.Value())
      ensures hash == if trimmed == entry then old(hash) else old(hash)[entry.id := trimmed]
    {
      if entrySize < entry.size {
        hash := hash - {entry.id};
        trimmed := new CacheEntry(entry.id, entrySize, entry.usage, []);
        hash := hash[trimmed.id := trimmed];
        extra := {trimmed};
      } else {
        trimmed := entry;
        extra := {};
      }
    }

    /** The second half of `cache_move`: a victim becomes the newest entry of a ghost list. */
    method MakeGhost(entry: CacheEntry, to: EntryList) returns (moved: CacheEntry, ghost extra: set<CacheEntry>)
      requires to.Sound() && entry !in to.nodes && entry.size >= entrySize
        && (entry.size == entrySize ==> entry.data == [])
      modifies this`hash, to, to.nodes, entry`where, entry`next, entry`prev
      ensures Steady()
      ensures to.Sound() && moved.id == entry.id && moved.usage == old(entry.usage)
      ensures to.items == [Trim(Limits(), old(entry.Value()))] + old(to.items) && to.nodes == [moved] + old(to.nodes)
      ensures fresh(extra) && if moved == entry then extra == {} && hash == old(hash)
        else extra == {moved} && hash == old(hash)[entry.id := moved]
    {
      assert forall e :: e in to.nodes ==> e != entry;
      moved, extra := TrimEntry(entry);
      assert moved !in to.nodes;
      to.InsertMru(moved);
    }

    lemma VictimOk(es: seq<Entry>)
      requires ResidentsOk(Limits(), es) && Victim(es).Some?
      ensures Victim(es).value in es && Victim(es).value.size >= entrySize
        && (Victim(es).value.size == entrySize ==> Victim(es).value.data == [])
    {
    }

    /** The first half of `cache_move`: the victim leaves its list, beside the list it is to go to. */
    method Evict(from: EntryList, to: EntryList, ghost ns: seq<CacheEntry>, ghost es: seq<Entry>)
      returns (entry: CacheEntry?)
      requires from != to && from.Sound() && to.Sound() && entrySize > 0 && ResidentsOk(Limits(), es)
      requires ns == from.nodes && es == from.items
      modifies from, from.nodes
      ensures Steady()
      ensures from.Sound() && from.items == Rotated(es) && from.nodes == RotatedNodes(ns, es)
      ensures entry == null <==> Victim(es).None?
      ensures entry != null ==> entry == ns[LastUnused(es)] && entry.Value() == Victim(es).value && entry !in from.nodes
      ensures entry != null ==> entry.size >= entrySize && (entry.size == entrySize ==> entry.data == [])
    {
      entry := from.RemoveLru(ns, es);
      if entry != null {
        VictimOk(es);
      }
    }

    /** `MakeGhost` leaves another list alone. */
    method MakeGhostBeside(entry: CacheEntry, to: EntryList, from: EntryList)
      returns (moved: CacheEntry, ghost extra: set<CacheEntry>)
      requires from != to && from.Sound() && to.Sound() && entry !in to.nodes && entry !in from.nodes
      requires entry.size >= entrySize && (entry.size == entrySize ==> entry.data == [])
      modifies this`hash, to, to.nodes, entry`where, entry`next, entry`prev
      ensures Steady()
      ensures to.Sound() && from.Sound() && from.nodes == old(from.nodes) && from.items == old(from.items)
      ensures moved.id == entry.id && moved.usage == old(entry.usage)
      ensures to.items == [Trim(Limits(), old(entry.Value()))] + old(to.items) && to.nodes == [moved] + old(to.nodes)
      ensures fresh(extra) && if moved == entry then extra == {} && hash == old(hash)
        else extra == {moved} && hash == old(hash)[entry.id := moved]
    {
      Apart(from, to);
      moved, extra := MakeGhost(entry, to);
      Untouched(from);
    }

    /**
     The lists of `cache_move` and the hash after it, from the entries `ns`, with values `es`, and `bs`, with
     values `ts`.
     */
    ghost predicate Moved(from: EntryList, to: EntryList, ns: seq<CacheEntry>, es: seq<Entry>, bs: seq<CacheEntry>,
                          ts: seq<Entry>, rest: set<CacheEntry>, moved: bool, extra: set<CacheEntry>)
      requires |ns| == |es|
      reads this`hash, from, from.nodes, to, to.nodes, extra
    {
      && from.Sound() && to.Sound()
      && Indexes(hash, Members(from.nodes) + Members(to.nodes) + rest)
        && Members(from.nodes) + Members(to.nodes) !! rest
      && (moved <==> Victim(es).Some?)
      && from.items == Rotated(es) && from.nodes == RotatedNodes(ns, es)
      && (if moved then to.items == [Trim(Limits(), Victim(es).value)] + ts else to.items == ts)
      && (if moved then |to.nodes| > 0 && to.nodes[1..] == bs else to.nodes == bs && extra == {})
      && (if moved && to.nodes[0] != ns[LastUnused(es)] then extra == {to.nodes[0]} else extra == {})
      && Unused(extra)
    }

    /** The hash over all entries after something moved, or nothing could. */
    lemma AfterMove(was: map<Id, CacheEntry>, es: seq<Entry>, ns: seq<CacheEntry>, bs: seq<CacheEntry>,
                    rest: set<CacheEntry>, now: seq<CacheEntry>, moved: CacheEntry?, victim: CacheEntry?,
                    extra: set<CacheEntry>)
      requires |ns| == |es| && Distinct(ns) && Members(ns) !! Members(bs) + rest
      requires Indexes(was, Members(ns) + Members(bs) + rest) && Members(bs) !! rest
      requires moved == null <==> Victim(es).None?
      requires moved == null ==> now == bs && hash == was
      requires moved != null ==>
        victim != null && victim == ns[LastUnused(es)] && victim.id == moved.id
        && now == [moved] + bs
      requires moved != null ==>
        (moved == victim && hash == was)
        || (moved in extra && moved !in Members(ns) + Members(bs) + rest && hash == was[victim.id := moved])
      ensures var owned := Members(RotatedNodes(ns, es)) + Members(now) + rest;
        Indexes(hash, owned)
        && Members(RotatedNodes(ns, es)) + Members(now) !! rest
    {
      RotatedMembers(ns, es);
      if moved != null {
        AddedMembers(bs, moved);
        var before := Members(ns) + Members(bs) + rest;
        var after := Members(RotatedNodes(ns, es)) + Members(now) + rest;
        assert after == before - {victim} + {moved};
        if moved != victim {
          IndexesReplaced(was, before, victim, moved);
        }
      }
    }

    lemma MoveDone(from: EntryList, to: EntryList, was: map<Id, CacheEntry>, ns: seq<CacheEntry>, es: seq<Entry>,
                   bs: seq<CacheEntry>, ts: seq<Entry>, rest: set<CacheEntry>, moved: CacheEntry?, victim: CacheEntry?,
                   extra: set<CacheEntry>)
      requires |ns| == |es| && Distinct(ns) && Members(ns) !! Members(bs) + rest
      requires Indexes(was, Members(ns) + Members(bs) + rest) && Members(bs) !! rest
      requires from.Sound() && to.Sound() && from.items == Rotated(es) && from.nodes == RotatedNodes(ns, es)
      requires moved == null <==> Victim(es).None?
      requires moved == null ==> to.nodes == bs && to.items == ts && hash == was && extra == {}
      requires moved != null ==>
        to.nodes == [moved] + bs && to.items == [Trim(Limits(), Victim(es).value)] + ts
        && moved.usage == 0
      requires moved != null ==> victim != null && victim == ns[LastUnused(es)] && victim.id == moved.id
      requires moved != null ==> if moved == victim then extra == {} && hash == was
        else extra == {moved} && hash == was[victim.id := moved] && moved !in Members(ns) + Members(bs) + rest
      ensures Moved(from, to, ns, es, bs, ts, rest, moved != null, extra)
    {
      AfterMove(was, es, ns, bs, rest, to.nodes, moved, victim, extra);
    }

    /** `cache_move` from the eviction on. */
    method MoveVictim(entry: CacheEntry?, from: EntryList, to: EntryList, ghost ns: seq<CacheEntry>,
                      ghost es: seq<Entry>, ghost bs: seq<CacheEntry>, ghost ts: seq<Entry>,
                      ghost rest: set<CacheEntry>)
      returns (moved: bool, ghost extra: set<CacheEntry>)
      requires from != to && from.Sound() && to.Sound() && entrySize > 0
      requires |ns| == |es| && Distinct(ns) && from.items == Rotated(es) && from.nodes == RotatedNodes(ns, es)
      requires to.nodes == bs && to.items == ts && Members(ns) !! Members(bs) + rest && Members(bs) !! rest
      requires Indexes(hash, Members(ns) + Members(bs) + rest)
      requires entry == null <==> Victim(es).None?
      requires entry != null ==> entry == ns[LastUnused(es)] && entry.Value() == Victim(es).value
      requires entry != null ==> entry !in from.nodes
      requires entry != null ==> entry.size >= entrySize && (entry.size == entrySize ==> entry.data == [])
      modifies this`hash, to, to.nodes, if entry == null then {} else {entry}
      ensures Steady() && fresh(extra) && Moved(from, to, ns, es, bs, ts, rest, moved, extra)
    {
      ghost var was := hash;
      moved := entry != null;
      var ghostEntry: CacheEntry? := null;
      extra := {};
      if entry != null {
        LastUnusedIsLast(es);
        ghostEntry, extra := MakeGhostBeside(entry, to, from);
      }
      MoveDone(from, to, was, ns, es, bs, ts, rest, ghostEntry, entry, extra);
    }

    /** `cache_move`: the victim of one list, if there is one, becomes the newest ghost of another; the hash follows. */
    method Move(from: EntryList, to: EntryList, ghost ns: seq<CacheEntry>, ghost es: seq<Entry>,
                ghost bs: seq<CacheEntry>, ghost ts: seq<Entry>, ghost rest: set<CacheEntry>)
      returns (moved: bool, ghost extra: set<CacheEntry>)
      requires from != to && from.Sound() && to.Sound() && entrySize > 0 && ResidentsOk(Limits(), es)
      requires ns == from.nodes && es == from.items && bs == to.nodes && ts == to.items
      requires Indexes(hash, Members(ns) + Members(bs) + rest) && Members(ns) + Members(bs) !! rest
      modifies this`hash, from, from.nodes, to, to.nodes
      ensures Steady() && fresh(extra) && Moved(from, to, ns, es, bs, ts, rest, moved, extra)
    {
      Apart(from, to);
      var entry := Evict(from, to, ns, es);
      Untouched(to);
      moved, extra := MoveVictim(entry, from, to, ns, es, bs, ts, rest);
    }

    /** `Move` beside two other lists. */
    method MoveBeside(from: EntryList, to: EntryList, c: EntryList, d: EntryList, ghost ns: seq<CacheEntry>,
                      ghost es: seq<Entry>, ghost bs: seq<CacheEntry>, ghost ts: seq<Entry>,
                      ghost rest: set<CacheEntry>, ghost mine: set<object>, ghost theirs: set<object>)
      returns (moved: bool, ghost extra: set<CacheEntry>)
      requires from != to && from.Sound() && to.Sound() && entrySize > 0 && ResidentsOk(Limits(), es)
      requires ns == from.nodes && es == from.items && bs == to.nodes && ts == to.items
      requires Indexes(hash, Members(ns) + Members(bs) + rest) && Members(ns) + Members(bs) !! rest
      requires mine == Footprint(from, to) && mine !! theirs && this !in theirs && Sounds(c, d, theirs)
      modifies this`hash, mine
      ensures Steady() && fresh(extra) && Moved(from, to, ns, es, bs, ts, rest, moved, extra)
      ensures Still(c, d, theirs) == old(Still(c, d, theirs))
    {
      moved, extra := Move(from, to, ns, es, bs, ts, rest);
    }

    /** What `MoveBeside` needs to know of the four lists. */
    lemma Split(a: EntryList, b: EntryList, c: EntryList, d: EntryList, floating: set<CacheEntry>,
                rest: set<CacheEntry>, mine: set<object>, theirs: set<object>)
      requires Four(a, b, c, d) && Indexes(hash, Entries(a, b, c, d) + floating) && Entries(a, b, c, d) !! floating
      requires rest == Members(c.nodes) + Members(d.nodes) + floating && mine == Footprint(a, b)
        && theirs == Footprint(c, d)
      ensures Indexes(hash, Members(a.nodes) + Members(b.nodes) + rest) && Members(a.nodes) + Members(b.nodes) !! rest
      ensures mine !! theirs && this !in theirs && Sounds(c, d, theirs)
    {
      FourApart(a, b, c, d);
      FourApart(b, a, c, d);
      FootprintsApart(a, b, c, d);
      assert Entries(a, b, c, d) + floating == Members(a.nodes) + Members(b.nodes) + rest;
    }

    /** The converse of `Split`. */
    lemma Joined(a: EntryList, b: EntryList, c: EntryList, d: EntryList, floating: set<CacheEntry>,
                 rest: set<CacheEntry>, theirs: set<object>)
      requires a != b && a != c && a != d && b != c && b != d && c != d && a.Sound() && b.Sound()
        && Sounds(c, d, theirs)
      requires rest == Members(c.nodes) + Members(d.nodes) + floating && Members(c.nodes) + Members(d.nodes) !! floating
      requires Indexes(hash, Members(a.nodes) + Members(b.nodes) + rest) && Members(a.nodes) + Members(b.nodes) !! rest
      ensures Four(a, b, c, d) && Indexes(hash, Entries(a, b, c, d) + floating) && Entries(a, b, c, d) !! floating
    {
      assert Entries(a, b, c, d) + floating == Members(a.nodes) + Members(b.nodes) + rest;
    }

    /** No entry comes to the lists but a new ghost. */
    lemma MovedOwned(from: EntryList, to: EntryList, ns: seq<CacheEntry>, es: seq<Entry>, bs: seq<CacheEntry>,
                     ts: seq<Entry>, rest: set<CacheEntry>, moved: bool, extra: set<CacheEntry>)
      requires |ns| == |es| && Distinct(ns) && Moved(from, to, ns, es, bs, ts, rest, moved, extra)
      ensures Members(from.nodes) + Members(to.nodes) <= Members(ns) + Members(bs) + extra
    {
      RotatedMembers(ns, es);
      if moved {
        assert to.nodes == [to.nodes[0]] + bs;
        AddedMembers(bs, to.nodes[0]);
      }
    }

    /** `Move` among the four lists. */
    method MoveIndexed(from: EntryList, to: EntryList, c: EntryList, d: EntryList, ghost es: seq<Entry>,
                       ghost ts: seq<Entry>, ghost floating: set<CacheEntry>)
      returns (moved: bool, ghost extra: set<CacheEntry>)
      requires Four(from, to, c, d) && entrySize > 0 && ResidentsOk(Limits(), es) && es == from.items && ts == to.items
      requires Indexes(hash, Entries(from, to, c, d) + floating) && Entries(from, to, c, d) !! floating
      modifies this`hash, Footprint(from, to)
      ensures Entries(from, to, c, d) <= old(Entries(from, to, c, d)) + extra && fresh(extra) && Unused(extra)
      ensures Steady() && Four(from, to, c, d)
      ensures Indexes(hash, Entries(from, to, c, d) + floating) && Entries(from, to, c, d) !! floating
      ensures c.items == old(c.items) && d.items == old(d.items) && Footprint(c, d) == old(Footprint(c, d))
      ensures (moved <==> Victim(es).Some?) && from.items == Rotated(es)
      ensures moved ==> to.items == [Trim(Limits(), Victim(es).value)] + ts
      ensures !moved ==> to.items == ts && extra == {}
    {
      ghost var mine, theirs := Footprint(from, to), Footprint(c, d);
      ghost var rest, ns, bs := Members(c.nodes) + Members(d.nodes) + floating, from.nodes, to.nodes;
      Split(from, to, c, d, floating, rest, mine, theirs);
      moved, extra := MoveBeside(from, to, c, d, ns, es, bs, ts, rest, mine, theirs);
      MovedOwned(from, to, ns, es, bs, ts, rest, moved, extra);
      Joined(from, to, c, d, floating, rest, theirs);
    }

    lemma ModelAfter1(s: State, moved: bool)
      requires moved <==> Victim(s.t1).Some?
      requires t1.items == Rotated(s.t1)
      requires moved ==> b1.items == [Trim(Limits(), Victim(s.t1).value)] + s.b1
      requires !moved ==> b1.items == s.b1
      requires t2.items == s.t2 && b2.items == s.b2 && InsertList() == s.insert && t1Target == s.target
      ensures Model() == if moved then MoveT1(Limits(), s) else s
    {
    }

    /** `cache_move` from T1 to B1. */
    method ReplaceT1(ghost floating: set<CacheEntry>, ghost s: State)
      returns (moved: bool, ghost extra: set<CacheEntry>)
      requires Holds(floating) && s == Model() && Ok(Limits(), s)
      modifies this`hash, Footprint(t1, b1)
      ensures Owned() <= old(Owned()) + extra && fresh(extra) && Unused(extra)
      ensures Steady() && Footprint(t2, b2) == old(Footprint(t2, b2))
      ensures Holds(floating) && (moved <==> Victim(s.t1).Some?) && (!moved ==> extra == {})
      ensures Model() == if moved then MoveT1(Limits(), s) else s
    {
      moved, extra := MoveIndexed(t1, b1, t2, b2, s.t1, s.b1, floating);
      ModelAfter1(s, moved);
    }

    /** `cache_replace` when T1 is to give way, or T2 if T1 is all in use. */
    method ReplaceFrom1(ghost floating: set<CacheEntry>, ghost s: State) returns (ghost extra: set<CacheEntry>)
      requires Holds(floating) && s == Model() && Ok(Limits(), s)
      modifies this`hash, Footprint(t1, b1), Footprint(t2, b2)
      ensures Owned() <= old(Owned()) + extra && fresh(extra) && Unused(extra)
      ensures Steady() && Holds(floating)
      ensures Model() == if Victim(s.t1).Some? then MoveT1(Limits(), s)
        else if Victim(s.t2).Some? then MoveT2(Limits(), s) else s
    {
      var moved;
      moved, extra := ReplaceT1(floating, s);
      if !moved {
        moved, extra := ReplaceT2(floating, s);
      }
    }

    lemma ModelAfter2(s: State, moved: bool)
      requires moved <==> Victim(s.t2).Some?
      requires t2.items == Rotated(s.t2)
      requires moved ==> b2.items == [Trim(Limits(), Victim(s.t2).value)] + s.b2
      requires !moved ==> b2.items == s.b2
      requires t1.items == s.t1 && b1.items == s.b1 && InsertList() == s.insert && t1Target == s.target
      ensures Model() == if moved then MoveT2(Limits(), s) else s
    {
    }

    /** `cache_move` from T2 to B2. */
    method ReplaceT2(ghost floating: set<CacheEntry>, ghost s: State)
      returns (moved: bool, ghost extra: set<CacheEntry>)
      requires Holds(floating) && s == Model() && Ok(Limits(), s)
      modifies this`hash, Footprint(t2, b2)
      ensures Owned() <= old(Owned()) + extra && fresh(extra) && Unused(extra)
      ensures Steady() && Footprint(t1, b1) == old(Footprint(t1, b1))
      ensures Holds(floating) && (moved <==> Victim(s.t2).Some?) && (!moved ==> extra == {})
      ensures Model() == if moved then MoveT2(Limits(), s) else s
    {
      EntriesSwap(t2, b2, t1, b1);
      moved, extra := MoveIndexed(t2, b2, t1, b1, s.t2, s.b2, floating);
      EntriesSwap(t2, b2, t1, b1);
      ModelAfter2(s, moved);
    }

    /** `cache_replace` when T2 is to give way, or T1 if T2 is all in use. */
    method ReplaceFrom2(ghost floating: set<CacheEntry>, ghost s: State) returns (ghost extra: set<CacheEntry>)
      requires Holds(floating) && s == Model() && Ok(Limits(), s)
      modifies this`hash, Footprint(t1, b1), Footprint(t2, b2)
      ensures Owned() <= old(Owned()) + extra && fresh(extra) && Unused(extra)
      ensures Steady() && Holds(floating)
      ensures Model() == if Victim(s.t2).Some? then MoveT2(Limits(), s)
        else if Victim(s.t1).Some? then MoveT1(Limits(), s) else s
    {
      var moved;
      moved, extra := ReplaceT2(floating, s);
      if !moved {
        moved, extra := ReplaceT1(floating, s);
      }
    }

    // ----- which objects stay

    /** The values of some entries. */
    ghost function Values(entries: set<CacheEntry>): map<CacheEntry, Entry>
      reads entries
    {
      map e | e in entries :: e.Value()
    }

    /** What holds a value of an identifier known before is the entry that held it, unless it is new. */
    lemma SameEntry(floating: set<CacheEntry>, before: set<CacheEntry>, was: map<Id, CacheEntry>, e: CacheEntry,
                    v: Entry, extra: set<CacheEntry>)
      requires Holds(floating) && Owned() <= before + extra && Unused(extra)
      requires forall x :: x in before ==> x.id in was && was[x.id] == x
      requires e in before && e.id == v.id && v.usage > 0 && Resident(Model(), v)
      ensures e in Owned() && e.Value() == v
    {
      var list := if v in t1.items then t1 else t2;
      var k :| 0 <= k < |list.items| && list.items[k] == v;
      assert list.nodes[k].Value() == v && list.nodes[k] in Owned();
    }

    /** An entry has the value the model has for its identifier. */
    lemma HasValue(e: CacheEntry, v: Entry)
      requires Holds({}) && e in Owned() && e.id == v.id && Resident(Model(), v)
      ensures e.Value() == v
    {
      var list := if v in t1.items then t1 else t2;
      var k :| 0 <= k < |list.items| && list.items[k] == v;
      assert list.nodes[k].Value() == v && list.nodes[k] in Entries(t1, b1, t2, b2) + {};
      assert e in Entries(t1, b1, t2, b2) + {};
    }

    lemma HashKnows()
      requires Holds({})
      ensures forall id :: id in hash ==> hash[id].id == id && hash[id] in Owned()
    {
      assert Owned() + {} == Owned();
    }

    /** The value of an entry in use is resident. */
    lemma InUseIsResident(floating: set<CacheEntry>, s: State, e: CacheEntry)
      requires Holds(floating) && s == Model() && Ok(Limits(), s) && e in Owned() && e.usage > 0
      ensures Resident(s, e.Value())
    {
      var list, k := Listed(e);
      assert e.Value() in list.items;
    }

    /** A record of the cache's entries: no two have one identifier, and those in use are residents of `s`. */
    ghost predicate Pictured(before: map<CacheEntry, Entry>, was: map<Id, CacheEntry>, s: State) {
      forall e :: e in before ==>
        e.id in was && was[e.id] == e && before[e].id == e.id && (before[e].usage > 0 ==> Resident(s, before[e]))
    }

    lemma Picture(floating: set<CacheEntry>, s: State)
      requires Holds(floating) && s == Model() && Ok(Limits(), s)
      ensures Pictured(Values(Owned()), hash, s)
    {
      forall e | e in Owned() && e.usage > 0 ensures Resident(s, e.Value()) {
        InUseIsResident(floating, s, e);
      }
    }

    /** An operation that spares the values in use, and brings only entries nobody uses, keeps the objects in use. */
    lemma Kept(floating: set<CacheEntry>, before: map<CacheEntry, Entry>, was: map<Id, CacheEntry>, s: State,
               extra: set<CacheEntry>)
      requires Holds(floating) && Owned() <= before.Keys + extra && Unused(extra)
      requires Pictured(before, was, s) && Spares(s, Model())
      ensures forall e :: e in before && before[e].usage > 0 ==> e in Owned() && e.Value() == before[e]
    {
      forall e | e in before && before[e].usage > 0 ensures e in Owned() && e.Value() == before[e] {
        SameEntry(floating, before.Keys, was, e, before[e], extra);
      }
    }

    /** The choice in `cache_replace`. */
    method ReplaceOne(ghost floating: set<CacheEntry>, ghost s: State) returns (ghost extra: set<CacheEntry>)
      requires Holds(floating) && s == Model() && Ok(Limits(), s)
      modifies this`hash, Objects()
      ensures Owned() <= old(Owned()) + extra && fresh(extra) && Unused(extra)
      ensures Steady() && Holds(floating) && Model() == Replace(Limits(), s)
    {
      assert t1.size == Sum(s.t1) && t1Target == s.target;
      ghost var target := Replace(Limits(), s);
      if t1.size >= Max(1, t1Target) {
        assert target == if Victim(s.t1).Some? then MoveT1(Limits(), s)
          else if Victim(s.t2).Some? then MoveT2(Limits(), s) else s;
        extra := ReplaceFrom1(floating, s);
      } else {
        assert target == if Victim(s.t2).Some? then MoveT2(Limits(), s)
          else if Victim(s.t1).Some? then MoveT1(Limits(), s) else s;
        extra := ReplaceFrom2(floating, s);
      }
      assert Model() == target;
    }

    /** `cache_replace`. */
    method ReplaceEntry(ghost floating: set<CacheEntry>, ghost s: State) returns (ghost extra: set<CacheEntry>)
      requires Holds(floating) && s == Model() && Ok(Limits(), s)
      modifies this`hash, Objects()
      ensures Owned() <= old(Owned()) + extra && fresh(extra) && Unused(extra)
      ensures Steady() && Holds(floating) && Model() == Replace(Limits(), s)
      ensures InUseStay()
    {
      ghost var before, was := Values(Owned()), hash;
      Picture(floating, s);
      ReplaceKeeps(Limits(), s, Replace(Limits(), s));
      extra := ReplaceOne(floating, s);
      Kept(floating, before, was, s, extra);
    }

    // ----- taking entries off lists and putting them on

    /** `cache_remove_from_list` beside the other lists. */
    method TakeBeside(from: EntryList, ghost b: EntryList, ghost c: EntryList, ghost d: EntryList, entry: CacheEntry,
                      ghost k: nat, ghost mine: set<object>, ghost theirs: set<object>)
      requires from.Sound() && k < |from.nodes| && from.nodes[k] == entry && mine == Footprint(from, from)
      requires mine !! theirs && Sounds(b, b, theirs) && Sounds(c, d, theirs)
      modifies mine
      ensures from.Sound() && from.nodes == Dropped(old(from.nodes), k) && from.items == Dropped(old(from.items), k)
      ensures Sounds(b, b, theirs) && Sounds(c, d, theirs)
      ensures b.nodes == old(b.nodes) && c.nodes == old(c.nodes) && d.nodes == old(d.nodes)
      ensures b.items == old(b.items) && c.items == old(c.items) && d.items == old(d.items)
      ensures entry.Value() == old(entry.Value())
    {
      from.Remove(entry, k);
    }

    lemma OneApart(a: EntryList, b: EntryList)
      requires a != b && a.Sound() && b.Sound()
      ensures Footprint(a, a) !! Footprint(b, b)
    {
      Apart(a, b);
    }

    /** What `TakeBeside` needs to know. */
    lemma One(a: EntryList, b: EntryList, c: EntryList, d: EntryList, mine: set<object>, theirs: set<object>)
      requires Four(a, b, c, d) && mine == Footprint(a, a) && theirs == Footprint(b, b) + Footprint(c, d)
      ensures mine !! theirs && Sounds(b, b, theirs) && Sounds(c, d, theirs) && this !in mine
    {
      OneApart(a, b);
      OneApart(a, c);
      OneApart(a, d);
      assert theirs == Footprint(b, b) + Footprint(c, c) + Footprint(d, d);
    }

    lemma TakenSets(ns: set<CacheEntry>, now: set<CacheEntry>, rest: set<CacheEntry>, entry: CacheEntry)
      requires ns !! rest && entry in ns && now == ns - {entry}
      ensures now + rest + {entry} == ns + rest && now + rest !! {entry}
    {
    }

    lemma Taken(a: EntryList, b: EntryList, c: EntryList, d: EntryList, theirs: set<object>, ns: seq<CacheEntry>,
                k: nat, rest: set<CacheEntry>)
      requires a != b && a != c && a != d && b != c && b != d && c != d && a.Sound() && Sounds(b, b, theirs)
        && Sounds(c, d, theirs)
      requires k < |ns| && Distinct(ns) && a.nodes == Dropped(ns, k)
      requires rest == Members(b.nodes) + Members(c.nodes) + Members(d.nodes) && Members(ns) !! rest
      requires Indexes(hash, Members(ns) + rest)
      ensures Entries(a, b, c, d) + {ns[k]} == Members(ns) + rest
      ensures Four(a, b, c, d) && Entries(a, b, c, d) !! {ns[k]} && Indexes(hash, Entries(a, b, c, d) + {ns[k]})
    {
      DroppedMembers(ns, k);
      TakenSets(Members(ns), Members(a.nodes), rest, ns[k]);
      assert Entries(a, b, c, d) == Members(a.nodes) + rest;
    }

    /** `cache_remove_from_list` among the four lists: the entry floats. */
    method Take(from: EntryList, ghost b: EntryList, ghost c: EntryList, ghost d: EntryList, entry: CacheEntry,
                ghost k: nat)
      requires Four(from, b, c, d) && k < |from.nodes| && from.nodes[k] == entry
        && Indexes(hash, Entries(from, b, c, d))
      modifies Footprint(from, from)
      ensures Steady() && Four(from, b, c, d) && Entries(from, b, c, d) !! {entry}
        && Indexes(hash, Entries(from, b, c, d) + {entry})
      ensures from.items == Dropped(old(from.items), k)
      ensures Entries(from, b, c, d) + {entry} == old(Entries(from, b, c, d))
      ensures b.items == old(b.items) && c.items == old(c.items) && d.items == old(d.items)
      ensures b.nodes == old(b.nodes) && c.nodes == old(c.nodes) && d.nodes == old(d.nodes)
      ensures from.nodes == Dropped(old(from.nodes), k) && entry.Value() == old(entry.Value())
    {
      ghost var mine, theirs := Footprint(from, from), Footprint(b, b) + Footprint(c, d);
      ghost var rest, ns := Members(b.nodes) + Members(c.nodes) + Members(d.nodes), from.nodes;
      One(from, b, c, d, mine, theirs);
      FourApart(from, b, c, d);
      assert Entries(from, b, c, d) == Members(ns) + rest;
      assert Members(ns) !! rest && Indexes(hash, Members(ns) + rest);
      TakeBeside(from, b, c, d, entry, k, mine, theirs);
      Taken(from, b, c, d, theirs, ns, k, rest);
    }

    /** `cache_insert_mru` without the hash. */
    method Receive(to: EntryList, entry: CacheEntry, ghost mine: set<object>)
      requires to.Sound() && entry !in to.nodes && mine == Footprint(to, to) + {entry}
      modifies mine
      ensures to.Sound() && to.nodes == [entry] + old(to.nodes) && to.items == [old(entry.Value())] + old(to.items)
    {
      to.InsertMru(entry);
    }

    /** `Receive` beside the other lists. */
    method PutBeside(to: EntryList, ghost b: EntryList, ghost c: EntryList, ghost d: EntryList, entry: CacheEntry,
                     ghost mine: set<object>, ghost theirs: set<object>)
      requires to.Sound() && entry !in to.nodes && mine == Footprint(to, to) + {entry}
      requires mine !! theirs && Sounds(b, b, theirs) && Sounds(c, d, theirs)
      modifies mine
      ensures to.Sound() && to.nodes == [entry] + old(to.nodes) && to.items == [old(entry.Value())] + old(to.items)
      ensures Sounds(b, b, theirs) && Sounds(c, d, theirs)
      ensures b.nodes == old(b.nodes) && c.nodes == old(c.nodes) && d.nodes == old(d.nodes)
      ensures b.items == old(b.items) && c.items == old(c.items) && d.items == old(d.items)
    {
      Receive(to, entry, mine);
    }

    /** What `PutBeside` needs to know. */
    lemma OneMore(a: EntryList, b: EntryList, c: EntryList, d: EntryList, entry: CacheEntry, mine: set<object>,
                  theirs: set<object>)
      requires Four(a, b, c, d) && entry !in Entries(a, b, c, d) && mine == Footprint(a, a) + {entry}
        && theirs == Footprint(b, b) + Footprint(c, d)
      ensures mine !! theirs && Sounds(b, b, theirs) && Sounds(c, d, theirs) && this !in mine
    {
      One(a, b, c, d, Footprint(a, a), theirs);
      assert entry !in theirs;
    }

    lemma PutDone(a: EntryList, b: EntryList, c: EntryList, d: EntryList, theirs: set<object>, ns: seq<CacheEntry>,
                  entry: CacheEntry, rest: set<CacheEntry>)
      requires a != b && a != c && a != d && b != c && b != d && c != d && a.Sound() && Sounds(b, b, theirs)
        && Sounds(c, d, theirs)
      requires a.nodes == [entry] + ns && rest == Members(b.nodes) + Members(c.nodes) + Members(d.nodes)
      requires Indexes(hash, Members(ns) + rest + {entry})
      ensures Entries(a, b, c, d) == Members(ns) + rest + {entry}
      ensures Four(a, b, c, d) && Indexes(hash, Entries(a, b, c, d))
    {
      AddedMembers(ns, entry);
      assert Entries(a, b, c, d) == Members(ns) + rest + {entry};
    }

    /** `cache_insert_mru` among the four lists: the floating entry lands, at the head. */
    method Put(to: EntryList, ghost b: EntryList, ghost c: EntryList, ghost d: EntryList, entry: CacheEntry)
      requires Four(to, b, c, d) && entry !in Entries(to, b, c, d) && Indexes(hash, Entries(to, b, c, d) + {entry})
      modifies Footprint(to, to) + {entry}
      ensures Steady() && Four(to, b, c, d) && Indexes(hash, Entries(to, b, c, d))
      ensures to.items == [old(entry.Value())] + old(to.items) && to.nodes == [entry] + old(to.nodes)
      ensures Entries(to, b, c, d) == old(Entries(to, b, c, d)) + {entry}
      ensures b.items == old(b.items) && c.items == old(c.items) && d.items == old(d.items)
      ensures b.nodes == old(b.nodes) && c.nodes == old(c.nodes) && d.nodes == old(d.nodes)
    {
      ghost var mine, theirs := Footprint(to, to) + {entry}, Footprint(b, b) + Footprint(c, d);
      ghost var rest, ns := Members(b.nodes) + Members(c.nodes) + Members(d.nodes), to.nodes;
      OneMore(to, b, c, d, entry, mine, theirs);
      assert Entries(to, b, c, d) == Members(ns) + rest;
      assert Indexes(hash, Members(ns) + rest + {entry});
      PutBeside(to, b, c, d, entry, mine, theirs);
      PutDone(to, b, c, d, theirs, ns, entry, rest);
    }

    /** A change of users beside the other lists. */
    method UseBeside(list: EntryList, ghost b: EntryList, ghost c: EntryList, ghost d: EntryList, entry: CacheEntry,
                     users: int, ghost k: nat, ghost mine: set<object>, ghost theirs: set<object>)
      requires list.Sound() && k < |list.nodes| && list.nodes[k] == entry && mine == Footprint(list, list)
      requires mine !! theirs && Sounds(b, b, theirs) && Sounds(c, d, theirs)
      modifies mine
      ensures list.Sound() && list.nodes == old(list.nodes)
        && list.items == old(list.items)[k := Used(old(list.items)[k], users)]
      ensures Sounds(b, b, theirs) && Sounds(c, d, theirs)
      ensures b.nodes == old(b.nodes) && c.nodes == old(c.nodes) && d.nodes == old(d.nodes)
      ensures b.items == old(b.items) && c.items == old(c.items) && d.items == old(d.items)
    {
      list.Use(entry, users, k);
    }

    /** A change of users of an entry of one of the four lists. */
    method Use(list: EntryList, ghost b: EntryList, ghost c: EntryList, ghost d: EntryList, entry: CacheEntry,
               users: int, ghost k: nat)
      requires Four(list, b, c, d) && k < |list.nodes| && list.nodes[k] == entry
        && Indexes(hash, Entries(list, b, c, d))
      modifies Footprint(list, list)
      ensures Steady() && Four(list, b, c, d) && Indexes(hash, Entries(list, b, c, d))
      ensures list.nodes == old(list.nodes) && list.items == old(list.items)[k := Used(old(list.items)[k], users)]
      ensures b.items == old(b.items) && c.items == old(c.items) && d.items == old(d.items)
      ensures b.nodes == old(b.nodes) && c.nodes == old(c.nodes) && d.nodes == old(d.nodes)
    {
      ghost var mine, theirs := Footprint(list, list), Footprint(b, b) + Footprint(c, d);
      One(list, b, c, d, mine, theirs);
      UseBeside(list, b, c, d, entry, users, k, mine, theirs);
    }

    // ----- where an identifier is

    lemma InList(list: EntryList, entry: CacheEntry) returns (k: nat)
      requires list.Sound() && entry in list.nodes
      ensures k < |list.nodes| == |list.items| && list.nodes[k] == entry && list.items[k] == entry.Value()
        && entry.where == list
    {
      k :| k < |list.nodes| && list.nodes[k] == entry;
    }

    lemma Listed(entry: CacheEntry) returns (list: EntryList, k: nat)
      requires Four(t1, b1, t2, b2) && entry in Entries(t1, b1, t2, b2)
      ensures list == t1 || list == b1 || list == t2 || list == b2
      ensures entry.where == list && k < |list.nodes| == |list.items| && list.nodes[k] == entry
        && list.items[k] == entry.Value()
    {
      list := if entry in t1.nodes then t1 else if entry in b1.nodes then b1 else if entry in t2.nodes then t2 else b2;
      k := InList(list, entry);
    }

    /** A hashed entry is where it says, and a search of that list for its identifier finds it. */
    lemma Located(s: State, id: Id) returns (k: nat)
      requires Valid() && s == Model() && id in hash
      ensures var entry := hash[id];
        && entry.id == id && entry.where != null
        && (entry.where == t1 || entry.where == b1 || entry.where == t2 || entry.where == b2)
        && k < |entry.where.nodes| == |entry.where.items| && entry.where.nodes[k] == entry
          && entry.where.items[k] == entry.Value()
        && Find(entry.where.items, id) == k
    {
      var entry := hash[id];
      var list;
      list, k := Listed(entry);
      OnlyOneHas(Limits(), s, id);
      FindIsOnly(list.items, k);
    }

    lemma HasIsHashed(list: EntryList, id: Id)
      requires list.Sound() && Has(list.items, id)
      ensures exists e :: e in list.nodes && e.id == id
    {
      var k := Find(list.items, id);
      assert list.nodes[k].Value() == list.items[k];
    }

    /** The hash knows exactly the identifiers in the lists. */
    lemma HashedIsCounted(s: State, id: Id)
      requires Valid() && s == Model()
      ensures id in hash <==> Count(s, id) == 1
    {
      OnlyOneHas(Limits(), s, id);
      if id in hash {
        var k := Located(s, id);
      } else {
        forall list | list == t1 || list == b1 || list == t2 || list == b2 ensures !Has(list.items, id) {
          if Has(list.items, id) {
            HasIsHashed(list, id);
          }
        }
      }
    }

    /** What the operations below start from, whichever list they take an entry off. */
    lemma Grounded()
      requires Holds({})
      ensures Indexes(hash, Entries(t1, b1, t2, b2)) && Indexes(hash, Entries(t2, t1, b1, b2))
      ensures Indexes(hash, Entries(b1, t1, t2, b2)) && Indexes(hash, Entries(b2, t1, b1, t2))
    {
      assert Entries(t1, b1, t2, b2) + {} == Entries(t1, b1, t2, b2) == Entries(t2, t1, b1, b2);
      assert Entries(b1, t1, t2, b2) == Entries(t1, b1, t2, b2) == Entries(b2, t1, b1, t2);
    }

    /** The four lists, one of them first. */
    ghost predicate Order(a: EntryList, b: EntryList, c: EntryList, d: EntryList) {
      || (a == t1 && b == b1 && c == t2 && d == b2) || (a == t2 && b == t1 && c == b1 && d == b2)
      || (a == b1 && b == t1 && c == t2 && d == b2) || (a == b2 && b == t1 && c == b1 && d == t2)
    }

    /** The converse of `Grounded`. */
    lemma Rests(a: EntryList, b: EntryList, c: EntryList, d: EntryList)
      requires Order(a, b, c, d)
      requires Four(a, b, c, d) && Indexes(hash, Entries(a, b, c, d)) && entrySize > 0
      ensures Holds({})
    {
      assert Entries(t1, b1, t2, b2) + {} == Entries(a, b, c, d);
    }

    /** An entry is on its way between lists. */
    lemma Floats(a: EntryList, b: EntryList, c: EntryList, d: EntryList, entry: CacheEntry)
      requires Order(a, b, c, d)
      requires Four(a, b, c, d) && Entries(a, b, c, d) !! {entry} && Indexes(hash, Entries(a, b, c, d) + {entry})
        && entrySize > 0
      ensures Holds({entry})
    {
      assert Entries(t1, b1, t2, b2) == Entries(a, b, c, d);
    }

    /** An entry of T1 comes off its list. */
    method TakeT1(entry: CacheEntry, ghost k: nat)
      requires Holds({}) && k < |t1.nodes| == |t1.items| && t1.nodes[k] == entry
      modifies Objects()
      ensures Steady() && Holds({entry}) && Model() == old(Model()).(t1 := Dropped(old(t1.items), k))
      ensures Owned() <= old(Owned()) && entry in old(Owned()) && entry.Value() == old(entry.Value())
    {
      Grounded();
      assert entry in Footprint(t1, t1);
      Take(t1, b1, t2, b2, entry, k);
      Floats(t1, b1, t2, b2, entry);
    }

    /** An entry of B1 comes off its list. */
    method TakeB1(entry: CacheEntry, ghost k: nat)
      requires Holds({}) && k < |b1.nodes| == |b1.items| && b1.nodes[k] == entry
      modifies Objects()
      ensures Steady() && Holds({entry}) && Model() == old(Model()).(b1 := Dropped(old(b1.items), k))
      ensures Owned() <= old(Owned()) && entry in old(Owned()) && entry.Value() == old(entry.Value())
    {
      Grounded();
      assert entry in Footprint(b1, b1);
      Take(b1, t1, t2, b2, entry, k);
      Floats(b1, t1, t2, b2, entry);
    }

    /** An entry of T2 comes off its list. */
    method TakeT2(entry: CacheEntry, ghost k: nat)
      requires Holds({}) && k < |t2.nodes| == |t2.items| && t2.nodes[k] == entry
      modifies Objects()
      ensures Steady() && Holds({entry}) && Model() == old(Model()).(t2 := Dropped(old(t2.items), k))
      ensures Owned() <= old(Owned()) && entry in old(Owned()) && entry.Value() == old(entry.Value())
    {
      Grounded();
      assert entry in Footprint(t2, t2);
      Take(t2, t1, b1, b2, entry, k);
      Floats(t2, t1, b1, b2, entry);
    }

    /** An entry of B2 comes off its list. */
    method TakeB2(entry: CacheEntry, ghost k: nat)
      requires Holds({}) && k < |b2.nodes| == |b2.items| && b2.nodes[k] == entry
      modifies Objects()
      ensures Steady() && Holds({entry}) && Model() == old(Model()).(b2 := Dropped(old(b2.items), k))
      ensures Owned() <= old(Owned()) && entry in old(Owned()) && entry.Value() == old(entry.Value())
    {
      Grounded();
      assert entry in Footprint(b2, b2);
      Take(b2, t1, b1, t2, entry, k);
      Floats(b2, t1, b1, t2, entry);
    }

    /** `cache_insert_mru` on T1. */
    method PutT1(entry: CacheEntry)
      requires Holds({entry})
      modifies Objects() + {entry}
      ensures Steady() && Holds({}) && t1.nodes == [entry] + old(t1.nodes)
      ensures Model() == old(Model()).(t1 := [old(entry.Value())] + old(t1.items))
      ensures Owned() == old(Owned()) + {entry}
    {
      EntriesTurned(t1, b1, t2, b2);
      Put(t1, b1, t2, b2, entry);
      Rests(t1, b1, t2, b2);
    }

    /** A change of users of an entry of T1. */
    method UseT1(entry: CacheEntry, users: int, ghost k: nat)
      requires Holds({}) && k < |t1.nodes| == |t1.items| && t1.nodes[k] == entry
      modifies Objects()
      ensures Steady() && Holds({}) && t1.nodes == old(t1.nodes)
      ensures Model() == old(Model()).(t1 := old(t1.items)[k := Used(old(t1.items)[k], users)])
      ensures Owned() == old(Owned())
    {
      Grounded();
      Use(t1, b1, t2, b2, entry, users, k);
      Rests(t1, b1, t2, b2);
    }

    /** `cache_insert_mru` on T2. */
    method PutT2(entry: CacheEntry)
      requires Holds({entry})
      modifies Objects() + {entry}
      ensures Steady() && Holds({}) && t2.nodes == [entry] + old(t2.nodes)
      ensures Model() == old(Model()).(t2 := [old(entry.Value())] + old(t2.items))
      ensures Owned() == old(Owned()) + {entry}
    {
      EntriesTurned(t1, b1, t2, b2);
      Put(t2, t1, b1, b2, entry);
      Rests(t2, t1, b1, b2);
    }

    /** A change of users of an entry of T2. */
    method UseT2(entry: CacheEntry, users: int, ghost k: nat)
      requires Holds({}) && k < |t2.nodes| == |t2.items| && t2.nodes[k] == entry
      modifies Objects()
      ensures Steady() && Holds({}) && t2.nodes == old(t2.nodes)
      ensures Model() == old(Model()).(t2 := old(t2.items)[k := Used(old(t2.items)[k], users)])
      ensures Owned() == old(Owned())
    {
      Grounded();
      Use(t2, t1, b1, b2, entry, users, k);
      Rests(t2, t1, b1, b2);
    }

    // ----- cache_lookup

    lemma UsedHead(e: Entry, rest: seq<Entry>)
      ensures ([e] + rest)[0 := Used(e, 1)] == [Used(e, 1)] + rest
    {
    }

    /** The entry of a hit becomes the newest of T2 with one more user. */
    method PutUsed(entry: CacheEntry, ghost m: State)
      requires Holds({entry}) && m == Model()
      modifies Objects() + {entry}
      ensures Steady() && Holds({}) && t2.nodes != [] && t2.nodes[0] == entry
        && entry.Value() == Used(old(entry.Value()), 1)
      ensures Model() == m.(t2 := [Used(old(entry.Value()), 1)] + m.t2)
      ensures Owned() == old(Owned()) + {entry}
    {
      UsedHead(entry.Value(), m.t2);
      PutT2(entry);
      UseT2(entry, 1, 0);
    }

    /** A hit in T1. */
    method HitT1(entry: CacheEntry, id: Id, ghost k: nat, ghost s: State)
      requires Holds({}) && s == Model() && k == Find(s.t1, id) && k < |t1.nodes| == |s.t1| && t1.nodes[k] == entry
        && s.t1[k] == entry.Value()
      modifies Objects()
      ensures Steady() && Holds({}) && Model() == Hit(s, id)
      ensures t2.nodes != [] && t2.nodes[0] == entry && Owned() <= old(Owned())
        && entry.Value() == Used(old(entry.Value()), 1)
    {
      assert Dropped(s.t1, k) == Without(s.t1, id);
      TakeT1(entry, k);
      PutUsed(entry, s.(t1 := Dropped(s.t1, k)));
    }

    /** A hit in T2. */
    method HitT2(entry: CacheEntry, id: Id, ghost k: nat, ghost s: State)
      requires Holds({}) && s == Model() && k == Find(s.t2, id) && k < |t2.nodes| == |s.t2| && t2.nodes[k] == entry
        && s.t2[k] == entry.Value() && !Has(s.t1, id)
      modifies Objects()
      ensures Steady() && Holds({}) && Model() == Hit(s, id)
      ensures t2.nodes != [] && t2.nodes[0] == entry && Owned() <= old(Owned())
        && entry.Value() == Used(old(entry.Value()), 1)
    {
      assert Dropped(s.t2, k) == Without(s.t2, id);
      TakeT2(entry, k);
      PutUsed(entry, s.(t2 := Dropped(s.t2, k)));
    }

    /** A hit in B1 raises the target. */
    method AimHigher(ghost own: nat, ghost other: nat)
      requires b1.size == own > 0 && b2.size == other
      modifies this`t1Target
      ensures t1Target == Min(old(t1Target) + Pull(other, own), capacity)
    {
      t1Target := Min(t1Target + Max(b2.size / b1.size, 1), capacity);
    }

    /** A hit in B2 lowers it. */
    method AimLower(ghost own: nat, ghost other: nat)
      requires b2.size == own > 0 && b1.size == other
      modifies this`t1Target
      ensures t1Target == Max(old(t1Target) - Pull(other, own), 0)
    {
      t1Target := Max(t1Target - Max(b1.size / b2.size, 1), 0);
    }

    /** `cache_lookup` of a ghost in B1, up to the replacement. */
    method AdaptB1(entry: CacheEntry, id: Id, ghost k: nat, ghost s: State)
      requires Holds({}) && s == Model() && k == Find(s.b1, id) && k < |b1.nodes| == |s.b1| && b1.nodes[k] == entry
        && b1.size == Sum(s.b1) > 0 && b2.size == Sum(s.b2)
      modifies this`t1Target, Objects()
      ensures insert == old(insert) && Holds({entry}) && Model() == Adapt(Limits(), s, id)
      ensures Owned() <= old(Owned())
    {
      assert Dropped(s.b1, k) == Without(s.b1, id);
      AimHigher(Sum(s.b1), Sum(s.b2));
      TakeB1(entry, k);
    }

    /** `cache_lookup` of a ghost in B2, up to the replacement. */
    method AdaptB2(entry: CacheEntry, id: Id, ghost k: nat, ghost s: State)
      requires Holds({}) && s == Model() && k == Find(s.b2, id) && k < |b2.nodes| == |s.b2| && b2.nodes[k] == entry
        && b2.size == Sum(s.b2) > 0 && b1.size == Sum(s.b1) && !Has(s.b1, id)
      modifies this`t1Target, Objects()
      ensures insert == old(insert) && Holds({entry}) && Model() == Adapt(Limits(), s, id)
      ensures Owned() <= old(Owned())
    {
      assert Dropped(s.b2, k) == Without(s.b2, id);
      AimLower(Sum(s.b2), Sum(s.b1));
      TakeB2(entry, k);
    }

    /** Where `Located` found an entry. */
    ghost predicate At(entry: CacheEntry, id: Id, k: nat)
      reads entry`where, t1`nodes, t1`items, b1`nodes, b1`items, t2`nodes, t2`items, b2`nodes, b2`items, entry`size,
        entry`usage, entry`data
    {
      && entry.id == id && (entry.where == t1 || entry.where == b1 || entry.where == t2 || entry.where == b2)
      && (entry.where == t1 ==>
        k < |t1.nodes| == |t1.items| && t1.nodes[k] == entry && t1.items[k] == entry.Value()
        && Find(t1.items, id) == k)
      && (entry.where == b1 ==>
        k < |b1.nodes| == |b1.items| && b1.nodes[k] == entry && b1.items[k] == entry.Value()
        && Find(b1.items, id) == k)
      && (entry.where == t2 ==>
        k < |t2.nodes| == |t2.items| && t2.nodes[k] == entry && t2.items[k] == entry.Value()
        && Find(t2.items, id) == k)
      && (entry.where == b2 ==>
        k < |b2.nodes| == |b2.items| && b2.nodes[k] == entry && b2.items[k] == entry.Value()
        && Find(b2.items, id) == k)
    }

    lemma GhostSizes(s: State, entry: CacheEntry, id: Id, k: nat)
      requires Valid() && s == Model() && At(entry, id, k)
      ensures b1.size == Sum(s.b1) && b2.size == Sum(s.b2)
      ensures entry.where == b1 ==> b1.size > 0
      ensures entry.where == b2 ==> b2.size > 0
    {
      PositiveSum(s.b1);
      PositiveSum(s.b2);
    }

    /** `cache_lookup` of a ghost, up to the replacement. */
    method AdaptGhost(entry: CacheEntry, id: Id, ghost k: nat, ghost s: State)
      requires Valid() && s == Model() && At(entry, id, k) && (entry.where == b1 || entry.where == b2)
        && (entry.where == b2 ==> !Has(s.b1, id))
      modifies this`t1Target, Objects()
      ensures insert == old(insert) && Holds({entry}) && Model() == Adapt(Limits(), s, id)
      ensures Owned() <= old(Owned())
    {
      GhostSizes(s, entry, id, k);
      if entry.where == b1 {
        AdaptB1(entry, id, k, s);
      } else {
        AdaptB2(entry, id, k, s);
      }
    }

    lemma Dropping(was: map<Id, CacheEntry>, entry: CacheEntry)
      requires Four(t1, b1, t2, b2) && Indexes(was, Entries(t1, b1, t2, b2) + {entry})
        && Entries(t1, b1, t2, b2) !! {entry}
      requires hash == was - {entry.id} && entrySize > 0
      ensures Holds({})
    {
      IndexesRemoved(was, Entries(t1, b1, t2, b2) + {entry}, entry);
      assert Entries(t1, b1, t2, b2) + {entry} - {entry} == Entries(t1, b1, t2, b2) == Entries(t1, b1, t2, b2) + {};
    }

    /** `cache_remove` of an entry off its list. */
    method Unhash(entry: CacheEntry)
      requires Holds({entry})
      modifies this`hash
      ensures Steady() && Holds({}) && Model() == old(Model()) && Owned() == old(Owned())
    {
      ghost var was := hash;
      hash := hash - {entry.id};
      Dropping(was, entry);
    }

    /** `cache_lookup` of a ghost, from the replacement on. */
    method ReplaceAndForget(entry: CacheEntry, ghost u: State) returns (ghost extra: set<CacheEntry>)
      requires Holds({entry}) && u == Model() && Ok(Limits(), u)
      modifies this`hash, Objects()
      ensures Owned() <= old(Owned()) + extra && fresh(extra) && Unused(extra)
      ensures Steady() && Holds({}) && Model() == Replace(Limits(), u)
    {
      extra := ReplaceEntry({entry}, u);
      Unhash(entry);
    }

    /** `cache_lookup` of a ghost. */
    method MissGhost(entry: CacheEntry, id: Id, ghost k: nat, ghost s: State, ghost u: State)
      returns (ghost extra: set<CacheEntry>)
      requires Valid() && s == Model() && At(entry, id, k) && (entry.where == b1 || entry.where == b2)
        && (entry.where == b2 ==> !Has(s.b1, id))
      requires u == Adapt(Limits(), s, id)
      modifies this`t1Target, this`hash, Objects()
      ensures Owned() <= old(Owned()) + extra && fresh(extra) && Unused(extra)
      ensures insert == old(insert) && Holds({}) && Model() == Replace(Limits(), u)
    {
      AdaptKeeps(Limits(), s, id, u);
      AdaptGhost(entry, id, k, s);
      extra := ReplaceAndForget(entry, u);
    }

    /** What the three ways through `cache_lookup` go by. */
    lemma Cases(s: State, id: Id, entry: CacheEntry) returns (k: nat)
      requires Valid() && s == Model() && id in hash && entry == hash[id]
      ensures At(entry, id, k)
      ensures entry.where == t1 <==> Has(s.t1, id)
      ensures entry.where == b1 <==> Has(s.b1, id)
      ensures entry.where == t2 <==> Has(s.t2, id)
      ensures entry.where == b2 <==> Has(s.b2, id)
    {
      k := Located(s, id);
      OnlyOneHas(Limits(), s, id);
    }

    /** `cache_lookup` of a resident entry. */
    method LookupResident(entry: CacheEntry, id: Id, ghost k: nat, ghost s: State)
      requires Valid() && s == Model() && At(entry, id, k) && (entry.where == t1 || entry.where == t2)
        && (entry.where == t2 ==> !Has(s.t1, id))
      modifies Objects()
      ensures Owned() <= old(Owned())
      ensures Steady() && Holds({}) && Model() == Hit(s, id)
      ensures t2.nodes != [] && t2.nodes[0] == entry && entry.Value() == Used(old(entry.Value()), 1)
    {
      if entry.where == t1 {
        HitT1(entry, id, k, s);
      } else {
        HitT2(entry, id, k, s);
      }
    }

    /** The list the next `cache_insert` goes to. */
    method InsertInto(list: EntryList)
      requires Holds({}) && (list == t1 || list == t2)
      modifies this`insert
      ensures Owned() == old(Owned()) && Holds({})
        && Model() == old(Model()).(insert := if list == t1 then Some(T1) else Some(T2))
    {
      insert := list;
    }

    /** `cache_lookup` of a ghost, with the insertion list. */
    method LookupGhost(entry: CacheEntry, id: Id, ghost k: nat, ghost s: State) returns (ghost extra: set<CacheEntry>)
      requires Valid() && s == Model() && At(entry, id, k) && (entry.where == b1 || entry.where == b2)
        && (entry.where == b2 ==> !Has(s.b1, id))
      requires Has(s.b1, id) || Has(s.b2, id)
      modifies this`insert, this`t1Target, this`hash, Objects()
      ensures Owned() <= old(Owned()) + extra && fresh(extra) && Unused(extra)
      ensures Holds({}) && Model() == GhostHit(Limits(), s, id)
    {
      ghost var u := Adapt(Limits(), s, id);
      ghost var target := GhostHit(Limits(), s, id);
      assert target == Replace(Limits(), u).(insert := Some(T2));
      extra := MissGhost(entry, id, k, s, u);
      InsertInto(t2);
      assert Model() == target;
    }

    /** `cache_lookup` of an identifier the hash knows. */
    method LookupHashed(found: CacheEntry, id: Id, ghost s: State)
      returns (entry: CacheEntry?, ghost extra: set<CacheEntry>)
      requires Valid() && s == Model() && id in hash && found == hash[id]
      modifies this`insert, this`t1Target, this`hash, Objects()
      ensures Owned() <= old(Owned()) + extra && fresh(extra) && Unused(extra)
      ensures Holds({}) && Model() == CacheModel.Lookup(Limits(), s, id).state
      ensures entry != null <==> Has(s.t1, id) || Has(s.t2, id)
      ensures entry != null ==>
        t2.nodes != [] && entry == t2.nodes[0] == found
        && found.Value() == Used(old(found.Value()), 1)
    {
      ghost var k := Cases(s, id, found);
      OnlyOneHas(Limits(), s, id);
      if found.where == t1 || found.where == t2 {
        LookupResident(found, id, k, s);
        entry, extra := found, {};
      } else {
        extra := LookupGhost(found, id, k, s);
        entry := null;
      }
    }

    /** The entry a hit returns holds the data of the model. */
    lemma HitData(s: State, id: Id, entry: CacheEntry)
      requires Holds({}) && (Has(s.t1, id) || Has(s.t2, id)) && Model() == Hit(s, id) && t2.nodes != []
        && entry == t2.nodes[0]
      ensures CacheModel.Lookup(Limits(), s, id).data == Some(entry.data)
    {
      assert t2.items[0] == entry.Value();
    }

    /** `cache_lookup` up to the data. */
    method LookupEntry(id: Id, ghost s: State) returns (entry: CacheEntry?, ghost extra: set<CacheEntry>)
      requires Valid() && s == Model()
      modifies this`insert, this`t1Target, this`hash, Objects()
      ensures Owned() <= old(Owned()) + extra && fresh(extra) && Unused(extra)
      ensures Holds({}) && Model() == CacheModel.Lookup(Limits(), s, id).state
      ensures entry != null <==> Has(s.t1, id) || Has(s.t2, id)
      ensures entry != null ==> t2.nodes != [] && entry == t2.nodes[0]
      ensures entry != null ==>
        id in old(hash) && entry == old(hash)[id]
        && entry.Value() == Used(old(entry.Value()), 1)
    {
      if id !in hash {
        HashedIsCounted(s, id);
        OnlyOneHas(Limits(), s, id);
        InsertInto(t1);
        entry, extra := null, {};
      } else {
        entry, extra := LookupHashed(hash[id], id, s);
      }
    }

    /** After a miss the identifier may be inserted. */
    lemma Missed(s: State, id: Id)
      requires Ok(Limits(), s) && !Has(s.t1, id) && !Has(s.t2, id) && Valid()
        && Model() == CacheModel.Lookup(Limits(), s, id).state
      ensures id !in hash && (insert == t1 || insert == t2)
    {
      LookupKeeps(Limits(), s, id, CacheModel.Lookup(Limits(), s, id));
      HashedIsCounted(Model(), id);
    }

    /** What a lookup promises of the objects, from a record of them before it. */
    ghost predicate LookedUp(before: map<CacheEntry, Entry>, entry: CacheEntry?)
      reads t1`nodes, b1`nodes, t2`nodes, b2`nodes, before.Keys, entry
    {
      && (forall e :: e in before && before[e].usage > 0 && e != entry ==> e in Owned() && e.Value() == before[e])
      && (entry != null ==>
        entry in before && t2.nodes != [] && entry == t2.nodes[0]
        && entry.Value() == Used(before[entry], 1))
    }

    lemma LookupDone(before: map<CacheEntry, Entry>, was: map<Id, CacheEntry>, s: State, id: Id, r: Found,
                     entry: CacheEntry?, extra: set<CacheEntry>)
      requires Holds({}) && Ok(Limits(), s) && Pictured(before, was, s) && r == CacheModel.Lookup(Limits(), s, id)
        && Model() == r.state
      requires Owned() <= before.Keys + extra && Unused(extra)
      requires entry != null <==> Has(s.t1, id) || Has(s.t2, id)
      requires entry != null ==> id in was && entry == was[id] && entry.id == id && entry in before
      requires entry != null ==> t2.nodes != [] && entry == t2.nodes[0] && entry.Value() == Used(before[entry], 1)
      ensures Valid() && LookedUp(before, entry) && r.data == if entry == null then None else Some(entry.data)
      ensures entry == null ==> id !in hash && (insert == t1 || insert == t2)
    {
      LookupKeeps(Limits(), s, id, r);
      if entry != null {
        HitData(s, id, entry);
      } else {
        Missed(s, id);
      }
      forall e | e in before && before[e].usage > 0 && e != entry ensures e in Owned() && e.Value() == before[e] {
        SameEntry({}, before.Keys, was, e, before[e], extra);
      }
    }

    /** `cache_lookup` from a record of the entries. */
    method LookupFrom(id: Id, ghost before: map<CacheEntry, Entry>, ghost s: State, ghost r: Found)
      returns (entry: CacheEntry?, ghost extra: set<CacheEntry>)
      requires Valid() && s == Model() && r == CacheModel.Lookup(Limits(), s, id) && before == Values(Owned())
      modifies this`insert, this`t1Target, this`hash, Objects()
      ensures Valid() && Model() == r.state && LookedUp(before, entry)
      ensures r.data == if entry == null then None else Some(entry.data)
      ensures entry == null ==> id !in hash && (insert == t1 || insert == t2)
      ensures Owned() <= before.Keys + extra && fresh(extra)
    {
      ghost var was := hash;
      Picture({}, s);
      HashKnows();
      entry, extra := LookupEntry(id, s);
      LookupDone(before, was, s, id, r, entry, extra);
    }

    /** `cache_lookup`; the entry it returns stands for the pointer to its data. */
    method Lookup(id: Id) returns (entry: CacheEntry?, ghost extra: set<CacheEntry>)
      requires Valid()
      modifies this`insert, this`t1Target, this`hash, Objects()
      ensures Valid() && Model() == CacheModel.Lookup(Limits(), old(Model()), id).state
      ensures CacheModel.Lookup(Limits(), old(Model()), id).data == if entry == null then None else Some(entry.data)
      ensures entry != null ==> t2.nodes != [] && entry == t2.nodes[0]
      ensures entry != null ==>
        entry in old(Owned()) && entry in Owned()
        && entry.Value() == Used(old(entry.Value()), 1)
      ensures forall e :: e in old(Owned()) && old(e.usage) > 0 && e != entry ==>
        e in Owned() && e.Value() == old(e.Value())
      ensures entry == null ==> id !in hash && (insert == t1 || insert == t2)
      ensures Owned() <= old(Owned()) + extra && fresh(extra)
    {
      ghost var s, before := Model(), Values(Owned());
      ghost var r := CacheModel.Lookup(Limits(), s, id);
      entry, extra := LookupFrom(id, before, s, r);
    }

    // ----- cache_insert

    /** `cache_remove_lru` up to freeing, beside the other lists. */
    method EvictBeside(from: EntryList, ghost b: EntryList, ghost c: EntryList, ghost d: EntryList,
                       ghost ns: seq<CacheEntry>, ghost es: seq<Entry>, ghost mine: set<object>,
                       ghost theirs: set<object>) returns (victim: CacheEntry?)
      requires from.Sound() && PositiveSizes(es) && ns == from.nodes && es == from.items
        && mine == Footprint(from, from)
      requires mine !! theirs && Sounds(b, b, theirs) && Sounds(c, d, theirs)
      modifies mine
      ensures from.Sound() && from.items == Rotated(es) && from.nodes == RotatedNodes(ns, es)
      ensures (victim == null <==> Victim(es).None?) && (victim != null ==> victim == ns[LastUnused(es)])
      ensures Sounds(b, b, theirs) && Sounds(c, d, theirs)
      ensures b.nodes == old(b.nodes) && c.nodes == old(c.nodes) && d.nodes == old(d.nodes)
      ensures b.items == old(b.items) && c.items == old(c.items) && d.items == old(d.items)
    {
      victim := from.RemoveLru(ns, es);
    }

    /** The hash covers four lists and an entry on none of them. */
    ghost predicate Beside(a: EntryList, b: EntryList, c: EntryList, d: EntryList, entry: CacheEntry)
      reads this`hash, a`nodes, b`nodes, c`nodes, d`nodes
    {
      Entries(a, b, c, d) !! {entry} && Indexes(hash, Entries(a, b, c, d) + {entry})
    }

    /** The hash still covers what is left, and the victim if there is one. */
    lemma Evicted(a: EntryList, b: EntryList, c: EntryList, d: EntryList, theirs: set<object>, ns: seq<CacheEntry>,
                  es: seq<Entry>, rest: set<CacheEntry>)
      requires a != b && a != c && a != d && b != c && b != d && c != d && a.Sound() && Sounds(b, b, theirs)
        && Sounds(c, d, theirs)
      requires |ns| == |es| && Distinct(ns) && a.nodes == RotatedNodes(ns, es)
      requires rest == Members(b.nodes) + Members(c.nodes) + Members(d.nodes) && Members(ns) !! rest
      requires Indexes(hash, Members(ns) + rest)
      ensures Four(a, b, c, d) && Entries(a, b, c, d) <= Members(ns) + rest
      ensures Victim(es).None? ==> Indexes(hash, Entries(a, b, c, d))
      ensures Victim(es).Some? ==> Beside(a, b, c, d, ns[LastUnused(es)])
    {
      RotatedMembers(ns, es);
      assert Entries(a, b, c, d) == Members(a.nodes) + rest;
      if Victim(es).Some? {
        TakenSets(Members(ns), Members(a.nodes), rest, ns[LastUnused(es)]);
      }
    }

    /** `cache_remove_lru` up to freeing, among the four lists. */
    method EvictFrom(from: EntryList, ghost b: EntryList, ghost c: EntryList, ghost d: EntryList, ghost es: seq<Entry>)
      returns (victim: CacheEntry?)
      requires Four(from, b, c, d) && PositiveSizes(es) && es == from.items && Indexes(hash, Entries(from, b, c, d))
      modifies Footprint(from, from)
      ensures Steady() && Four(from, b, c, d) && from.items == Rotated(es)
      ensures victim == null ==> Indexes(hash, Entries(from, b, c, d))
      ensures victim != null ==> Beside(from, b, c, d, victim)
      ensures b.items == old(b.items) && c.items == old(c.items) && d.items == old(d.items)
      ensures b.nodes == old(b.nodes) && c.nodes == old(c.nodes) && d.nodes == old(d.nodes)
      ensures Entries(from, b, c, d) <= old(Entries(from, b, c, d))
    {
      ghost var mine, theirs := Footprint(from, from), Footprint(b, b) + Footprint(c, d);
      ghost var rest, ns := Members(b.nodes) + Members(c.nodes) + Members(d.nodes), from.nodes;
      One(from, b, c, d, mine, theirs);
      FourApart(from, b, c, d);
      assert Entries(from, b, c, d) == Members(ns) + rest;
      assert Members(ns) !! rest && Indexes(hash, Members(ns) + rest);
      victim := EvictBeside(from, b, c, d, ns, es, mine, theirs);
      Evicted(from, b, c, d, theirs, ns, es, rest);
    }

    /** `cache_remove_lru` from freeing on: the hash forgets the victim. */
    method Free(ghost a: EntryList, ghost b: EntryList, ghost c: EntryList, ghost d: EntryList, victim: CacheEntry?)
      requires Order(a, b, c, d)
      requires Four(a, b, c, d) && entrySize > 0
      requires victim == null ==> Indexes(hash, Entries(a, b, c, d))
      requires victim != null ==> Beside(a, b, c, d, victim)
      modifies this`hash
      ensures Steady() && Holds({}) && Model() == old(Model())
    {
      if victim != null {
        Floats(a, b, c, d, victim);
        Unhash(victim);
      } else {
        Rests(a, b, c, d);
      }
    }

    /** `cache_remove_lru` on T1. */
    method DropT1(ghost s: State)
      requires Holds({}) && s == Model() && PositiveSizes(s.t1)
      modifies this`hash, Objects()
      ensures Steady() && Holds({}) && Model() == s.(t1 := Rotated(s.t1))
      ensures Owned() <= old(Owned())
    {
      Grounded();
      var victim := EvictFrom(t1, b1, t2, b2, s.t1);
      Free(t1, b1, t2, b2, victim);
    }

    /** `cache_remove_lru` on B1. */
    method DropB1(ghost s: State)
      requires Holds({}) && s == Model() && PositiveSizes(s.b1)
      modifies this`hash, Objects()
      ensures Steady() && Holds({}) && Model() == s.(b1 := Rotated(s.b1))
      ensures Owned() <= old(Owned())
    {
      Grounded();
      var victim := EvictFrom(b1, t1, t2, b2, s.b1);
      Free(b1, t1, t2, b2, victim);
    }

    /** `cache_remove_lru` on B2. */
    method DropB2(ghost s: State)
      requires Holds({}) && s == Model() && PositiveSizes(s.b2)
      modifies this`hash, Objects()
      ensures Steady() && Holds({}) && Model() == s.(b2 := Rotated(s.b2))
      ensures Owned() <= old(Owned())
    {
      Grounded();
      var victim := EvictFrom(b2, t1, b1, t2, s.b2);
      Free(b2, t1, b1, t2, victim);
    }

    lemma Positive(s: State)
      requires Ok(Limits(), s) && entrySize > 0
      ensures PositiveSizes(s.t1) && PositiveSizes(s.b1) && PositiveSizes(s.b2)
    {
    }

    /** Room when T1 and B1 have reached the capacity. */
    method MakeRoom1(ghost s: State) returns (ghost extra: set<CacheEntry>)
      requires Holds({}) && s == Model() && Ok(Limits(), s) && t1.size == Sum(s.t1)
      modifies this`hash, Objects()
      ensures Owned() <= old(Owned()) + extra && fresh(extra) && Unused(extra)
      ensures Steady() && Holds({})
      ensures Model() == if Sum(s.t1) < capacity then Replace(Limits(), s.(b1 := Rotated(s.b1)))
        else s.(t1 := Rotated(s.t1))
    {
      Positive(s);
      if t1.size < capacity {
        ghost var m := s.(b1 := Rotated(s.b1));
        EvictKeeps(Limits(), s, m);
        DropB1(s);
        extra := ReplaceEntry({}, m);
      } else {
        extra := {};
        DropT1(s);
      }
    }

    /** Room when all lists together have reached the capacity. */
    method MakeRoom2(ghost s: State, all: nat) returns (ghost extra: set<CacheEntry>)
      requires Holds({}) && s == Model() && Ok(Limits(), s)
      modifies this`hash, Objects()
      ensures Owned() <= old(Owned()) + extra && fresh(extra) && Unused(extra)
      ensures Steady() && Holds({})
      ensures Model() == if all >= 2 * capacity then Replace(Limits(), s.(b2 := Rotated(s.b2)))
        else Replace(Limits(), s)
    {
      Positive(s);
      if all >= 2 * capacity {
        ghost var m := s.(b2 := Rotated(s.b2));
        EvictKeeps(Limits(), s, m);
        DropB2(s);
        extra := ReplaceEntry({}, m);
      } else {
        extra := ReplaceEntry({}, s);
      }
    }

    /** The guards of `cache_insert`. */
    method MakeSomeRoom(ghost s: State) returns (ghost extra: set<CacheEntry>)
      requires Holds({}) && s == Model() && Ok(Limits(), s)
      modifies this`hash, Objects()
      ensures Owned() <= old(Owned()) + extra && fresh(extra) && Unused(extra)
      ensures Steady() && Holds({}) && Model() == CacheModel.MakeRoom(Limits(), s)
    {
      assert t1.size == Sum(s.t1) && b1.size == Sum(s.b1) && t2.size == Sum(s.t2) && b2.size == Sum(s.b2);
      extra := {};
      ghost var target := CacheModel.MakeRoom(Limits(), s);
      var all := t1.size + t2.size + b1.size + b2.size;
      if t1.size + b1.size >= capacity {
        assert target == if Sum(s.t1) < capacity then Replace(Limits(), s.(b1 := Rotated(s.b1)))
          else s.(t1 := Rotated(s.t1));
        extra := MakeRoom1(s);
      } else if all >= capacity {
        assert target == if all >= 2 * capacity then Replace(Limits(), s.(b2 := Rotated(s.b2)))
          else Replace(Limits(), s);
        extra := MakeRoom2(s, all);
      }
      assert Model() == target;
    }

    /** The room `cache_insert` makes. */
    method MakeRoom(ghost s: State) returns (ghost extra: set<CacheEntry>)
      requires Holds({}) && s == Model() && Ok(Limits(), s)
      modifies this`hash, Objects()
      ensures Owned() <= old(Owned()) + extra && fresh(extra) && Unused(extra)
      ensures Steady() && Holds({}) && Model() == CacheModel.MakeRoom(Limits(), s)
      ensures InUseStay()
    {
      ghost var before, was := Values(Owned()), hash;
      Picture({}, s);
      MakeRoomKeeps(Limits(), s, CacheModel.MakeRoom(Limits(), s));
      extra := MakeSomeRoom(s);
      Kept({}, before, was, s, extra);
    }

    lemma Announced(was: map<Id, CacheEntry>, entry: CacheEntry)
      requires Four(t1, b1, t2, b2) && Indexes(was, Entries(t1, b1, t2, b2) + {}) && entry.id !in was
      requires hash == was[entry.id := entry] && entrySize > 0
      ensures Holds({entry})
    {
      assert Entries(t1, b1, t2, b2) + {} == Entries(t1, b1, t2, b2);
      IndexesAdded(was, Entries(t1, b1, t2, b2), entry);
    }

    /** The hash part of `cache_insert_mru`. */
    method Hash(entry: CacheEntry)
      requires Holds({}) && entry.id !in hash
      modifies this`hash
      ensures Steady() && Holds({entry}) && Model() == old(Model())
    {
      ghost var was := hash;
      hash := hash[entry.id := entry];
      Announced(was, entry);
    }

    /** `cache_insert_mru` with the hash, on T1 or T2. */
    method PutNew(to: EntryList, entry: CacheEntry, ghost s: State)
      requires Holds({}) && entry.id !in hash && (to == t1 || to == t2) && s == Model()
      modifies this`hash, Objects(), entry
      ensures Owned() == old(Owned()) + {entry}
      ensures Steady() && Holds({}) && entry in to.nodes
      ensures Model() == if to == t1 then s.(t1 := [old(entry.Value())] + s.t1)
        else s.(t2 := [old(entry.Value())] + s.t2)
    {
      Hash(entry);
      if to == t1 {
        PutT1(entry);
      } else {
        PutT2(entry);
      }
    }

    /** An identifier the hash did not know before making room is not known after it. */
    lemma StillNew(s: State, m: State, id: Id)
      requires Valid() && m == Model() && Count(s, id) == 0 && FewerIds(s, m)
      ensures id !in hash
    {
      HashedIsCounted(m, id);
      assert Count(m, id) <= Count(s, id);
    }

    /** An entry with an unknown identifier is none of the cache's objects. */
    lemma Outside(entry: CacheEntry)
      requires Holds({}) && entry.id !in hash
      ensures entry !in Objects()
    {
      assert entry !in Entries(t1, b1, t2, b2);
    }

    /** The part of `cache_insert` in front of the list operation. */
    method Prepare(id: Id, ghost s: State, ghost m: State) returns (ghost extra: set<CacheEntry>)
      requires Valid() && s == Model() && id !in hash
      requires m == if s.insert == Some(T1) then CacheModel.MakeRoom(Limits(), s) else s
      modifies this`hash, Objects()
      ensures Owned() <= old(Owned()) + extra && fresh(extra) && Unused(extra)
      ensures Steady() && Holds({}) && Model() == m && Ok(Limits(), m) && id !in hash
      ensures InUseStay()
    {
      HashedIsCounted(s, id);
      OnlyOneHas(Limits(), s, id);
      extra := {};
      if insert == t1 {
        MakeRoomKeeps(Limits(), s, m);
        extra := MakeRoom(s);
        StillNew(s, m, id);
      }
    }

    /** `cache_entry_new`: one user, and data of the given length for the client to fill in. */
    method NewEntry(id: Id, length: nat) returns (entry: CacheEntry)
      ensures fresh(entry) && entry.Value() == Entry(id, entrySize + length, 1, seq(length, _ => 0))
    {
      entry := new CacheEntry(id, entrySize + length, 1, seq(length, _ => 0));
    }

    lemma InsertIsOk(s: State, e: Entry)
      requires Valid() && s == Model() && (insert == t1 || insert == t2) && e.id !in hash
      requires e.usage >= 0 && e.size == entrySize + |e.data|
      ensures var t := CacheModel.Insert(Limits(), s, e);
        Ok(Limits(), t) && Resident(t, e) && forall x :: Resident(s, x) && x.usage != 0 ==> Resident(t, x)
    {
      HashedIsCounted(s, e.id);
      OnlyOneHas(Limits(), s, e.id);
      InsertKeeps(Limits(), s, e, CacheModel.Insert(Limits(), s, e));
    }

    /** The entries in use and the new one are owned, and the model has their values, so they are as they were. */
    lemma Inserted(before: map<CacheEntry, Entry>, was: map<Id, CacheEntry>, s: State, entry: CacheEntry, v: Entry)
      requires Holds({}) && Pictured(before, was, s) && entry in Owned() && entry.id == v.id && Resident(Model(), v)
      requires forall x :: Resident(s, x) && x.usage != 0 ==> Resident(Model(), x)
      requires forall e :: e in before && before[e].usage > 0 ==> e in Owned()
      ensures entry.Value() == v && forall e :: e in before && before[e].usage > 0 ==> e.Value() == before[e]
    {
      HasValue(entry, v);
      forall e | e in before && before[e].usage > 0 ensures e.Value() == before[e] {
        HasValue(e, before[e]);
      }
    }

    /** `cache_insert`, with the room made for it. */
    method InsertFrom(entry: CacheEntry, ghost s: State, ghost m: State) returns (ghost extra: set<CacheEntry>)
      requires Valid() && s == Model() && (insert == t1 || insert == t2) && entry.id !in hash && entry !in Objects()
      requires m == if s.insert == Some(T1) then CacheModel.MakeRoom(Limits(), s) else s
      modifies this`hash, Objects(), entry
      ensures Owned() <= old(Owned()) + {entry} + extra && fresh(extra)
      ensures Holds({}) && entry in Owned()
      ensures forall e :: e in old(Owned()) && old(e.usage) > 0 ==> e in Owned()
      ensures Model() == if s.insert == Some(T1) then m.(t1 := [old(entry.Value())] + m.t1)
        else m.(t2 := [old(entry.Value())] + m.t2)
    {
      extra := Prepare(entry.id, s, m);
      PutNew(insert, entry, m);
    }

    /** `cache_insert` of an entry whose identifier was looked up in vain. */
    method Insert(entry: CacheEntry) returns (ghost extra: set<CacheEntry>)
      requires Valid() && (insert == t1 || insert == t2)
      requires entry.id !in hash && entry.usage >= 0 && entry.size == entrySize + |entry.data|
      modifies this`hash, Objects(), entry
      ensures Owned() <= old(Owned()) + {entry} + extra && fresh(extra)
      ensures Valid() && Model() == CacheModel.Insert(Limits(), old(Model()), old(entry.Value()))
      ensures InUseStay() && entry in Owned() && entry.Value() == old(entry.Value())
    {
      ghost var s, e, before, was := Model(), entry.Value(), Values(Owned()), hash;
      ghost var m := if s.insert == Some(T1) then CacheModel.MakeRoom(Limits(), s) else s;
      Picture({}, s);
      Outside(entry);
      InsertIsOk(s, e);
      extra := InsertFrom(entry, s, m);
      Inserted(before, was, s, entry, e);
    }

    // ----- cache_entry_destroy and cache_flush

    /** Where an entry of T1 or T2 is found by its identifier. */
    lemma FoundAt(entry: CacheEntry, s: State) returns (k: nat)
      requires Valid() && s == Model() && entry in Owned()
      ensures entry.id in hash && hash[entry.id] == entry && At(entry, entry.id, k)
      ensures entry.where == t1 <==> Has(s.t1, entry.id)
      ensures entry.where == b1 <==> Has(s.b1, entry.id)
      ensures entry.where == t2 <==> Has(s.t2, entry.id)
      ensures entry.where == b2 <==> Has(s.b2, entry.id)
    {
      assert entry in Entries(t1, b1, t2, b2) + {};
      k := Cases(s, entry.id, entry);
    }

    /** What every resident value of the model but one says of the objects: only that entry changed. */
    lemma OthersStay(before: map<CacheEntry, Entry>, was: map<Id, CacheEntry>, s: State, id: Id)
      requires Holds({}) && Owned() <= before.Keys && Pictured(before, was, s)
      requires forall x :: Resident(s, x) && x.id != id && x.usage > 0 ==> Resident(Model(), x)
      ensures forall e :: e in before && before[e].usage > 0 && e.id != id ==> e in Owned() && e.Value() == before[e]
    {
      forall e | e in before && before[e].usage > 0 && e.id != id ensures e in Owned() && e.Value() == before[e] {
        SameEntry({}, before.Keys, was, e, before[e], {});
      }
    }

    /** `cache_entry_destroy`: the data of an entry has one user less. */
    method Release(entry: CacheEntry)
      requires Valid() && entry in Owned() && entry.usage > 0
      modifies Objects()
      ensures Valid() && Model() == CacheModel.Release(old(Model()), entry.id) && Owned() == old(Owned())
      ensures entry.Value() == Used(old(entry.Value()), -1)
      ensures forall e :: e in old(Owned()) && old(e.usage) > 0 && e.id != entry.id ==> e.Value() == old(e.Value())
    {
      ghost var s, e, before, was := Model(), entry.Value(), Values(Owned()), hash;
      ghost var k := FoundAt(entry, s);
      Picture({}, s);
      InUseIsResident({}, s, entry);
      OnlyOneHas(Limits(), s, entry.id);
      ReleaseKeeps(Limits(), s, e, CacheModel.Release(s, entry.id));
      if entry.where == t1 {
        UseT1(entry, -1, k);
      } else {
        UseT2(entry, -1, k);
      }
      HasValue(entry, Used(e, -1));
      OthersStay(before, was, s, entry.id);
    }

    /** `cache_remove_from_list` on the list an entry is on. */
    method TakeAway(entry: CacheEntry, ghost k: nat, ghost s: State)
      requires Holds({}) && s == Model() && At(entry, entry.id, k)
      requires entry.where == t1 <==> Has(s.t1, entry.id)
      requires entry.where == b1 <==> Has(s.b1, entry.id)
      requires entry.where == t2 <==> Has(s.t2, entry.id)
      requires entry.where == b2 <==> Has(s.b2, entry.id)
      modifies Objects()
      ensures Steady() && Holds({entry}) && Model() == CacheModel.Flush(s, entry.id) && Owned() <= old(Owned())
    {
      ghost var target := CacheModel.Flush(s, entry.id);
      if entry.where == t1 {
        assert target == s.(t1 := Dropped(s.t1, k));
        TakeT1(entry, k);
      } else if entry.where == b1 {
        assert target == s.(b1 := Dropped(s.b1, k));
        TakeB1(entry, k);
      } else if entry.where == t2 {
        assert target == s.(t2 := Dropped(s.t2, k));
        TakeT2(entry, k);
      } else {
        assert target == s.(b2 := Dropped(s.b2, k));
        TakeB2(entry, k);
      }
    }

    /** `cache_flush_data`, and `cache_flush` once it has found the entry. */
    method FlushEntry(entry: CacheEntry, ghost s: State)
      requires Valid() && s == Model() && entry in Owned()
      modifies this`hash, Objects()
      ensures Valid() && Model() == CacheModel.Flush(s, entry.id) && Owned() <= old(Owned())
      ensures forall e :: e in old(Owned()) && old(e.usage) > 0 && e.id != entry.id ==>
        e in Owned() && e.Value() == old(e.Value())
    {
      ghost var before, was := Values(Owned()), hash;
      ghost var k := FoundAt(entry, s);
      Picture({}, s);
      ghost var target := CacheModel.Flush(s, entry.id);
      FlushKeeps(Limits(), s, entry.id, target);
      TakeAway(entry, k, s);
      Unhash(entry);
      assert Model() == target;
      OthersStay(before, was, s, entry.id);
    }

    /** `cache_flush`. */
    method Flush(id: Id)
      requires Valid()
      modifies this`hash, Objects()
      ensures Valid() && Model() == CacheModel.Flush(old(Model()), id) && Owned() <= old(Owned())
      ensures forall e :: e in old(Owned()) && old(e.usage) > 0 && e.id != id ==>
        e in Owned() && e.Value() == old(e.Value())
    {
      ghost var s := Model();
      if id in hash {
        FlushEntry(hash[id], s);
      } else {
        HashedIsCounted(s, id);
        OnlyOneHas(Limits(), s, id);
      }
    }
  }
}
