/**
 Which objects the four lists of a cache own, and the hash over their entries.
 */
module CacheHash {
  import opened CacheModel
  import opened CacheLists

  ghost function Members(nodes: seq<CacheEntry>): set<CacheEntry> {
    set e | e in nodes
  }

  /** An entry knows its list, so it is in no other one. */
  lemma Apart(a: EntryList, b: EntryList)
    requires a != b && a.Sound() && b.Sound()
    ensures forall e :: e in a.nodes ==> e !in b.nodes
  {
    forall e | e in a.nodes ensures e !in b.nodes {
      assert e.where == a;
    }
  }

  /** Four different well-formed lists. */
  ghost predicate Four(a: EntryList, b: EntryList, c: EntryList, d: EntryList)
    reads a, a.nodes, b, b.nodes, c, c.nodes, d, d.nodes
  {
    && a != b && a != c && a != d && b != c && b != d && c != d
    && a.Sound() && b.Sound() && c.Sound() && d.Sound()
  }

  /** All entries of four lists. */
  ghost function Entries(a: EntryList, b: EntryList, c: EntryList, d: EntryList): set<CacheEntry>
    reads a`nodes, b`nodes, c`nodes, d`nodes
  {
    Members(a.nodes) + Members(b.nodes) + Members(c.nodes) + Members(d.nodes)
  }

  lemma EntriesSwap(a: EntryList, b: EntryList, c: EntryList, d: EntryList)
    ensures Entries(a, b, c, d) == Entries(c, d, a, b)
  {
  }

  lemma EntriesTurned(a: EntryList, b: EntryList, c: EntryList, d: EntryList)
    ensures Entries(a, b, c, d) == Entries(c, a, b, d)
  {
  }

  lemma FourApart(a: EntryList, b: EntryList, c: EntryList, d: EntryList)
    requires Four(a, b, c, d)
    ensures Members(a.nodes) !! Members(b.nodes) + Members(c.nodes) + Members(d.nodes)
  {
    Apart(a, b);
    Apart(a, c);
    Apart(a, d);
  }

  /** The objects of two lists. */
  ghost function Footprint(a: EntryList, b: EntryList): set<object>
    reads a`nodes, b`nodes
  {
    {a, b} + Members(a.nodes) + Members(b.nodes)
  }

  ghost predicate Sounds(a: EntryList, b: EntryList, objects: set<object>)
    reads objects
  {
    && a in objects && b in objects && (forall e :: e in a.nodes ==> e in objects)
      && (forall e :: e in b.nodes ==> e in objects)
    && a.Sound() && b.Sound()
  }

  /** What two lists hold, as long as nothing of theirs changes. */
  ghost function Still(a: EntryList, b: EntryList, objects: set<object>): (Listing, Listing)
    reads objects
  {
    if Sounds(a, b, objects) then (a.Contents(), b.Contents()) else (Broken, Broken)
  }

  lemma FootprintsApart(a: EntryList, b: EntryList, c: EntryList, d: EntryList)
    requires Four(a, b, c, d)
    ensures Footprint(a, b) !! Footprint(c, d) && Sounds(c, d, Footprint(c, d))
  {
    Apart(a, c);
    Apart(a, d);
    Apart(b, c);
    Apart(b, d);
  }

  /** A list whose objects nobody wrote to is still well-formed. */
  twostate lemma Untouched(list: EntryList)
    requires old(list.Sound()) && unchanged(list) && unchanged(list.nodes)
    ensures list.Sound()
  {
  }

  /** The hash maps exactly the identifiers of the owned entries to them. */
  ghost predicate Indexes(hash: map<Id, CacheEntry>, owned: set<CacheEntry>) {
    && (forall id :: id in hash ==> hash[id].id == id && hash[id] in owned)
    && (forall e :: e in owned ==> e.id in hash && hash[e.id] == e)
  }

  /** The nodes of a list without position `k`, however its two parts are put together. */
  lemma RotatedMembers(ns: seq<CacheEntry>, es: seq<Entry>)
    requires |ns| == |es| && Distinct(ns)
    ensures Victim(es).None? ==> RotatedNodes(ns, es) == ns
    ensures Victim(es).Some? ==>
      ns[LastUnused(es)] in ns
      && Members(RotatedNodes(ns, es)) == Members(ns) - {ns[LastUnused(es)]}
  {
    var k := LastUnused(es);
    if k >= 0 {
      MovedMembers(ns, k, RotatedNodes(ns, es));
    }
  }

  lemma MovedMembers(ns: seq<CacheEntry>, k: nat, r: seq<CacheEntry>)
    requires k < |ns| && Distinct(ns) && r == ns[k + 1..] + ns[..k]
    ensures Members(r) == Members(ns) - {ns[k]}
  {
    var m := |ns| - k - 1;
    forall j | 0 <= j < |r| ensures r[j] in ns && r[j] != ns[k] {
      assert r[j] == ns[if j < m then j + k + 1 else j - m];
    }
    forall i | 0 <= i < |ns| && i != k ensures ns[i] in r {
      assert r[if i < k then i + m else i - k - 1] == ns[i];
    }
  }

  lemma DroppedMembers(ns: seq<CacheEntry>, k: nat)
    requires k < |ns| && Distinct(ns)
    ensures Members(Dropped(ns, k)) == Members(ns) - {ns[k]}
  {
    forall e | e in ns && e != ns[k] ensures e in Dropped(ns, k) {
      var i :| 0 <= i < |ns| && ns[i] == e;
      assert Dropped(ns, k)[if i < k then i else i - 1] == e;
    }
  }

  lemma AddedMembers(ns: seq<CacheEntry>, e: CacheEntry)
    ensures Members([e] + ns) == Members(ns) + {e}
  {
  }

  lemma IndexesReplaced(hash: map<Id, CacheEntry>, owned: set<CacheEntry>, e: CacheEntry, f: CacheEntry)
    requires Indexes(hash, owned) && e in owned && e.id == f.id
    ensures Indexes(hash[e.id := f], owned - {e} + {f})
  {
  }

  lemma IndexesRemoved(hash: map<Id, CacheEntry>, owned: set<CacheEntry>, e: CacheEntry)
    requires Indexes(hash, owned) && e in owned
    ensures Indexes(hash - {e.id}, owned - {e})
  {
  }

  lemma IndexesAdded(hash: map<Id, CacheEntry>, owned: set<CacheEntry>, e: CacheEntry)
    requires Indexes(hash, owned) && e.id !in hash
    ensures Indexes(hash[e.id := e], owned + {e})
  {
  }
}
