/**
 All four lists of the cache together, for clients that ask for entries of one size and let go
 at once: when they stay within twice the capacity.
 */
module CacheTotal {
  import opened Basics
  import opened CacheModel
  import opened CacheInvariant
  import opened CacheBounds
  import opened CacheUniform
  import opened CacheWitness
  import opened CacheRecent

  function GhostBytes(s: State): nat {
    Sum(s.b1) + Sum(s.b2)
  }

  /** There would be room for an entry beside the ghosts. */
  ghost predicate Within(c: Config, u: nat, s: State) {
    Bytes(Everything, s) <= 2 * c.capacity && GhostBytes(s) + u <= 2 * c.capacity
  }

  /** One more ghost fits wherever the second guard of `cache_insert` lets one in. */
  ghost predicate GhostFits(c: Config, s: State) {
    c.capacity <= Bytes(Everything, s) < 2 * c.capacity && |s.t1| + |s.t2| > 0 ==>
      Bytes(Everything, s) + c.header <= 2 * c.capacity
  }

  ghost predicate Calm(c: Config, u: nat, s: State) {
    && Uniform(u, s) && GhostsOk(c, s.b1) && GhostsOk(c, s.b2) && Idle(s)
    && Bytes(Residents, s) <= c.capacity && u <= c.capacity && c.header > 0
  }

  /** What replacing frees when all residents have one size and no users. */
  lemma FreedOfSize(c: Config, u: nat, s: State)
    requires Uniform(u, s) && Idle(s)
    ensures FreedByReplacing(Everything, c, s) == if |s.t1| + |s.t2| > 0 then u - c.header else 0
  {
    VictimOfSize(u, s.t1);
    VictimOfSize(u, s.t2);
    assert forall e :: e in s.t1 ==> Resident(s, e);
    assert forall e :: e in s.t2 ==> Resident(s, e);
  }

  lemma VictimOfSize(u: nat, list: seq<Entry>)
    requires Sized(u, list)
    ensures list == [] ==> Victim(list).None?
    ensures (forall e :: e in list ==> e.usage == 0) && list != [] ==>
      Victim(list).Some? && Victim(list).value.size == u
  {
    LruEviction(list);
    if list != [] {
      assert list[0] in list;
    }
  }

  lemma SomeEntry(list: seq<Entry>)
    ensures Sum(list) > 0 ==> list != []
  {
  }

  /** What making room frees; a ghost that is dropped is as large as the one that comes for it. */
  lemma RoomBytes(c: Config, u: nat, s: State)
    requires Calm(c, u, s) && u > 0 && Within(c, u, s) && GhostFits(c, s) && s.insert == Some(T1)
    ensures Bytes(Everything, s) + u - Freed(Everything, c, s) <= 2 * c.capacity
  {
    FreedOfSize(c, u, s);
    assert forall e :: e in s.t1 ==> Resident(s, e);
    VictimOfSize(u, s.t1);
    VictimOfSize(c.header, s.b1);
    VictimOfSize(c.header, s.b2);
    SomeEntry(s.t1);
    SomeEntry(s.b1);
    SomeEntry(s.b2);
  }

  lemma ResidentBytes(u: nat, s: State)
    requires Uniform(u, s) && |s.t1| + |s.t2| > 0
    ensures Bytes(Residents, s) >= u
  {
    if s.t1 != [] {
      assert s.t1[0] in s.t1;
    } else {
      assert s.t2[0] in s.t2;
    }
  }

  /** A ghost hit swaps a ghost and a resident, or puts the entry in the room that is left for it. */
  lemma BackWithin(c: Config, u: nat, s: State, e: Entry, t: State)
    requires Calm(c, u, s) && Within(c, u, s) && e.size == u && t == Loaded(c, s, e)
    requires !Has(s.t1, e.id) && !Has(s.t2, e.id) && (Has(s.b1, e.id) || Has(s.b2, e.id))
    ensures Bytes(Everything, t) <= 2 * c.capacity
  {
    LoadedIs(c, s, e);
    var a := Adapt(c, s, e.id);
    var g := Replace(c, a);
    WithoutBytes(s.b1, e.id);
    WithoutBytes(s.b2, e.id);
    HasIsIds(s.b1, e.id);
    HasIsIds(s.b2, e.id);
    assert Bytes(Everything, a) == Bytes(Everything, s) - c.header;
    ReplaceBytes(Everything, c, a, g);
    FreedOfSize(c, u, a);
    SumMore(e, g.t2);
  }

  lemma LoadedWithin(c: Config, u: nat, s: State, e: Entry, t: State)
    requires Calm(c, u, s) && u > 0 && Within(c, u, s) && GhostFits(c, s) && e.size == u && t == Loaded(c, s, e)
    requires Served(c, u, s) && u == c.header + |e.data| && e.usage == 1
    ensures Within(c, u, t)
  {
    LoadedIs(c, s, e);
    if Has(s.t1, e.id) || Has(s.t2, e.id) {
      HitBytes(Everything, s, e.id);
    } else if Has(s.b1, e.id) || Has(s.b2, e.id) {
      BackWithin(c, u, s, e, t);
    } else {
      var m := s.(insert := Some(T1));
      RoomBytes(c, u, m);
      InsertBytes(Everything, c, m, e, Insert(c, m, e));
    }
    LoadedKeeps(c, u, s, e, t);
    ResidentBytes(u, t);
  }

  lemma ServeWithin(c: Config, u: nat, s: State, r: Request, t: State)
    requires Calm(c, u, s) && u > 0 && Within(c, u, s) && GhostFits(c, s) && t == Serve(c, s, r)
    requires Served(c, u, s) && (r.Fetch? ==> c.header + |r.data| == u)
    ensures Within(c, u, t)
  {
    match r
    case Fetch(id, data, keep) =>
      var e := NewEntry(c, id, data);
      LoadedWithin(c, u, s, e, Loaded(c, s, e));
      ReleaseFlushBytes(Everything, Loaded(c, s, e), id);
    case LetGo(id) => ReleaseFlushBytes(Everything, s, id);
    case Drop(id) =>
      ReleaseFlushBytes(Everything, s, id);
      WithoutBytes(s.b1, id);
      WithoutBytes(s.b2, id);
  }

  /** After any of the client's requests one more ghost fits where one is let in. */
  ghost predicate GhostsFit(c: Config, rs: seq<Request>) {
    rs != [] ==> GhostFits(c, ServeAll(c, rs[..|rs| - 1])) && GhostsFit(c, rs[..|rs| - 1])
  }

  lemma {:induction false} AllWithin(c: Config, u: nat, n: nat, rs: seq<Request>)
    requires c.header > 0 && Reach(n, u, c.capacity) && u <= n * u == c.capacity && OfSize(c, u, rs) && KeepsNothing(rs)
    requires GhostsFit(c, rs)
    ensures Within(c, u, ServeAll(c, rs))
  {
    if rs != [] {
      var before, s := rs[..|rs| - 1], ServeAll(c, rs[..|rs| - 1]);
      AllWithin(c, u, n, before);
      AllServed(c, u, before);
      AllLean(c, u, n, before);
      UniformBound(c, u, n, before);
      ServeWithin(c, u, s, rs[|rs| - 1], ServeAll(c, rs));
    }
  }

  // ----- when one more ghost fits

  lemma {:induction false} TimesMore(j: nat, k: nat, h: nat)
    ensures Times(j + k, h) == Times(j, h) + Times(k, h)
  {
    if k > 0 {
      TimesMore(j, k - 1, h);
    }
  }

  /** Two multiples of a header are at least a header apart. */
  lemma MultiplesApart(j: nat, k: nat, h: nat)
    requires Times(j, h) < Times(k, h)
    ensures Times(j, h) + h <= Times(k, h)
  {
    if j < k {
      TimesMore(j + 1, k - j - 1, h);
    } else {
      TimesMore(k, j - k, h);
    }
  }

  lemma {:induction false} TimesTimes(k: nat, q: nat, u: nat, h: nat) returns (x: nat)
    requires u == Times(q, h)
    ensures Times(k, u) == Times(x, h)
  {
    x := 0;
    if k > 0 {
      x := TimesTimes(k - 1, q, u, h);
      TimesMore(x, q, h);
      x := x + q;
    }
  }

  lemma TotalIsMultiple(c: Config, u: nat, q: nat, s: State) returns (x: nat)
    requires Served(c, u, s) && u == Times(q, c.header)
    ensures Bytes(Everything, s) == Times(x, c.header)
  {
    var h := c.header;
    SizesOf(c, u, s);
    var y := TimesTimes(|s.t1|, q, u, h);
    var z := TimesTimes(|s.t2|, q, u, h);
    TimesMore(y, z, h);
    TimesMore(|s.b1|, |s.b2|, h);
    TimesMore(y + z, |s.b1| + |s.b2|, h);
    x := y + z + (|s.b1| + |s.b2|);
  }

  /** With residents that are multiples of a header, and a capacity that is one, whatever was forgotten. */
  lemma MultiplesFit(c: Config, u: nat, q: nat, n: nat, s: State)
    requires Served(c, u, s) && u == Times(q, c.header) && c.capacity == Times(n, u)
    ensures GhostFits(c, s)
  {
    var x := TotalIsMultiple(c, u, q, s);
    var z := TimesTimes(n, q, u, c.header);
    TimesMore(z, z, c.header);
    if Bytes(Everything, s) < 2 * c.capacity {
      MultiplesApart(x, z + z, c.header);
    }
  }

  /**
   With a full cache beside the ghosts, and a capacity that is a multiple of a header, whatever the residents'
   size.
   */
  lemma FullFits(c: Config, u: nat, z: nat, s: State)
    requires Served(c, u, s) && c.capacity == Times(z, c.header)
    requires c.capacity <= Bytes(Everything, s) < 2 * c.capacity ==> Bytes(Residents, s) == c.capacity
    ensures GhostFits(c, s)
  {
    var h := c.header;
    SizesOf(c, u, s);
    TimesMore(|s.b1|, |s.b2|, h);
    if c.capacity <= Bytes(Everything, s) < 2 * c.capacity {
      MultiplesApart(|s.b1| + |s.b2|, z, h);
    }
  }

  // ----- runs that exceed twice the capacity

  lemma TotalOf(c: Config, u: nat, rs: seq<Request>, p: nat, k: nat)
    requires Lengths(c, u, rs, 0, 0, p, k)
    ensures Bytes(Everything, ServeAll(c, rs)) == Times(p, u) + Times(k, c.header)
      && Bytes(Recent, ServeAll(c, rs)) == 0
  {
    SizesOf(c, u, ServeAll(c, rs));
  }

  /** With T1 and B1 empty a miss turns an entry of T2 into a ghost of B2, and a hit brings the new one to T2. */
  lemma MissAndHit(c: Config, u: nat, rs: seq<Request>, p: nat, j: nat) returns (more: seq<Request>)
    requires u >= c.header > 0 && p > 0 && c.capacity > 0 && Lengths(c, u, rs, 0, 0, p, j)
    requires c.capacity <= Bytes(Everything, ServeAll(c, rs)) < 2 * c.capacity
    ensures Lengths(c, u, more, 0, 0, p, j + 1) && (DropsNothing(rs) ==> DropsNothing(more))
  {
    TotalOf(c, u, rs, p, j);
    more := MissReplaces(c, u, rs, 0, 0, p, j);
    more := HitNewest(c, u, more, 1, 0, p - 1, j + 1);
  }

  /** So B2 grows until all lists hold twice the capacity. */
  lemma {:induction false} GrowB2(c: Config, u: nat, rs: seq<Request>, p: nat, j: nat)
    returns (more: seq<Request>, k: nat)
    requires u >= c.header > 0 && p > 0 && c.capacity > 0 && Lengths(c, u, rs, 0, 0, p, j)
    requires Bytes(Everything, ServeAll(c, rs)) >= c.capacity
    ensures Lengths(c, u, more, 0, 0, p, k) && Bytes(Everything, ServeAll(c, more)) >= 2 * c.capacity
    ensures DropsNothing(rs) ==> DropsNothing(more)
    decreases 2 * c.capacity - Times(j, c.header)
  {
    TotalOf(c, u, rs, p, j);
    if Bytes(Everything, ServeAll(c, rs)) >= 2 * c.capacity {
      more, k := rs, j;
    } else {
      more := MissAndHit(c, u, rs, p, j);
      TotalOf(c, u, more, p, j + 1);
      more, k := GrowB2(c, u, more, p, j + 1);
    }
  }

  /** A full T2, and then as many ghosts in B2. */
  lemma FullGhosts(c: Config, u: nat, n: nat) returns (rs: seq<Request>, k: nat)
    requires u >= c.header > 0 && Reach(n, u, c.capacity) && c.capacity == Times(n, u)
    ensures Lengths(c, u, rs, 0, 0, n, k) && DropsNothing(rs) && Times(k, c.header) >= c.capacity
  {
    rs := FullT2(c, u, n);
    TotalOf(c, u, rs, n, 0);
    rs, k := GrowB2(c, u, rs, n, 0);
    TotalOf(c, u, rs, n, k);
  }

  /** Forgets the newest entry of T2. */
  lemma DropNewest(c: Config, u: nat, rs: seq<Request>, p: nat, k: nat) returns (more: seq<Request>)
    requires u >= c.header > 0 && p > 0 && Lengths(c, u, rs, 0, 0, p, k)
    ensures Lengths(c, u, more, 0, 0, p - 1, k)
  {
    var s := ServeAll(c, rs);
    var id := s.t2[0].id;
    more := rs + [Drop(id)];
    assert Find(s.t2, id) == 0;
    ServeMore(c, rs, Drop(id), more);
    OnlyOneHas(c, s, id);
    FlushLoads(c, u, s, id, Flush(s, id));
  }

  lemma {:induction false} DropToOne(c: Config, u: nat, rs: seq<Request>, p: nat, k: nat) returns (more: seq<Request>)
    requires u >= c.header > 0 && p > 0 && Lengths(c, u, rs, 0, 0, p, k)
    ensures Lengths(c, u, more, 0, 0, 1, k)
    decreases p
  {
    more := rs;
    if p > 1 {
      more := DropNewest(c, u, rs, p, k);
      more := DropToOne(c, u, more, p - 1, k);
    }
  }

  lemma TimesMod(k: nat, h: nat)
    requires h > 0
    ensures Times(k, h) % h == 0
  {
    TimesIs(k, h);
    var q, r := k * h / h, k * h % h;
    assert k * h == q * h + r;
    assert (q + 1) * h == q * h + h;
    CompareMultiples(k, q, h);
    CompareMultiples(k, q + 1, h);
  }

  lemma TimesOf(a: nat, h: nat)
    requires h > 0 && a % h == 0
    ensures a == Times(a / h, h)
  {
    TimesIs(a / h, h);
  }

  // ----- exactly when

  ghost predicate Bounded(c: Config, s: State) {
    Bytes(Residents, s) <= Limit(Residents, c) && Bytes(Everything, s) <= Limit(Everything, c)
  }

  lemma {:induction false} NoDropsFit(c: Config, u: nat, n: nat, z: nat, rs: seq<Request>)
    requires u >= c.header > 0 && Reach(n, u, c.capacity) && c.capacity == n * u && c.capacity == Times(z, c.header)
    requires OfSize(c, u, rs) && KeepsNothing(rs) && DropsNothing(rs)
    ensures GhostsFit(c, rs)
  {
    if rs != [] {
      var before := rs[..|rs| - 1];
      NoDropsFit(c, u, n, z, before);
      AllServed(c, u, before);
      GhostsMeanFull(c, u, before);
      UniformBound(c, u, n, before);
      FullFits(c, u, z, ServeAll(c, before));
    }
  }

  lemma {:induction false} MultiplesAllFit(c: Config, u: nat, q: nat, n: nat, rs: seq<Request>)
    requires c.header > 0 && u == Times(q, c.header) && c.capacity == Times(n, u) && OfSize(c, u, rs)
    ensures GhostsFit(c, rs)
  {
    if rs != [] {
      var before := rs[..|rs| - 1];
      MultiplesAllFit(c, u, q, n, before);
      AllServed(c, u, before);
      MultiplesFit(c, u, q, n, ServeAll(c, before));
    }
  }

  lemma Bounds(c: Config, u: nat, n: nat, rs: seq<Request>)
    requires u >= c.header > 0 && Reach(n, u, c.capacity) && c.capacity == n * u
    requires OfSize(c, u, rs) && KeepsNothing(rs) && GhostsFit(c, rs)
    ensures Bounded(c, ServeAll(c, rs))
  {
    CompareMultiples(n, 1, u);
    AllWithin(c, u, n, rs);
    UniformBound(c, u, n, rs);
  }

  lemma NotCapacity(c: Config, k: nat)
    requires c.header > 0 && c.capacity % c.header != 0
    ensures Times(k, c.header) != c.capacity
  {
    TimesMod(k, c.header);
  }

  lemma ExceedsUndropped(c: Config, u: nat, n: nat) returns (rs: seq<Request>)
    requires u >= c.header > 0 && Reach(n, u, c.capacity) && c.capacity == Times(n, u) && c.capacity % c.header != 0
    ensures OfSize(c, u, rs) && KeepsNothing(rs) && DropsNothing(rs)
      && Bytes(Everything, ServeAll(c, rs)) > 2 * c.capacity
  {
    var k;
    rs, k := FullGhosts(c, u, n);
    NotCapacity(c, k);
    TotalOf(c, u, rs, n, k);
  }

  lemma ExceedsDropped(c: Config, u: nat, n: nat) returns (rs: seq<Request>)
    requires u >= c.header > 0 && Reach(n, u, c.capacity) && c.capacity == Times(n, u) && c.capacity % c.header == 0
      && u % c.header != 0
    ensures OfSize(c, u, rs) && KeepsNothing(rs) && Bytes(Everything, ServeAll(c, rs)) > 2 * c.capacity
  {
    var k;
    rs, k := FullGhosts(c, u, n);
    rs := DropToOne(c, u, rs, n, k);
    TotalOf(c, u, rs, 1, k);
    rs, k := GrowB2(c, u, rs, 1, k);
    TotalOf(c, u, rs, 1, k);
    NotTwice(c, u, k);
  }

  lemma NotTwice(c: Config, u: nat, k: nat)
    requires c.header > 0 && c.capacity % c.header == 0 && u % c.header != 0
    ensures Times(1, u) + Times(k, c.header) != 2 * c.capacity
  {
    var h := c.header;
    var z := c.capacity / h;
    TimesOf(c.capacity, h);
    TimesMore(z, z, h);
    if k <= z + z {
      TimesMore(k, z + z - k, h);
      TimesMod(z + z - k, h);
    } else {
      TimesMore(z + z, k - z - z, h);
    }
  }

  /**
   Clients that have nothing forgotten: all four lists stay within twice the capacity, and T1 and
   T2 within the capacity, exactly when the capacity is a positive multiple of the entries' size
   and of the header.
   */
  lemma TotalFits(c: Config, u: nat)
    requires u >= c.header > 0
    ensures (forall rs :: OfSize(c, u, rs) && KeepsNothing(rs) && DropsNothing(rs) ==> Bounded(c, ServeAll(c, rs)))
        <==> c.capacity > 0 && c.capacity % u == 0 && c.capacity % c.header == 0
  {
    if c.capacity == 0 || c.capacity % u != 0 {
      var rs := T1Exceeds(Residents, c, u);
      assert !Bounded(c, ServeAll(c, rs));
    } else {
      var n := RoundedUp(c.capacity, u);
      RoundedUpReaches(c.capacity, u);
      TimesIs(n, u);
      if c.capacity % c.header != 0 {
        var rs := ExceedsUndropped(c, u, n);
        assert !Bounded(c, ServeAll(c, rs));
      } else {
        TimesOf(c.capacity, c.header);
        forall rs | OfSize(c, u, rs) && KeepsNothing(rs) && DropsNothing(rs) ensures Bounded(c, ServeAll(c, rs)) {
          NoDropsFit(c, u, n, c.capacity / c.header, rs);
          Bounds(c, u, n, rs);
        }
      }
    }
  }

  /**
   Clients that may have anything forgotten: exactly when, besides, the entries' size itself is a multiple of
   the header.
   */
  lemma TotalFitsFlushed(c: Config, u: nat)
    requires u >= c.header > 0
    ensures (forall rs :: OfSize(c, u, rs) && KeepsNothing(rs) ==> Bounded(c, ServeAll(c, rs)))
        <==> c.capacity > 0 && c.capacity % u == 0 && u % c.header == 0
  {
    if c.capacity == 0 || c.capacity % u != 0 {
      var rs := T1Exceeds(Residents, c, u);
      assert !Bounded(c, ServeAll(c, rs));
    } else {
      var n := RoundedUp(c.capacity, u);
      RoundedUpReaches(c.capacity, u);
      TimesIs(n, u);
      if u % c.header == 0 {
        TimesOf(u, c.header);
        forall rs | OfSize(c, u, rs) && KeepsNothing(rs) ensures Bounded(c, ServeAll(c, rs)) {
          MultiplesAllFit(c, u, u / c.header, n, rs);
          Bounds(c, u, n, rs);
        }
      } else {
        var rs;
        if c.capacity % c.header != 0 {
          rs := ExceedsUndropped(c, u, n);
        } else {
          rs := ExceedsDropped(c, u, n);
        }
        assert !Bounded(c, ServeAll(c, rs));
      }
    }
  }

  lemma FullThenDropped(c: Config, u: nat, n: nat) returns (rs: seq<Request>)
    requires u >= c.header > 0 && Reach(n, u, c.capacity) && n > 1 && c.capacity <= Times(n, u) < 2 * c.capacity
    ensures Lengths(c, u, rs, 0, 0, n - 1, 1)
  {
    rs := FullT2(c, u, n);
    TotalOf(c, u, rs, n, 0);
    rs := MissAndHit(c, u, rs, n, 0);
    rs := DropNewest(c, u, rs, n, 1);
  }

  /**
   A client that has data forgotten may see ghosts of a cache that is not full, whatever the capacity and the
   size.
   */
  lemma FlushBreaksFull(c: Config, u: nat) returns (rs: seq<Request>)
    requires u >= c.header > 0 && c.capacity > 0
    ensures OfSize(c, u, rs) && KeepsNothing(rs)
    ensures ServeAll(c, rs).b2 != [] && Bytes(Residents, ServeAll(c, rs)) < c.capacity
  {
    var n := RoundedUp(c.capacity, u);
    RoundedUpReaches(c.capacity, u);
    if n == 1 {
      rs := AAB(c, u, u) + [Drop(B)];
      FlushLeavesGhost(c, u);
    } else {
      NotTwiceFull(c, u, n);
      rs := FullThenDropped(c, u, n);
      SizesOf(c, u, ServeAll(c, rs));
    }
  }

  lemma NotTwiceFull(c: Config, u: nat, n: nat)
    requires Reach(n, u, c.capacity) && n > 1
    ensures Times(n - 1, u) < c.capacity <= Times(n, u) < 2 * c.capacity
  {
    TimesIs(n - 1, u);
    TimesIs(n, u);
    CompareMultiples(n - 1, 1, u);
  }
}
