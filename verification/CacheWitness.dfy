/**
 Runs that go beyond the bounds of `CacheUniform` once one of their conditions is dropped, in every
 configuration that leaves room for them.
 */
module CacheWitness {
  import opened Basics
  import opened CacheModel
  import opened CacheInvariant
  import opened CacheBounds
  import opened CacheUniform

  const A: Id := [0]
  const B: Id := [1]
  const C: Id := [2]

  /** Fetches `u` bytes and lets go of them. */
  ghost function Pass(c: Config, id: Id, u: nat): Request
    requires u >= c.header
  {
    Fetch(id, Zeros(u - c.header), false)
  }

  /** An entry of `u` bytes nobody uses. */
  ghost function Idle1(c: Config, id: Id, u: nat): Entry
    requires u >= c.header
  {
    Entry(id, u, 0, Zeros(u - c.header))
  }

  ghost function GhostOf(c: Config, id: Id): Entry {
    Entry(id, c.header, 0, [])
  }

  // ----- single requests

  /** A miss without a ghost, on top of what making room leaves. */
  lemma PassMiss(c: Config, s: State, id: Id, u: nat, m: State)
    requires u >= c.header && m == MakeRoom(c, s.(insert := Some(T1)))
    requires !Has(s.t1, id) && !Has(s.b1, id) && !Has(s.t2, id) && !Has(s.b2, id) && !Has(m.t2, id)
    ensures Serve(c, s, Pass(c, id, u)) == m.(t1 := [Idle1(c, id, u)] + m.t1)
  {
    var e := NewEntry(c, id, Zeros(u - c.header));
    LoadedIs(c, s, e);
    ReleaseFirst(e, m.t1, Loaded(c, s, e));
  }

  /** A hit on the newest entry of T1, with T2 empty. */
  lemma PassHit(c: Config, s: State, x: Entry, rest: seq<Entry>, u: nat)
    requires u >= c.header && s.t1 == [x] + rest && s.t2 == [] && x.usage == 0 && !Has(rest, x.id)
    ensures Serve(c, s, Pass(c, x.id, u)) == s.(t1 := rest, t2 := [x])
  {
    assert Find(s.t1, x.id) == 0;
    assert Without(s.t1, x.id) == rest;
    LoadedIs(c, s, NewEntry(c, x.id, Zeros(u - c.header)));
    var t := Hit(s, x.id);
    assert t == s.(t1 := rest, t2 := [Used(x, 1)]);
    assert Release'(t.t2, x.id) == [x];
  }

  lemma SumOne(e: Entry)
    ensures Sum([e]) == e.size
  {
    SumMore(e, []);
  }

  lemma SumTwo(e: Entry, f: Entry)
    ensures Sum([e, f]) == e.size + f.size
  {
    SumMore(e, [f]);
    assert [e] + [f] == [e, f];
    SumOne(f);
  }

  lemma OneVictim(e: Entry)
    requires e.usage == 0
    ensures Victim([e]) == Some(e) && Rotated([e]) == []
  {
  }

  // ----- room for one entry: A, A, B

  /** A came back and went to T2, so it is B2 that remembers it. */
  ghost predicate ThenB(c: Config, w: nat, s: State)
    requires w >= c.header
  {
    s.t1 == [Idle1(c, B, w)] && s.b1 == [] && s.t2 == [] && s.b2 == [GhostOf(c, A)] && s.target == 0
  }

  ghost function AAB(c: Config, u: nat, w: nat): seq<Request>
    requires u >= c.header && w >= c.header
  {
    [Pass(c, A, u), Pass(c, A, u), Pass(c, B, w)]
  }

  lemma FirstPass(c: Config, id: Id, u: nat)
    requires u >= c.header && c.capacity > 0
    ensures ServeAll(c, [Pass(c, id, u)]) == EMPTY.(t1 := [Idle1(c, id, u)], insert := Some(T1))
  {
    var r := Pass(c, id, u);
    ServeMore(c, [], r, [r]);
    MakeRoomIs(c, EMPTY.(insert := Some(T1)));
    PassMiss(c, EMPTY, id, u, EMPTY.(insert := Some(T1)));
  }

  /** T2 gives way to a miss when T1 is empty and B1 has room. */
  lemma RoomFromT2(c: Config, s: State, x: Entry)
    requires s.t1 == [] && s.t2 == [x] && x.usage == 0 && Sum(s.b1) < c.capacity && s.b2 == []
    requires c.capacity <= x.size + Sum(s.b1)
    ensures MakeRoom(c, s) == s.(t2 := [], b2 := [Trim(c, x)])
  {
    MakeRoomIs(c, s);
    SumOne(x);
    OneVictim(x);
    EmptyVictim();
    ReplaceChoice(c, Before(c, s));
  }

  lemma EmptyVictim()
    ensures Victim([]).None? && Rotated([]) == []
  {
  }

  lemma AABIs(c: Config, u: nat, w: nat)
    requires u >= c.header && w >= c.header && 0 < c.capacity <= u
    ensures ThenB(c, w, ServeAll(c, AAB(c, u, w)))
  {
    var a, b, x := Pass(c, A, u), Pass(c, B, w), Idle1(c, A, u);
    var s := EMPTY.(t2 := [x], insert := Some(T1));
    FirstPass(c, A, u);
    ServeMore(c, [a], a, [a, a]);
    PassHit(c, EMPTY.(t1 := [x], insert := Some(T1)), x, [], u);
    ServeMore(c, [a, a], b, [a, a, b]);
    RoomFromT2(c, s, x);
    PassMiss(c, s, B, w, s.(t2 := [], b2 := [Trim(c, x)]));
  }

  lemma AABOfSize(c: Config, u: nat)
    requires u >= c.header
    ensures OfSize(c, u, AAB(c, u, u) + [Drop(B)]) && KeepsNothing(AAB(c, u, u) + [Drop(B)])
  {
  }

  lemma DropB(c: Config, u: nat, s: State)
    requires u >= c.header && ThenB(c, u, s)
    ensures var t := Serve(c, s, Drop(B)); t.t1 == [] && t.t2 == [] && t.b2 == s.b2
  {
    assert Find(s.t1, B) == 0;
  }

  /** Forgetting B leaves a ghost and no entry. */
  lemma FlushLeavesGhost(c: Config, u: nat)
    requires u >= c.header && 0 < c.capacity <= u
    ensures var rs := AAB(c, u, u) + [Drop(B)];
      var s := ServeAll(c, rs);
      OfSize(c, u, rs) && KeepsNothing(rs) && s.b2 != [] && Bytes(Residents, s) == 0
  {
    var rs := AAB(c, u, u);
    AABOfSize(c, u);
    AABIs(c, u, u);
    ServeMore(c, rs, Drop(B), rs + [Drop(B)]);
    DropB(c, u, ServeAll(c, rs));
  }

  /** Entries of different sizes break the last of the bounds: a large one gives way to a small one. */
  lemma SizesBreakFull(c: Config)
    requires c.capacity > c.header > 0
    ensures var rs := AAB(c, c.capacity, c.header);
      var s := ServeAll(c, rs);
      EachFits(c, rs) && KeepsNothing(rs) && DropsNothing(rs) && s.b2 != []
        && Bytes(Residents, s) == c.header < c.capacity
  {
    AABIs(c, c.capacity, c.header);
    SumOne(Idle1(c, B, c.header));
  }

  // ----- entries of different sizes, none of them larger than the capacity

  ghost function Two(c: Config): seq<Request>
    requires c.capacity >= c.header
  {
    [Pass(c, A, c.header), Pass(c, B, c.capacity)]
  }

  ghost predicate EachFits(c: Config, rs: seq<Request>) {
    forall r :: r in rs && r.Fetch? ==> c.header + |r.data| <= c.capacity
  }

  /** A small entry and a large one: T1 takes both. */
  lemma TwoSizes(c: Config)
    requires c.capacity > c.header > 0
    ensures ServeAll(c, Two(c)) == EMPTY.(t1 := [Idle1(c, B, c.capacity), Idle1(c, A, c.header)], insert := Some(T1))
  {
    var a, b, x := Pass(c, A, c.header), Pass(c, B, c.capacity), Idle1(c, A, c.header);
    FirstPass(c, A, c.header);
    var s := EMPTY.(t1 := [x], insert := Some(T1));
    ServeMore(c, [a], b, [a, b]);
    SumOne(x);
    MakeRoomIs(c, s);
    PassMiss(c, s, B, c.capacity, s);
  }

  lemma SizesBreakResidents(c: Config)
    requires c.capacity > c.header > 0
    ensures var s := ServeAll(c, Two(c));
      EachFits(c, Two(c)) && KeepsNothing(Two(c)) && Bytes(Residents, s) == Bytes(Recent, s) == c.capacity + c.header
  {
    TwoSizes(c);
    SumTwo(Idle1(c, B, c.capacity), Idle1(c, A, c.header));
  }

  /** C finds room for itself only. */
  lemma ThirdSize(c: Config, s: State, x: Entry, y: Entry)
    requires c.capacity > c.header > 0 && x == Idle1(c, A, c.header) && y == Idle1(c, B, c.capacity)
    requires s == State([x], [], [y], [], Some(T1), 0)
    ensures Serve(c, s, Pass(c, C, c.capacity)) == s.(t1 := [Idle1(c, C, c.capacity)], b1 := [GhostOf(c, A)])
  {
    SumOne(x);
    SumOne(y);
    OneVictim(x);
    MakeRoomIs(c, s);
    ReplaceChoice(c, s);
    PassMiss(c, s, C, c.capacity, s.(t1 := [], b1 := [GhostOf(c, A)]));
  }

  ghost function Four(c: Config): seq<Request>
    requires c.capacity >= c.header
  {
    Two(c) + [Pass(c, B, c.capacity)] + [Pass(c, C, c.capacity)]
  }

  lemma FourSizes(c: Config, s: State)
    requires c.capacity > c.header > 0 && s == ServeAll(c, Four(c))
    ensures s.t1 == [Idle1(c, C, c.capacity)] && s.b1 == [GhostOf(c, A)] && s.t2 == [Idle1(c, B, c.capacity)]
      && s.b2 == []
  {
    var rs, b, d := Two(c), Pass(c, B, c.capacity), Pass(c, C, c.capacity);
    var x, y, more := Idle1(c, A, c.header), Idle1(c, B, c.capacity), rs + [b];
    TwoSizes(c);
    ServeMore(c, rs, b, more);
    assert [y, x] == [y] + [x];
    PassHit(c, EMPTY.(t1 := [y, x], insert := Some(T1)), y, [x], c.capacity);
    ServeMore(c, more, d, more + [d]);
    ThirdSize(c, ServeAll(c, more), x, y);
  }

  lemma FourFit(c: Config)
    requires c.capacity >= c.header
    ensures EachFits(c, Four(c)) && KeepsNothing(Four(c))
  {
  }

  /** Then B again, which goes to T2, and C: all four lists hold more than twice the capacity. */
  lemma SizesBreakEverything(c: Config)
    requires c.capacity > c.header > 0
    ensures EachFits(c, Four(c)) && KeepsNothing(Four(c))
      && Bytes(Everything, ServeAll(c, Four(c))) == 2 * c.capacity + c.header
  {
    FourFit(c);
    FourSizes(c, ServeAll(c, Four(c)));
    BytesOfOnes(ServeAll(c, Four(c)), Idle1(c, C, c.capacity), GhostOf(c, A), Idle1(c, B, c.capacity));
  }

  lemma BytesOfOnes(s: State, x: Entry, y: Entry, z: Entry)
    requires s.t1 == [x] && s.b1 == [y] && s.t2 == [z] && s.b2 == []
    ensures Bytes(Everything, s) == x.size + y.size + z.size
  {
    SumOne(x);
    SumOne(y);
    SumOne(z);
  }

  lemma {:induction false} NothingFits(c: Config, rs: seq<Request>)
    requires c.capacity < c.header && EachFits(c, rs)
    ensures ServeAll(c, rs) == EMPTY
  {
    if rs != [] {
      NothingFits(c, rs[..|rs| - 1]);
      assert rs[|rs| - 1] in rs;
      assert !InUse(EMPTY, rs[|rs| - 1].id);
    }
  }

  ghost predicate AlwaysWithin(b: Bound, c: Config) {
    forall rs :: EachFits(c, rs) && KeepsNothing(rs) ==> Bytes(b, ServeAll(c, rs)) <= Limit(b, c)
  }

  /**
   Entries of any size up to the capacity: none of the bounds is kept, unless the capacity leaves no choice of
   sizes.
   */
  lemma AnySizeFits(b: Bound, c: Config)
    requires c.header > 0
    ensures AlwaysWithin(b, c) <==> c.capacity <= c.header
  {
    if c.capacity > c.header {
      SizesBreakResidents(c);
      SizesBreakEverything(c);
    } else {
      forall rs | EachFits(c, rs) && KeepsNothing(rs) ensures Bytes(b, ServeAll(c, rs)) <= Limit(b, c) {
        if c.capacity == c.header {
          UnitsFit(c);
          assert OfSize(c, c.header, rs);
        } else {
          NothingFits(c, rs);
        }
      }
    }
  }
}
