/**
 T1 with its ghosts: for every size beyond a header there is a run, of clients that let go at
 once, that takes them over the capacity.
 */
module CacheRecent {
  import opened Basics
  import opened CacheModel
  import opened CacheInvariant
  import opened CacheBounds
  import opened CacheUniform
  import opened CacheWitness

  /** A run of entries of `u` bytes, let go at once, after which the lists have these lengths. */
  ghost predicate Lengths(c: Config, u: nat, rs: seq<Request>, t1: nat, b1: nat, t2: nat, b2: nat) {
    && OfSize(c, u, rs) && KeepsNothing(rs)
    && var s := ServeAll(c, rs);
      Served(c, u, s) && Idle(s) && s.target == 0 && |s.t1| == t1 && |s.b1| == b1 && |s.t2| == t2 && |s.b2| == b2
  }

  /** Releasing moves nothing. */
  lemma PassIsLoad(c: Config, u: nat, s: State, id: Id, l: State, t: State)
    requires u >= c.header && l == Loaded(c, s, NewEntry(c, id, Zeros(u - c.header)))
      && t == Serve(c, s, Pass(c, id, u))
    ensures |t.t1| == |l.t1| && t.b1 == l.b1 && |t.t2| == |l.t2| && t.b2 == l.b2 && t.target == l.target
  {
  }

  /** One more fetch; `l` is the state before its entry is let go. */
  lemma PassMore(c: Config, u: nat, rs: seq<Request>, id: Id, l: State) returns (more: seq<Request>)
    requires u >= c.header && OfSize(c, u, rs) && KeepsNothing(rs) && Served(c, u, ServeAll(c, rs))
      && Idle(ServeAll(c, rs))
    requires l == Loaded(c, ServeAll(c, rs), NewEntry(c, id, Zeros(u - c.header)))
    requires l.target == 0
    ensures Lengths(c, u, more, |l.t1|, |l.b1|, |l.t2|, |l.b2|)
    ensures DropsNothing(rs) ==> DropsNothing(more)
  {
    var s, r := ServeAll(c, rs), Pass(c, id, u);
    more := rs + [r];
    ServeMore(c, rs, r, more);
    ServeKeeps(c, u, s, r, ServeAll(c, more));
    PassIsLoad(c, u, s, id, l, ServeAll(c, more));
  }

  ghost function Longest(list: seq<Entry>): nat {
    if list == [] then 0 else Max(|list[0].id|, Longest(list[1..]))
  }

  lemma {:induction false} LongerIsNew(list: seq<Entry>, id: Id)
    requires |id| > Longest(list)
    ensures !Has(list, id)
  {
    if list != [] {
      LongerIsNew(list[1..], id);
    }
  }

  /** There is always an identifier no list knows. */
  lemma NewId(s: State) returns (id: Id)
    ensures !Has(s.t1, id) && !Has(s.b1, id) && !Has(s.t2, id) && !Has(s.b2, id)
  {
    id := Zeros(Longest(s.t1) + Longest(s.b1) + Longest(s.t2) + Longest(s.b2) + 1);
    LongerIsNew(s.t1, id);
    LongerIsNew(s.b1, id);
    LongerIsNew(s.t2, id);
    LongerIsNew(s.b2, id);
  }

  /** A hit on the newest entry of T1. */
  lemma HitNewest(c: Config, u: nat, rs: seq<Request>, t1: nat, b1: nat, t2: nat, b2: nat) returns (more: seq<Request>)
    requires u >= c.header && t1 > 0 && Lengths(c, u, rs, t1, b1, t2, b2)
    ensures Lengths(c, u, more, t1 - 1, b1, t2 + 1, b2)
    ensures DropsNothing(rs) ==> DropsNothing(more)
  {
    var s := ServeAll(c, rs);
    var id := s.t1[0].id;
    assert Find(s.t1, id) == 0;
    LoadedIs(c, s, NewEntry(c, id, Zeros(u - c.header)));
    more := PassMore(c, u, rs, id, Hit(s, id));
  }

  lemma {:induction false} HitAll(c: Config, u: nat, rs: seq<Request>, t1: nat, t2: nat) returns (more: seq<Request>)
    requires u >= c.header && Lengths(c, u, rs, t1, 0, t2, 0)
    ensures Lengths(c, u, more, 0, 0, t1 + t2, 0)
    ensures DropsNothing(rs) ==> DropsNothing(more)
    decreases t1
  {
    more := rs;
    if t1 > 0 {
      more := HitNewest(c, u, rs, t1, 0, t2, 0);
      more := HitAll(c, u, more, t1 - 1, t2 + 1);
    }
  }

  /** The bytes of `k` entries. */
  ghost function Times(k: nat, u: nat): nat {
    if k == 0 then 0 else u + Times(k - 1, u)
  }

  lemma {:induction false} TimesIs(k: nat, u: nat)
    ensures Times(k, u) == k * u
  {
    if k > 0 {
      TimesIs(k - 1, u);
      assert (k - 1) * u + u == k * u;
    }
  }

  lemma SizesOf(c: Config, u: nat, s: State)
    requires Served(c, u, s)
    ensures Sum(s.t1) == Times(|s.t1|, u) && Sum(s.b1) == Times(|s.b1|, c.header)
    ensures Sum(s.t2) == Times(|s.t2|, u) && Sum(s.b2) == Times(|s.b2|, c.header)
  {
    SumSized(u, s.t1);
    SumSized(c.header, s.b1);
    SumSized(u, s.t2);
    SumSized(c.header, s.b2);
    TimesIs(|s.t1|, u);
    TimesIs(|s.b1|, c.header);
    TimesIs(|s.t2|, u);
    TimesIs(|s.b2|, c.header);
  }

  /** A miss that has to replace something, and no ghost to drop: T1 gives way unless it is empty. */
  lemma MissReplaces(c: Config, u: nat, rs: seq<Request>, t1: nat, b1: nat, t2: nat, b2: nat)
    returns (more: seq<Request>)
    requires u >= c.header > 0 && t1 + t2 > 0 && Lengths(c, u, rs, t1, b1, t2, b2)
    requires Bytes(Recent, ServeAll(c, rs)) < c.capacity <= Bytes(Everything, ServeAll(c, rs)) < 2 * c.capacity
    ensures if t1 > 0 then Lengths(c, u, more, t1, b1 + 1, t2, b2) else Lengths(c, u, more, 1, b1, t2 - 1, b2 + 1)
    ensures DropsNothing(rs) ==> DropsNothing(more)
  {
    var s := ServeAll(c, rs);
    var id := NewId(s);
    var m := s.(insert := Some(T1));
    LoadedIs(c, s, NewEntry(c, id, Zeros(u - c.header)));
    MakeRoomIs(c, m);
    ReplaceMoves(c, u, m);
    more := PassMore(c, u, rs, id, Loaded(c, s, NewEntry(c, id, Zeros(u - c.header))));
  }

  /** With the target at zero T1 gives way whenever it holds anything. */
  lemma ReplaceMoves(c: Config, u: nat, s: State)
    requires u > 0 && Uniform(u, s) && Idle(s) && s.target == 0 && |s.t1| + |s.t2| > 0
    ensures var t := Replace(c, s);
      && t.target == 0
      && if s.t1 != [] then |t.t1| == |s.t1| - 1 && |t.b1| == |s.b1| + 1 && t.t2 == s.t2 && t.b2 == s.b2
         else t.t1 == [] && t.b1 == s.b1 && |t.t2| == |s.t2| - 1 && |t.b2| == |s.b2| + 1
  {
    RotatedCount(s.t1);
    RotatedCount(s.t2);
    assert forall e :: e in s.t1 ==> Resident(s, e);
    assert forall e :: e in s.t2 ==> Resident(s, e);
    if s.t1 != [] {
      SumSized(u, s.t1);
      CompareMultiples(|s.t1|, 1, u);
    }
    ReplaceChoice(c, s);
  }

  /** A ghost of B2 comes back: T1 gives way to it. */
  lemma BackFromB2(c: Config, u: nat, rs: seq<Request>, t1: nat, b1: nat, t2: nat, b2: nat) returns (more: seq<Request>)
    requires u >= c.header > 0 && t1 > 0 && b2 > 0 && Lengths(c, u, rs, t1, b1, t2, b2)
    ensures Lengths(c, u, more, t1 - 1, b1 + 1, t2 + 1, b2 - 1)
    ensures DropsNothing(rs) ==> DropsNothing(more)
  {
    var s := ServeAll(c, rs);
    var id := s.b2[0].id;
    assert Has(s.b2, id);
    OnlyOneHas(c, s, id);
    LoadedIs(c, s, NewEntry(c, id, Zeros(u - c.header)));
    var a := Adapt(c, s, id);
    AdaptKeeps(c, s, id, a);
    ReplaceMoves(c, u, a);
    more := PassMore(c, u, rs, id, Loaded(c, s, NewEntry(c, id, Zeros(u - c.header))));
  }

  lemma TimesSmall(k: nat, u: nat, n: nat)
    requires k <= 1 && k <= n
    ensures Times(k, u) == if k == 1 then u else 0
    ensures Times(k, u) + Times(n - k, u) == Times(n, u)
  {
  }

  /** The bytes by the lengths, with at most one entry in T1 and at most one ghost in B2. */
  lemma BytesOf(c: Config, u: nat, n: nat, rs: seq<Request>, t1: nat, b1: nat, t2: nat, b2: nat)
    requires Lengths(c, u, rs, t1, b1, t2, b2) && t1 <= 1 && b2 <= 1 && t1 + t2 == n
    ensures Bytes(Recent, ServeAll(c, rs)) == (if t1 == 1 then u else 0) + Times(b1, c.header)
    ensures Bytes(Everything, ServeAll(c, rs)) == Times(n, u) + Times(b1, c.header) + if b2 == 1 then c.header else 0
  {
    var s := ServeAll(c, rs);
    TimesSmall(t1, u, n);
    TimesSmall(b2, c.header, b2);
    SizesOf(c, u, s);
    assert Sum(s.t1) + Sum(s.t2) == Times(n, u);
  }

  /** While T1 and B1 have room, misses turn T1's entry into a ghost again and again. */
  lemma {:induction false} GrowB1(c: Config, u: nat, n: nat, rs: seq<Request>, j: nat)
    returns (more: seq<Request>, k: nat)
    requires u > c.header > 0 && n > 0 && c.capacity == Times(n, u) && Lengths(c, u, rs, 1, j, n - 1, 1)
    ensures Lengths(c, u, more, 1, k, n - 1, 1) && u + Times(k, c.header) >= c.capacity
    ensures DropsNothing(rs) ==> DropsNothing(more)
    decreases c.capacity - Times(j, c.header)
  {
    BytesOf(c, u, n, rs, 1, j, n - 1, 1);
    if u + Times(j, c.header) >= c.capacity {
      more, k := rs, j;
    } else {
      more := MissReplaces(c, u, rs, 1, j, n - 1, 1);
      more, k := GrowB1(c, u, n, more, j + 1);
    }
  }

  /** With T1 empty the next miss takes an entry of T2, so T1 grows beside B1. */
  lemma OneMore(c: Config, u: nat, n: nat, rs: seq<Request>, k: nat) returns (more: seq<Request>)
    requires u >= c.header > 0 && n > 0 && c.capacity == Times(n, u) && Lengths(c, u, rs, 0, k, n, 0)
    requires Times(k, c.header) < c.capacity
    ensures OfSize(c, u, more) && KeepsNothing(more) && Bytes(Recent, ServeAll(c, more)) == u + Times(k, c.header)
    ensures DropsNothing(rs) ==> DropsNothing(more)
  {
    BytesOf(c, u, n, rs, 0, k, n, 0);
    more := MissReplaces(c, u, rs, 0, k, n, 0);
    BytesOf(c, u, n, more, 1, k, n - 1, 1);
  }

  /** A full T2 and nothing else. */
  lemma FullT2(c: Config, u: nat, n: nat) returns (rs: seq<Request>)
    requires Reach(n, u, c.capacity) && u >= c.header > 0
    ensures Lengths(c, u, rs, 0, 0, n, 0) && DropsNothing(rs)
  {
    rs := FetchAll(c, u, n, n, false);
    AllServed(c, u, rs);
    rs := HitAll(c, u, rs, n, 0);
  }

  /** If T1 and B1 just fill the capacity, a ghost of B2 empties T1 into B1, and the next miss finds room again. */
  lemma RecentGrows(c: Config, u: nat, n: nat) returns (rs: seq<Request>)
    requires u > c.header > 0 && n > 0 && c.capacity == Times(n, u) && Reach(n, u, c.capacity)
    ensures Asking(c, u, false, rs) && Bytes(Recent, ServeAll(c, rs)) > c.capacity
  {
    rs := FullT2(c, u, n);
    BytesOf(c, u, n, rs, 0, 0, n, 0);
    rs := MissReplaces(c, u, rs, 0, 0, n, 0);
    var k;
    rs, k := GrowB1(c, u, n, rs, 0);
    BytesOf(c, u, n, rs, 1, k, n - 1, 1);
    if u + Times(k, c.header) == c.capacity {
      rs := BackFromB2(c, u, rs, 1, k, n - 1, 1);
      rs := OneMore(c, u, n, rs, k + 1);
    }
  }

  /**
   Entries of one size: T1 and B1 stay within the capacity, whatever is fetched, forgotten or not,
   exactly when the entries hold no data and the capacity is a positive multiple of the header.
   */
  lemma RecentFits(c: Config, u: nat)
    requires u >= c.header > 0
    ensures (forall rs :: OfSize(c, u, rs) && KeepsNothing(rs) ==> Bytes(Recent, ServeAll(c, rs)) <= c.capacity)
        <==> u == c.header && c.capacity > 0 && c.capacity % u == 0
    ensures (forall rs :: Asking(c, u, false, rs) ==> Bytes(Recent, ServeAll(c, rs)) <= c.capacity)
        <==> u == c.header && c.capacity > 0 && c.capacity % u == 0
  {
    if c.capacity == 0 || c.capacity % u != 0 {
      var rs := T1Exceeds(Recent, c, u);
      assert Bytes(Recent, ServeAll(c, rs)) > c.capacity;
    } else if u > c.header {
      var n := RoundedUp(c.capacity, u);
      RoundedUpReaches(c.capacity, u);
      TimesIs(n, u);
      var rs := RecentGrows(c, u, n);
      assert Bytes(Recent, ServeAll(c, rs)) > c.capacity;
    } else {
      UnitsFit(c);
      assert Limit(Recent, c) == c.capacity;
    }
  }
}
