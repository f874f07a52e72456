/**
 The bounds of adaptive replacement, over runs of clients that ask for entries of one size: which
 of them hold of which clients and capacities.
 */
module CacheUniform {
  import opened Basics
  import opened CacheModel
  import opened CacheInvariant
  import opened CacheBounds

  // ----- runs

  /**
   What a client asks for. It fetches data, and may keep using it; what it kept it can let go; it can have data
   forgotten.
   */
  datatype Request = Fetch(id: Id, data: seq<int>, keep: bool) | LetGo(id: Id) | Drop(id: Id)

  /** Looks an identifier up, and inserts its data on a miss. */
  ghost function Loaded(c: Config, s: State, e: Entry): State {
    var r := Lookup(c, s, e.id);
    if r.data.None? && (r.state.insert == Some(T1) || r.state.insert == Some(T2)) then Insert(c, r.state, e)
      else r.state
  }

  ghost function Serve(c: Config, s: State, r: Request): State {
    match r
    case Fetch(id, data, keep) =>
      var t := Loaded(c, s, NewEntry(c, id, data));
      if keep then t else Release(t, id)
    case LetGo(id) => if InUse(s, id) then Release(s, id) else s
    case Drop(id) => Flush(s, id)
  }

  /** The cache after these requests. */
  ghost function ServeAll(c: Config, rs: seq<Request>): State {
    if rs == [] then EMPTY else Serve(c, ServeAll(c, rs[..|rs| - 1]), rs[|rs| - 1])
  }

  /** Every entry fetched takes `u` bytes. */
  ghost predicate OfSize(c: Config, u: nat, rs: seq<Request>) {
    forall r :: r in rs && r.Fetch? ==> c.header + |r.data| == u
  }

  /** The client lets go of everything at once. */
  ghost predicate KeepsNothing(rs: seq<Request>) {
    forall r :: r in rs && r.Fetch? ==> !r.keep
  }

  ghost predicate DropsNothing(rs: seq<Request>) {
    forall r :: r in rs ==> !r.Drop?
  }

  // ----- what the sizes say of the numbers of entries

  ghost predicate Sized(u: nat, list: seq<Entry>) {
    forall e :: e in list ==> e.size == u
  }

  ghost predicate Uniform(u: nat, s: State) {
    Sized(u, s.t1) && Sized(u, s.t2)
  }

  ghost predicate Idle(s: State) {
    forall e :: Resident(s, e) ==> e.usage == 0
  }

  /** So many entries of `u` bytes just reach the capacity. */
  ghost predicate Reach(n: nat, u: nat, capacity: nat) {
    u > 0 && n > 0 && (n - 1) * u < capacity <= n * u
  }

  /** The resident entries are as many as reach the capacity, or fewer. */
  ghost predicate Lean(n: nat, s: State) {
    |s.t1| + |s.t2| <= n
  }

  /** Nothing was evicted without need: they are as many when there are ghosts. */
  ghost predicate Filled(n: nat, s: State) {
    s.b1 != [] || s.b2 != [] ==> |s.t1| + |s.t2| >= n
  }

  /** The bounds with ghosts. */
  ghost predicate Recalled(n: nat, s: State) {
    |s.t1| + |s.b1| <= n && |s.t1| + |s.t2| + |s.b1| + |s.b2| <= 2 * n
  }

  lemma {:induction false} SumSized(u: nat, list: seq<Entry>)
    requires Sized(u, list)
    ensures Sum(list) == |list| * u
  {
    if list != [] {
      SumSized(u, list[1..]);
    }
  }

  lemma CompareMultiples(a: nat, b: nat, u: nat)
    requires u > 0
    ensures a * u >= b * u <==> a >= b
  {
    if a >= b {
      assert (a - b) * u >= 0;
    } else {
      assert (b - a) * u > 0;
    }
  }

  lemma CountReaches(k: nat, n: nat, u: nat, capacity: nat)
    requires Reach(n, u, capacity)
    ensures k * u >= capacity <==> k >= n
  {
    CompareMultiples(k, n, u);
    CompareMultiples(n - 1, k, u);
  }

  lemma OneReaches(n: nat, u: nat, capacity: nat, list: seq<Entry>)
    requires Reach(n, u, capacity) && Sized(u, list)
    ensures Sum(list) >= capacity <==> |list| >= n
  {
    SumSized(u, list);
    CountReaches(|list|, n, u, capacity);
  }

  /** Comparing bytes with the capacity is comparing numbers of entries. */
  lemma Reaches(n: nat, u: nat, capacity: nat, a: seq<Entry>, b: seq<Entry>)
    requires Reach(n, u, capacity) && Sized(u, a) && Sized(u, b)
    ensures Sum(a) >= capacity <==> |a| >= n
    ensures Sum(a) + Sum(b) >= capacity <==> |a| + |b| >= n
  {
    OneReaches(n, u, capacity, a);
    SumConcat(a, b);
    OneReaches(n, u, capacity, a + b);
  }

  // ----- how the numbers of entries change

  lemma RotatedCount(list: seq<Entry>)
    ensures |Rotated(list)| == |list| - if Victim(list).Some? then 1 else 0
    ensures (forall e :: e in list ==> e.usage == 0) && list != [] ==> Victim(list).Some?
  {
    LruEviction(list);
    if list != [] {
      assert list[0] in list;
    }
  }

  ghost predicate ReplacedOne(s: State, t: State) {
    || (|t.t1| == |s.t1| - 1 && |t.b1| == |s.b1| + 1 && t.t2 == s.t2 && t.b2 == s.b2)
    || (t.t1 == s.t1 && t.b1 == s.b1 && |t.t2| == |s.t2| - 1 && |t.b2| == |s.b2| + 1)
  }

  /** Replacing turns one resident entry into a ghost, if there is one that nobody uses. */
  lemma ReplaceCount(c: Config, s: State, t: State)
    requires t == Replace(c, s)
    ensures ReplacedOne(s, t) || t == s
    ensures Idle(s) && |s.t1| + |s.t2| > 0 ==> ReplacedOne(s, t)
  {
    RotatedCount(s.t1);
    RotatedCount(s.t2);
    ReplaceChoice(c, s);
    if Idle(s) {
      assert forall e :: e in s.t1 ==> Resident(s, e);
      assert forall e :: e in s.t2 ==> Resident(s, e);
    }
  }

  /** What making room for an entry comes to. */
  datatype Room = OldGhost1 | OldT1 | OldGhost2 | Replacing | Enough

  ghost function RoomBy(c: Config, s: State): Room {
    if Bytes(Recent, s) >= c.capacity then
      if Sum(s.t1) < c.capacity then OldGhost1 else OldT1
    else if Bytes(Everything, s) >= c.capacity then
      if Bytes(Everything, s) >= 2 * c.capacity then OldGhost2 else Replacing
    else Enough
  }

  /** The state `Replace` starts from, or the one it is not called in. */
  ghost function Before(c: Config, s: State): State {
    match RoomBy(c, s)
    case OldGhost1 => s.(b1 := Rotated(s.b1))
    case OldT1 => s.(t1 := Rotated(s.t1))
    case OldGhost2 => s.(b2 := Rotated(s.b2))
    case Replacing => s
    case Enough => s
  }

  lemma MakeRoomIs(c: Config, s: State)
    ensures MakeRoom(c, s) == if RoomBy(c, s).OldT1? || RoomBy(c, s).Enough? then Before(c, s)
      else Replace(c, Before(c, s))
  {
  }

  lemma BeforeIsIdle(c: Config, s: State)
    requires Idle(s)
    ensures Idle(Before(c, s))
  {
    RotatedSubset(s.t1);
  }

  lemma IdleCount(c: Config, s: State)
    requires Idle(s)
    ensures |Rotated(s.t1)| == if s.t1 == [] then 0 else |s.t1| - 1
  {
    RotatedCount(s.t1);
    assert forall e :: e in s.t1 ==> Resident(s, e);
  }

  /** With idle entries there is room for one more. */
  lemma RoomIsLean(c: Config, u: nat, n: nat, s: State, t: State)
    requires Reach(n, u, c.capacity) && Uniform(u, s) && Idle(s) && Lean(n, s) && t == MakeRoom(c, s)
    ensures |t.t1| + |t.t2| < n
  {
    var m := Before(c, s);
    Reaches(n, u, c.capacity, s.t1, s.t2);
    MakeRoomIs(c, s);
    match RoomBy(c, s)
    case OldT1 => IdleCount(c, s);
    case Enough =>
    case _ =>
      BeforeIsIdle(c, s);
      ReplaceCount(c, m, t);
  }

  /** Room is made for one entry at most. */
  lemma RoomIsFilled(c: Config, u: nat, n: nat, s: State, t: State)
    requires Reach(n, u, c.capacity) && Uniform(u, s) && Filled(n, s) && t == MakeRoom(c, s)
    ensures Filled(n - 1, t)
  {
    Reaches(n, u, c.capacity, s.t1, s.t2);
    MakeRoomIs(c, s);
    ReplaceCount(c, Before(c, s), Replace(c, Before(c, s)));
    RotatedCount(s.t1);
    if s.b1 == [] && s.b2 == [] && t != s {
      assert |s.t1| + |s.t2| >= n;
    }
  }

  lemma GhostCount(c: Config, list: seq<Entry>)
    requires GhostsOk(c, list)
    ensures |Rotated(list)| == if list == [] then 0 else |list| - 1
  {
    RotatedCount(list);
  }

  /** Room with the ghosts counted, when residents are as large as ghosts. */
  lemma RoomIsRecalled(c: Config, n: nat, s: State, t: State)
    requires GhostsOk(c, s.b1) && GhostsOk(c, s.b2) && Uniform(c.header, s) && Reach(n, c.header, c.capacity)
    requires Idle(s) && Lean(n, s) && Recalled(n, s) && t == MakeRoom(c, s)
    ensures |t.t1| + |t.b1| < n && |t.t1| + |t.t2| + |t.b1| + |t.b2| < 2 * n
  {
    var m := Before(c, s);
    RecentReached(c, n, s);
    EverythingReached(c, n, s);
    MakeRoomIs(c, s);
    match RoomBy(c, s)
    case OldT1 => IdleCount(c, s);
    case Enough =>
    case _ =>
      GhostCount(c, s.b1);
      GhostCount(c, s.b2);
      ReplaceCount(c, m, t);
  }

  lemma RecentReached(c: Config, n: nat, s: State)
    requires GhostsOk(c, s.b1) && GhostsOk(c, s.b2) && Uniform(c.header, s) && Reach(n, c.header, c.capacity)
    ensures Sum(s.t1) >= c.capacity <==> |s.t1| >= n
    ensures Bytes(Recent, s) >= c.capacity <==> |s.t1| + |s.b1| >= n
  {
    Reaches(n, c.header, c.capacity, s.t1, s.b1);
  }

  lemma EverythingSized(c: Config, s: State)
    requires GhostsOk(c, s.b1) && GhostsOk(c, s.b2) && Uniform(c.header, s)
    ensures Bytes(Everything, s) == (|s.t1| + |s.t2| + |s.b1| + |s.b2|) * c.header
  {
    var a, b := s.t1 + s.t2, s.b1 + s.b2;
    SumConcat(s.t1, s.t2);
    SumConcat(s.b1, s.b2);
    SumConcat(a, b);
    SumSized(c.header, a + b);
  }

  lemma EverythingReached(c: Config, n: nat, s: State)
    requires GhostsOk(c, s.b1) && GhostsOk(c, s.b2) && Uniform(c.header, s) && Reach(n, c.header, c.capacity)
    ensures Bytes(Everything, s) >= c.capacity <==> |s.t1| + |s.t2| + |s.b1| + |s.b2| >= n
    ensures |s.t1| + |s.t2| + |s.b1| + |s.b2| >= 2 * n ==> Bytes(Everything, s) >= 2 * c.capacity
  {
    EverythingSized(c, s);
    CountReaches(|s.t1| + |s.t2| + |s.b1| + |s.b2|, n, c.header, c.capacity);
    TwiceReached(|s.t1| + |s.t2| + |s.b1| + |s.b2|, n, c.header, c.capacity);
  }

  lemma TwiceReached(k: nat, n: nat, u: nat, capacity: nat)
    requires Reach(n, u, capacity)
    ensures k >= 2 * n ==> k * u >= 2 * capacity
  {
    CompareMultiples(k, 2 * n, u);
    assert 2 * n * u == 2 * (n * u);
  }

  // ----- one request

  lemma LoadedIs(c: Config, s: State, e: Entry)
    ensures Has(s.t1, e.id) || Has(s.t2, e.id) ==> Loaded(c, s, e) == Hit(s, e.id)
    ensures !Has(s.t1, e.id) && !Has(s.t2, e.id) && (Has(s.b1, e.id) || Has(s.b2, e.id)) ==>
      var g := Replace(c, Adapt(c, s, e.id)); Loaded(c, s, e) == g.(insert := Some(T2), t2 := [e] + g.t2)
    ensures !Has(s.t1, e.id) && !Has(s.t2, e.id) && !Has(s.b1, e.id) && !Has(s.b2, e.id) ==>
      var m := MakeRoom(c, s.(insert := Some(T1))); Loaded(c, s, e) == m.(t1 := [e] + m.t1)
  {
  }

  /** The numbers of entries after a hit. */
  lemma HitCount(s: State, id: Id, t: State)
    requires (Has(s.t1, id) || Has(s.t2, id)) && t == Hit(s, id)
    ensures |t.t1| + |t.t2| == |s.t1| + |s.t2| && |t.t1| <= |s.t1| && t.b1 == s.b1 && t.b2 == s.b2
  {
  }

  /** A ghost hit forgets one ghost. */
  lemma AdaptCount(c: Config, s: State, id: Id, a: State)
    requires (Has(s.b1, id) || Has(s.b2, id)) && a == Adapt(c, s, id)
    ensures a.t1 == s.t1 && a.t2 == s.t2 && |a.b1| <= |s.b1| && |a.b1| + |a.b2| == |s.b1| + |s.b2| - 1
  {
  }

  lemma LoadedIsLean(c: Config, u: nat, n: nat, s: State, e: Entry, t: State)
    requires Reach(n, u, c.capacity) && Uniform(u, s) && Idle(s) && Lean(n, s) && t == Loaded(c, s, e)
    ensures Lean(n, t)
  {
    LoadedIs(c, s, e);
    if Has(s.t1, e.id) || Has(s.t2, e.id) {
      HitCount(s, e.id, t);
    } else if Has(s.b1, e.id) || Has(s.b2, e.id) {
      var a := Adapt(c, s, e.id);
      AdaptCount(c, s, e.id, a);
      ReplaceCount(c, a, Replace(c, a));
    } else {
      var m := s.(insert := Some(T1));
      RoomIsLean(c, u, n, m, MakeRoom(c, m));
    }
  }

  lemma LoadedIsFilled(c: Config, u: nat, n: nat, s: State, e: Entry, t: State)
    requires Reach(n, u, c.capacity) && Uniform(u, s) && Filled(n, s) && t == Loaded(c, s, e)
    ensures Filled(n, t)
  {
    LoadedIs(c, s, e);
    if Has(s.t1, e.id) || Has(s.t2, e.id) {
      HitCount(s, e.id, t);
    } else if Has(s.b1, e.id) || Has(s.b2, e.id) {
      var a := Adapt(c, s, e.id);
      AdaptCount(c, s, e.id, a);
      ReplaceCount(c, a, Replace(c, a));
    } else {
      var m := s.(insert := Some(T1));
      RoomIsFilled(c, u, n, m, MakeRoom(c, m));
    }
  }

  lemma LoadedIsRecalled(c: Config, n: nat, s: State, e: Entry, t: State)
    requires Ok(c, s) && Reach(n, c.header, c.capacity) && Uniform(c.header, s) && Idle(s) && Lean(n, s)
      && Recalled(n, s)
    requires t == Loaded(c, s, e)
    ensures Recalled(n, t)
  {
    LoadedIs(c, s, e);
    if Has(s.t1, e.id) || Has(s.t2, e.id) {
      HitCount(s, e.id, t);
    } else if Has(s.b1, e.id) || Has(s.b2, e.id) {
      var a := Adapt(c, s, e.id);
      AdaptCount(c, s, e.id, a);
      ReplaceCount(c, a, Replace(c, a));
    } else {
      var m := s.(insert := Some(T1));
      RoomIsRecalled(c, n, m, MakeRoom(c, m));
    }
  }

  /** One user of one identifier. */
  ghost predicate OneUser(s: State, id: Id) {
    forall x :: Resident(s, x) ==> x.usage == if x.id == id then 1 else 0
  }

  lemma HitLoads(c: Config, u: nat, s: State, id: Id, t: State)
    requires Ok(c, s) && Uniform(u, s) && (Has(s.t1, id) || Has(s.t2, id)) && t == Hit(s, id)
    ensures Ok(c, t) && Uniform(u, t) && InUse(t, id) && (Idle(s) ==> OneUser(t, id))
  {
    var e := if Has(s.t1, id) then Get(s.t1, id) else Get(s.t2, id);
    HitKeeps(c, s, id, e, t);
    assert Resident(t, Used(e, 1));
    ResidentsUniform(u, s, t, Used(e, 1));
    forall x | Idle(s) && Resident(t, x) ensures x.usage == if x.id == id then 1 else 0 {
      if x.id == id {
        ResidentIsOnly(c, t, x, Used(e, 1));
      }
    }
  }

  lemma ResidentsUniform(u: nat, s: State, t: State, e: Entry)
    requires Uniform(u, s) && e.size == u && forall x :: Resident(t, x) ==> x == e || Resident(s, x)
    ensures Uniform(u, t)
  {
    forall x | x in t.t1 ensures x.size == u {
      assert Resident(t, x);
    }
    forall x | x in t.t2 ensures x.size == u {
      assert Resident(t, x);
    }
  }

  /** Two residents of one identifier are one entry. */
  lemma ResidentIsOnly(c: Config, s: State, x: Entry, y: Entry)
    requires Ok(c, s) && Resident(s, x) && Resident(s, y) && x.id == y.id
    ensures x == y
  {
    assert Count(s, x.id) <= 1;
    HasIsIds(s.t1, x.id);
    HasIsIds(s.t2, x.id);
    if x in s.t1 {
      FoundIsOnly(s.t1, x);
      FoundIsOnly(s.t1, y);
    } else {
      FoundIsOnly(s.t2, x);
      FoundIsOnly(s.t2, y);
    }
  }

  /** After fetching: the invariant, entries of one size, and one user more. */
  lemma LoadedKeeps(c: Config, u: nat, s: State, e: Entry, t: State)
    requires Ok(c, s) && Uniform(u, s) && e.usage == 1 && u == e.size == c.header + |e.data| && t == Loaded(c, s, e)
    ensures Ok(c, t) && Uniform(u, t) && InUse(t, e.id) && (Idle(s) ==> OneUser(t, e.id))
  {
    LoadedIs(c, s, e);
    if Has(s.t1, e.id) || Has(s.t2, e.id) {
      HitLoads(c, u, s, e.id, t);
    } else {
      var r := Lookup(c, s, e.id);
      LookupKeeps(c, s, e.id, r);
      LookupInsertList(c, s, e.id);
      InsertKeeps(c, r.state, e, t);
      ResidentsUniform(u, s, t, e);
      AbsentIsNotResident(r.state, e.id);
    }
  }

  /** Letting go of the one use there is leaves an idle cache; letting go keeps the numbers of entries. */
  lemma ReleaseLoads(c: Config, u: nat, s: State, id: Id, t: State)
    requires Ok(c, s) && Uniform(u, s) && InUse(s, id) && t == Release(s, id)
    ensures Ok(c, t) && Uniform(u, t) && (OneUser(s, id) ==> Idle(t))
    ensures |t.t1| == |s.t1| && |t.t2| == |s.t2| && t.b1 == s.b1 && t.b2 == s.b2
  {
    var e :| Resident(s, e) && e.id == id && e.usage > 0;
    ReleaseKeeps(c, s, e, t);
    ResidentsUniform(u, s, t, Used(e, -1));
    forall x | OneUser(s, id) && Resident(t, x) ensures x.usage == 0 {
      if x.id == id {
        ResidentIsOnly(c, t, x, Used(e, -1));
      }
    }
  }

  lemma FlushLoads(c: Config, u: nat, s: State, id: Id, t: State)
    requires Ok(c, s) && Uniform(u, s) && t == Flush(s, id)
    ensures Ok(c, t) && Uniform(u, t) && (Idle(s) ==> Idle(t))
    ensures |t.t1| <= |s.t1| && |t.t2| <= |s.t2| && |t.b1| <= |s.b1| && |t.b2| <= |s.b2|
  {
    FlushKeeps(c, s, id, t);
    WithoutSubset(s.t1, id);
    WithoutSubset(s.t2, id);
  }

  // ----- whole runs

  ghost predicate Served(c: Config, u: nat, s: State) {
    Ok(c, s) && Uniform(u, s)
  }

  lemma ServeKeeps(c: Config, u: nat, s: State, r: Request, t: State)
    requires Served(c, u, s) && (r.Fetch? ==> c.header + |r.data| == u) && t == Serve(c, s, r)
    ensures Served(c, u, t)
    ensures Idle(s) && (r.Fetch? ==> !r.keep) ==> Idle(t)
  {
    match r
    case Fetch(id, data, keep) =>
      var e := NewEntry(c, id, data);
      LoadedKeeps(c, u, s, e, Loaded(c, s, e));
      ReleaseLoads(c, u, Loaded(c, s, e), id, Release(Loaded(c, s, e), id));
    case LetGo(id) =>
      if InUse(s, id) {
        ReleaseLoads(c, u, s, id, t);
      }
    case Drop(id) => FlushLoads(c, u, s, id, t);
  }

  lemma ServeIsLean(c: Config, u: nat, n: nat, s: State, r: Request, t: State)
    requires Served(c, u, s) && (r.Fetch? ==> c.header + |r.data| == u) && t == Serve(c, s, r)
    requires Reach(n, u, c.capacity) && Idle(s) && Lean(n, s)
    ensures Lean(n, t)
  {
    match r
    case Fetch(id, data, keep) =>
      var e := NewEntry(c, id, data);
      LoadedIsLean(c, u, n, s, e, Loaded(c, s, e));
    case LetGo(id) =>
    case Drop(id) => FlushLoads(c, u, s, id, t);
  }

  lemma ServeIsRecalled(c: Config, n: nat, s: State, r: Request, t: State)
    requires Served(c, c.header, s) && t == Serve(c, s, r)
    requires Reach(n, c.header, c.capacity) && Idle(s) && Lean(n, s) && Recalled(n, s)
    ensures Recalled(n, t)
  {
    match r
    case Fetch(id, data, keep) =>
      var e := NewEntry(c, id, data);
      LoadedIsRecalled(c, n, s, e, Loaded(c, s, e));
    case LetGo(id) =>
    case Drop(id) => FlushLoads(c, c.header, s, id, t);
  }

  lemma ServeIsFilled(c: Config, u: nat, n: nat, s: State, r: Request, t: State)
    requires Served(c, u, s) && (r.Fetch? ==> c.header + |r.data| == u) && t == Serve(c, s, r)
    requires Reach(n, u, c.capacity) && Filled(n, s) && !r.Drop?
    ensures Filled(n, t)
  {
    match r
    case Fetch(id, data, keep) =>
      var e := NewEntry(c, id, data);
      LoadedIsFilled(c, u, n, s, e, Loaded(c, s, e));
    case LetGo(id) =>
  }

  lemma {:induction false} AllServed(c: Config, u: nat, rs: seq<Request>)
    requires c.header > 0 && OfSize(c, u, rs)
    ensures Served(c, u, ServeAll(c, rs))
  {
    if rs == [] {
      EmptyIsFaithful(c);
    } else {
      AllServed(c, u, rs[..|rs| - 1]);
      ServeKeeps(c, u, ServeAll(c, rs[..|rs| - 1]), rs[|rs| - 1], ServeAll(c, rs));
    }
  }

  /** A client that lets go at once, whatever it has forgotten: no more residents than reach the capacity. */
  lemma {:induction false} AllLean(c: Config, u: nat, n: nat, rs: seq<Request>)
    requires Reach(n, u, c.capacity) && c.header > 0 && OfSize(c, u, rs) && KeepsNothing(rs)
    ensures Idle(ServeAll(c, rs)) && Lean(n, ServeAll(c, rs))
  {
    if rs != [] {
      var before, s := rs[..|rs| - 1], ServeAll(c, rs[..|rs| - 1]);
      AllLean(c, u, n, before);
      AllServed(c, u, before);
      ServeKeeps(c, u, s, rs[|rs| - 1], ServeAll(c, rs));
      ServeIsLean(c, u, n, s, rs[|rs| - 1], ServeAll(c, rs));
    }
  }

  /** Without data in the entries the bounds with ghosts hold too. */
  lemma {:induction false} AllRecalled(c: Config, n: nat, rs: seq<Request>)
    requires Reach(n, c.header, c.capacity) && OfSize(c, c.header, rs) && KeepsNothing(rs)
    ensures Recalled(n, ServeAll(c, rs))
  {
    if rs != [] {
      var before, s := rs[..|rs| - 1], ServeAll(c, rs[..|rs| - 1]);
      AllRecalled(c, n, before);
      AllLean(c, c.header, n, before);
      AllServed(c, c.header, before);
      ServeIsRecalled(c, n, s, rs[|rs| - 1], ServeAll(c, rs));
    }
  }

  /** A client that has nothing forgotten, whatever it keeps: ghosts only when the residents reach the capacity. */
  lemma {:induction false} AllFilled(c: Config, u: nat, n: nat, rs: seq<Request>)
    requires Reach(n, u, c.capacity) && c.header > 0 && OfSize(c, u, rs) && DropsNothing(rs)
    ensures Filled(n, ServeAll(c, rs))
  {
    if rs != [] {
      var before, s := rs[..|rs| - 1], ServeAll(c, rs[..|rs| - 1]);
      AllFilled(c, u, n, before);
      AllServed(c, u, before);
      ServeIsFilled(c, u, n, s, rs[|rs| - 1], ServeAll(c, rs));
    }
  }

  // ----- the bounds in bytes

  ghost function Zeros(n: nat): (data: seq<int>)
    ensures |data| == n
  {
    seq(n, _ => 0)
  }

  /** Only T1 holds entries: `k` of `u` bytes with these users, under the identifiers below `k`. */
  ghost predicate OnlyT1(u: nat, k: nat, users: int, s: State) {
    && s.t2 == [] && s.b1 == [] && s.b2 == [] && |s.t1| == k && s.target == 0
    && forall e :: e in s.t1 ==> e.size == u && e.usage == users && |e.id| == 1 && 0 <= e.id[0] < k
  }

  /** When all are in use, or the capacity is not reached, making room changes nothing. */
  lemma NoRoom(c: Config, u: nat, k: nat, users: int, s: State)
    requires OnlyT1(u, k, users, s) && (users != 0 || k * u < c.capacity)
    ensures MakeRoom(c, s) == s
  {
    SumSized(u, s.t1);
    MakeRoomIs(c, s);
    LruEviction(s.t1);
    LruEviction(s.b1);
    LruEviction(s.b2);
    LruEviction(s.t2);
    ReplaceChoice(c, s);
  }

  lemma LoadFresh(c: Config, u: nat, k: nat, users: int, s: State, e: Entry, t: State)
    requires OnlyT1(u, k, users, s) && (users != 0 || k * u < c.capacity) && e.id == [k] && t == Loaded(c, s, e)
    ensures t.t1 == [e] + s.t1 && t.t2 == [] && t.b1 == [] && t.b2 == [] && t.target == 0
  {
    HasIsIds(s.t1, e.id);
    LoadedIs(c, s, e);
    NoRoom(c, u, k, users, s.(insert := Some(T1)));
  }

  /** One fetch of a new identifier, let go or kept. */
  lemma ServeFresh(c: Config, u: nat, k: nat, keep: bool, s: State, data: seq<int>, after: State)
    requires OnlyT1(u, k, if keep then 1 else 0, s) && (keep || k * u < c.capacity) && c.header + |data| == u
    requires after == Serve(c, s, Fetch([k], data, keep))
    ensures OnlyT1(u, k + 1, if keep then 1 else 0, after)
  {
    var e := NewEntry(c, [k], data);
    var t := Loaded(c, s, e);
    LoadFresh(c, u, k, if keep then 1 else 0, s, e, t);
    ReleaseFirst(e, s.t1, t);
    if keep {
      assert forall x :: x in t.t1 ==> x == e || x in s.t1;
    } else {
      assert forall x :: x in Release(t, e.id).t1 ==> x == Used(e, -1) || x in s.t1;
    }
  }

  lemma ReleaseFirst(e: Entry, rest: seq<Entry>, t: State)
    requires t.t1 == [e] + rest && !Has(t.t2, e.id)
    ensures Release(t, e.id) == t.(t1 := [Used(e, -1)] + rest)
  {
    assert Find(t.t1, e.id) == 0;
  }

  lemma ServeMore(c: Config, rs: seq<Request>, r: Request, all: seq<Request>)
    requires all == rs + [r]
    ensures ServeAll(c, all) == Serve(c, ServeAll(c, rs), r)
  {
    assert all[..|all| - 1] == rs;
  }

  /** One more fetch. */
  lemma FetchMore(c: Config, u: nat, n: nat, k: nat, keep: bool, rs: seq<Request>) returns (all: seq<Request>)
    requires (keep || (Reach(n, u, c.capacity) && k < n)) && u >= c.header
    requires OnlyT1(u, k, if keep then 1 else 0, ServeAll(c, rs)) && Asking(c, u, keep, rs)
    ensures OnlyT1(u, k + 1, if keep then 1 else 0, ServeAll(c, all)) && Asking(c, u, keep, all)
  {
    var data := Zeros(u - c.header);
    all := rs + [Fetch([k], data, keep)];
    if !keep {
      CountReaches(k, n, u, c.capacity);
    }
    ServeMore(c, rs, Fetch([k], data, keep), all);
    ServeFresh(c, u, k, keep, ServeAll(c, rs), data, ServeAll(c, all));
  }

  /** Requests that only fetch, entries of `u` bytes, and keep all of them or nothing. */
  ghost predicate Asking(c: Config, u: nat, keep: bool, rs: seq<Request>) {
    OfSize(c, u, rs) && DropsNothing(rs) && (keep || KeepsNothing(rs))
  }

  /** Fetching different identifiers: what was fetched stays, as long as it is used or there is room. */
  lemma {:induction false} FetchAll(c: Config, u: nat, n: nat, k: nat, keep: bool) returns (rs: seq<Request>)
    requires u >= c.header && (keep || (Reach(n, u, c.capacity) && k <= n))
    ensures OnlyT1(u, k, if keep then 1 else 0, ServeAll(c, rs)) && Asking(c, u, keep, rs)
  {
    rs := [];
    if k > 0 {
      rs := FetchAll(c, u, n, k - 1, keep);
      rs := FetchMore(c, u, n, k - 1, keep, rs);
    }
  }

  /** Of data in use nothing gives way: the client decides how far each count goes beyond any capacity. */
  lemma KeptDataIsHeld(b: Bound, c: Config, u: nat, k: nat) returns (rs: seq<Request>)
    requires u >= c.header
    ensures OfSize(c, u, rs) && DropsNothing(rs) && Bytes(b, ServeAll(c, rs)) == k * u
  {
    rs := FetchAll(c, u, 0, k, true);
    SumSized(u, ServeAll(c, rs).t1);
  }

  ghost function RoundedUp(capacity: nat, u: nat): nat
    requires u > 0
  {
    capacity / u + if capacity % u == 0 then 0 else 1
  }

  lemma RoundedUpReaches(capacity: nat, u: nat)
    requires u > 0 && capacity > 0
    ensures Reach(RoundedUp(capacity, u), u, capacity)
    ensures capacity % u == 0 <==> RoundedUp(capacity, u) * u == capacity
  {
    var n, q, r := RoundedUp(capacity, u), capacity / u, capacity % u;
    assert capacity == q * u + r;
    assert r > 0 ==> n * u == q * u + u;
    assert r == 0 ==> n * u == capacity && (n - 1) * u == capacity - u && n > 0;
  }

  /** The bound on residents in bytes, for any capacity: so many entries as reach it. */
  lemma UniformBound(c: Config, u: nat, n: nat, rs: seq<Request>)
    requires Reach(n, u, c.capacity) && c.header > 0 && OfSize(c, u, rs) && KeepsNothing(rs)
    ensures Bytes(Residents, ServeAll(c, rs)) <= n * u
  {
    var s := ServeAll(c, rs);
    AllServed(c, u, rs);
    AllLean(c, u, n, rs);
    SumConcat(s.t1, s.t2);
    SumSized(u, s.t1 + s.t2);
    CompareMultiples(n, |s.t1 + s.t2|, u);
  }

  /** The fetches that reach the capacity, one after the other: T1 grows as far as it can. */
  lemma T1Reaches(b: Bound, c: Config, u: nat, n: nat) returns (rs: seq<Request>)
    requires Reach(n, u, c.capacity) && u >= c.header
    ensures Asking(c, u, false, rs) && Bytes(b, ServeAll(c, rs)) == n * u
  {
    rs := FetchAll(c, u, n, n, false);
    SumSized(u, ServeAll(c, rs).t1);
  }

  lemma OneFetchTooMuch(b: Bound, c: Config, u: nat) returns (rs: seq<Request>)
    requires c.capacity == 0 && u >= c.header
    ensures Asking(c, u, false, rs) && Bytes(b, ServeAll(c, rs)) == u
  {
    var data := Zeros(u - c.header);
    var e := NewEntry(c, [0], data);
    rs := [Fetch([0], data, false)];
    ServeMore(c, [], Fetch([0], data, false), rs);
    LoadedIs(c, EMPTY, e);
    MakeRoomIs(c, EMPTY.(insert := Some(T1)));
    ReleaseFirst(e, [], Loaded(c, EMPTY, e));
  }

  /** So T1 exceeds a capacity that the size does not divide. */
  lemma T1Exceeds(b: Bound, c: Config, u: nat) returns (rs: seq<Request>)
    requires u >= c.header > 0 && (c.capacity == 0 || c.capacity % u != 0)
    ensures Asking(c, u, false, rs) && Bytes(b, ServeAll(c, rs)) > c.capacity
  {
    if c.capacity == 0 {
      rs := OneFetchTooMuch(b, c, u);
    } else {
      RoundedUpReaches(c.capacity, u);
      rs := T1Reaches(b, c, u, RoundedUp(c.capacity, u));
    }
  }

  /**
   Entries of one size, with data: T1 and T2 stay within the capacity, whatever is fetched and
   forgotten, exactly when the capacity is a positive multiple of that size.
   */
  lemma UniformFits(c: Config, u: nat)
    requires u >= c.header > 0
    ensures (forall rs :: OfSize(c, u, rs) && KeepsNothing(rs) ==> Bytes(Residents, ServeAll(c, rs)) <= c.capacity)
        <==> c.capacity > 0 && c.capacity % u == 0
  {
    if c.capacity == 0 || c.capacity % u != 0 {
      var rs := T1Exceeds(Residents, c, u);
      assert Bytes(Residents, ServeAll(c, rs)) > c.capacity;
    } else {
      var n := RoundedUp(c.capacity, u);
      RoundedUpReaches(c.capacity, u);
      forall rs | OfSize(c, u, rs) && KeepsNothing(rs) ensures Bytes(Residents, ServeAll(c, rs)) <= c.capacity {
        UniformBound(c, u, n, rs);
      }
    }
  }

  ghost predicate WithinAll(c: Config, s: State) {
    forall b: Bound :: Bytes(b, s) <= Limit(b, c)
  }

  lemma RecalledBound(c: Config, n: nat, s: State)
    requires c.header > 0 && c.capacity == n * c.header && Uniform(c.header, s) && GhostsOk(c, s.b1)
      && GhostsOk(c, s.b2)
    requires Recalled(n, s)
    ensures Bytes(Recent, s) <= c.capacity && Bytes(Everything, s) <= 2 * c.capacity
  {
    var k := |s.t1| + |s.t2| + |s.b1| + |s.b2|;
    SumConcat(s.t1, s.b1);
    SumSized(c.header, s.t1 + s.b1);
    CompareMultiples(n, |s.t1 + s.b1|, c.header);
    EverythingSized(c, s);
    CompareMultiples(2 * n, k, c.header);
    assert 2 * n * c.header == 2 * (n * c.header);
  }

  lemma UnitsBound(c: Config, n: nat, rs: seq<Request>)
    requires Reach(n, c.header, c.capacity) && c.capacity == n * c.header && OfSize(c, c.header, rs) && KeepsNothing(rs)
    ensures WithinAll(c, ServeAll(c, rs))
  {
    UniformBound(c, c.header, n, rs);
    AllServed(c, c.header, rs);
    AllRecalled(c, n, rs);
    RecalledBound(c, n, ServeAll(c, rs));
  }

  /**
   Entries without data: all three bounds hold of what is fetched and forgotten, exactly when the capacity is a
   positive multiple of the header.
   */
  lemma UnitsFit(c: Config)
    requires c.header > 0
    ensures (forall rs :: OfSize(c, c.header, rs) && KeepsNothing(rs) ==> WithinAll(c, ServeAll(c, rs)))
        <==> c.capacity > 0 && c.capacity % c.header == 0
  {
    if c.capacity > 0 && c.capacity % c.header == 0 {
      RoundedUpReaches(c.capacity, c.header);
      forall rs | OfSize(c, c.header, rs) && KeepsNothing(rs) ensures WithinAll(c, ServeAll(c, rs)) {
        UnitsBound(c, RoundedUp(c.capacity, c.header), rs);
      }
    } else {
      UniformFits(c, c.header);
      var rs :| OfSize(c, c.header, rs) && KeepsNothing(rs) && !(Bytes(Residents, ServeAll(c, rs)) <= c.capacity);
      assert !WithinAll(c, ServeAll(c, rs)) by {
        assert Limit(Residents, c) == c.capacity;
      }
    }
  }

  /** A client that has nothing forgotten, whatever it keeps: with ghosts, T1 and T2 use the whole capacity. */
  lemma GhostsMeanFull(c: Config, u: nat, rs: seq<Request>)
    requires u >= c.header > 0 && c.capacity > 0 && OfSize(c, u, rs) && DropsNothing(rs)
    ensures var s := ServeAll(c, rs); s.b1 != [] || s.b2 != [] ==> Bytes(Residents, s) >= c.capacity
  {
    var s, n := ServeAll(c, rs), RoundedUp(c.capacity, u);
    RoundedUpReaches(c.capacity, u);
    AllServed(c, u, rs);
    AllFilled(c, u, n, rs);
    Reaches(n, u, c.capacity, s.t1, s.t2);
  }
}
