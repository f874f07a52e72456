/**
 The open-addressed table of item types in a display list of graphics.c. A probe goes from slot to slot,
 and a lookup gives up after as many probes as any insertion needed.
 */
module DisplayHash {

  const HASH_SIZE := 1024

  /** `type_none` marks a free slot. */
  const NONE := 0

  /** The slot of probe `j`. */
  function Slot(t: int, j: nat): (k: nat)
    ensures k < HASH_SIZE
  {
    ((t * 2654435761) % HASH_SIZE + j) % HASH_SIZE
  }

  lemma NextSlot(t: int, j: nat)
    ensures Slot(t, j + 1) == (Slot(t, j) + 1) % HASH_SIZE
    ensures Slot(t, 0) == (t * 2654435761) % HASH_SIZE
  {
    var a := (t * 2654435761) % HASH_SIZE + j;
    assert a == HASH_SIZE * (a / HASH_SIZE) + a % HASH_SIZE;
  }

  /** The first probes of the first two types. */
  lemma FirstSlots()
    ensures Slot(1, 0) == 433 && Slot(1, 1) == 434 && Slot(2, 0) == 866
  {
  }

  /** Every slot is probed within the first 1024 probes. */
  lemma EverySlot(t: int, k: nat) returns (j: nat)
    requires k < HASH_SIZE
    ensures j < HASH_SIZE && Slot(t, j) == k
  {
    var h := (t * 2654435761) % HASH_SIZE;
    j := if h <= k then k - h else k + HASH_SIZE - h;
  }

  /** Probe `j` finds the type, and no probe before it ends the search. */
  ghost predicate Reached(s: seq<int>, t: int, j: nat)
    requires |s| == HASH_SIZE
  {
    s[Slot(t, j)] == t && forall i :: 0 <= i < j ==> s[Slot(t, i)] != NONE && s[Slot(t, i)] != t
  }

  /** Each type is in one slot, and found there within `maxOffset` more probes than one. */
  ghost predicate Probed(s: seq<int>, maxOffset: int) {
    && |s| == HASH_SIZE
    && (forall a, b :: 0 <= a < b < |s| && s[a] != NONE ==> s[a] != s[b])
    && (forall k :: 0 <= k < |s| && s[k] != NONE ==> exists j ::
      0 <= j <= maxOffset && Slot(s[k], j) == k && Reached(s, s[k], j))
  }

  /** Where the search for a type ends: it is there, or the slot is free. */
  ghost predicate EndsAt(s: seq<int>, t: int, j: nat)
    requires |s| == HASH_SIZE
  {
    && (s[Slot(t, j)] == NONE || s[Slot(t, j)] == t)
    && forall i :: 0 <= i < j ==> s[Slot(t, i)] != NONE && s[Slot(t, i)] != t
  }

  /** A free slot ends a search only for types that are nowhere. */
  lemma EndIsDecisive(s: seq<int>, maxOffset: int, t: int, j: nat)
    requires Probed(s, maxOffset) && t != NONE && EndsAt(s, t, j)
    ensures t in s <==> s[Slot(t, j)] == t
    ensures t in s ==> j <= maxOffset
  {
    if t in s {
      var k :| 0 <= k < |s| && s[k] == t;
      var i :| 0 <= i <= maxOffset && Slot(t, i) == k && Reached(s, t, i);
      assert i == j;
    }
  }

  /** An insertion where the search ended. */
  lemma InsertKeeps(s: seq<int>, maxOffset: int, t: int, j: nat, s': seq<int>, maxOffset': int)
    requires Probed(s, maxOffset) && t != NONE && EndsAt(s, t, j) && s[Slot(t, j)] == NONE
    requires s' == s[Slot(t, j) := t] && maxOffset' >= maxOffset && maxOffset' >= j
    ensures Probed(s', maxOffset')
  {
    EndIsDecisive(s, maxOffset, t, j);
    assert Reached(s', t, j);
    forall k | 0 <= k < |s'| && s'[k] != NONE
      ensures exists i :: 0 <= i <= maxOffset' && Slot(s'[k], i) == k && Reached(s', s'[k], i)
    {
      if k != Slot(t, j) {
        var i :| 0 <= i <= maxOffset && Slot(s[k], i) == k && Reached(s, s[k], i);
        assert Reached(s', s'[k], i);
      }
    }
  }

  /** A free slot, or the type itself, ends the search. */
  lemma SearchEnds(s: seq<int>, t: int) returns (j: nat)
    requires |s| == HASH_SIZE && (t in s || NONE in s)
    ensures j < HASH_SIZE && (s[Slot(t, j)] == NONE || s[Slot(t, j)] == t)
  {
    var k :| 0 <= k < |s| && (s[k] == NONE || s[k] == t);
    j := EverySlot(t, k);
  }

  lemma {:induction false} FirstEnd(s: seq<int>, t: int, j: nat) returns (first: nat)
    requires |s| == HASH_SIZE && (s[Slot(t, j)] == NONE || s[Slot(t, j)] == t)
    ensures EndsAt(s, t, first)
    decreases j
  {
    if i: nat :| i < j && (s[Slot(t, i)] == NONE || s[Slot(t, i)] == t) {
      first := FirstEnd(s, t, i);
    } else {
      first := j;
    }
  }

  /** The probes of an insertion come to an end exactly when the type is there or a slot is free. */
  lemma SetEnds(s: seq<int>, t: int)
    requires |s| == HASH_SIZE
    ensures (t in s || NONE in s) <==> exists j: nat :: EndsAt(s, t, j)
  {
    if t in s || NONE in s {
      var j := SearchEnds(s, t);
      var first := FirstEnd(s, t, j);
    }
  }

  class DisplayList {
    const types: array<int>
    var maxOffset: int

    ghost predicate Valid()
      reads this, types
    {
      types.Length == HASH_SIZE && maxOffset >= 0 && Probed(types[..], maxOffset)
    }

    constructor ()
      ensures Valid() && fresh(types) && forall k :: 0 <= k < HASH_SIZE ==> types[k] == NONE
    {
      types := new int[HASH_SIZE](_ => NONE);
      maxOffset := 0;
    }

    /** `clear_hash`. */
    method Clear()
      requires types.Length == HASH_SIZE && maxOffset >= 0
      modifies types
      ensures Valid() && forall k :: 0 <= k < HASH_SIZE ==> types[k] == NONE
    {
      for i := 0 to HASH_SIZE
        invariant forall k :: 0 <= k < i ==> types[k] == NONE
      {
        types[i] := NONE;
      }
    }

    /** `get_hash_entry`: the slot of a type, -1 for none. */
    method Get(t: int) returns (r: int)
      requires Valid()
      ensures -1 <= r < HASH_SIZE
      ensures r >= 0 <==> t != NONE && t in types[..]
      ensures r >= 0 ==> types[r] == t
    {
      var s := types[..];
      var hashidx, offset := (t * 2654435761) % HASH_SIZE, maxOffset;
      ghost var j := 0;
      NextSlot(t, 0);
      while true
        invariant 0 <= j <= maxOffset && offset == maxOffset - j && hashidx == Slot(t, j)
        invariant forall i :: 0 <= i < j ==> s[Slot(t, i)] != NONE && s[Slot(t, i)] != t
        decreases offset
      {
        if types[hashidx] == NONE {
          if t != NONE {
            EndIsDecisive(s, maxOffset, t, j);
          }
          return -1;
        }
        if types[hashidx] == t {
          return hashidx;
        }
        NextSlot(t, j);
        hashidx := (hashidx + 1) % HASH_SIZE;
        j := j + 1;
        if offset <= 0 {
          if t != NONE && t in s {
            FoundInTime(s, maxOffset, t);
          }
          return -1;
        }
        offset := offset - 1;
      }
    }

    /** `set_hash_entry`: the slot of a type, taken now if it had none; it needs a free slot then. */
    method Set(t: int) returns (r: nat)
      requires Valid() && t != NONE && (t in types[..] || NONE in types[..])
      modifies types, this`maxOffset
      ensures Valid() && r < HASH_SIZE && types[r] == t
      ensures types[..] == if t in old(types[..]) then old(types[..]) else old(types[..])[r := t]
      ensures t !in old(types[..]) ==> old(types[..])[r] == NONE
    {
      var s := types[..];
      ghost var last := SearchEnds(s, t);
      var hashidx, offset := (t * 2654435761) % HASH_SIZE, 0;
      NextSlot(t, 0);
      while true
        invariant 0 <= offset <= last && hashidx == Slot(t, offset) && types[..] == s && maxOffset == old(maxOffset)
        invariant forall i :: 0 <= i < offset ==> s[Slot(t, i)] != NONE && s[Slot(t, i)] != t
        decreases last - offset
      {
        if types[hashidx] == NONE {
          EndIsDecisive(s, maxOffset, t, offset);
          types[hashidx] := t;
          if maxOffset < offset {
            maxOffset := offset;
          }
          InsertKeeps(s, old(maxOffset), t, offset, types[..], maxOffset);
          return hashidx;
        }
        if types[hashidx] == t {
          assert t in s;
          return hashidx;
        }
        NextSlot(t, offset);
        hashidx := (hashidx + 1) % HASH_SIZE;
        offset := offset + 1;
      }
    }

    /** `displaylist_update_hash` with the types of all layers that show at the current order. */
    method Update(list: seq<int>)
      requires types.Length == HASH_SIZE
      requires NONE !in list && |Kinds(list)| <= HASH_SIZE
      modifies types, this`maxOffset
      ensures Valid() && forall t :: t != NONE ==> (t in types[..] <==> t in list)
    {
      maxOffset := 0;
      Clear();
      for i := 0 to |list|
        invariant Valid() && forall t :: t != NONE ==> (t in types[..] <==> t in list[..i])
      {
        ghost var s := types[..];
        RoomLeft(s, list, i);
        var r := Set(list[i]);
        assert list[..i + 1] == list[..i] + [list[i]];
        StillThere(s, types[..], r, list[i]);
      }
      assert list[..|list|] == list;
    }
  }

  /** What was in the table is in it after an insertion, in the same slot. */
  lemma StillThere(s: seq<int>, s': seq<int>, r: nat, t: int)
    requires |s| == |s'| == HASH_SIZE && r < HASH_SIZE && t != NONE
    requires (s' == s && t in s) || (s[r] == NONE && s' == s[r := t])
    ensures forall u :: u != NONE ==> (u in s' <==> u in s || u == t)
    ensures forall k :: 0 <= k < HASH_SIZE && s[k] != NONE ==> s'[k] == s[k]
  {
    forall u | u != NONE ensures u in s' <==> u in s || u == t {
      if u in s && s' != s {
        var k :| 0 <= k < |s| && s[k] == u;
        assert s'[k] == u;
      }
      if s' != s {
        assert s'[r] == t;
      }
    }
  }

  /** A type in the table is found within the recorded number of probes. */
  lemma FoundInTime(s: seq<int>, maxOffset: int, t: int)
    requires Probed(s, maxOffset) && t != NONE && t in s
    ensures exists i :: 0 <= i <= maxOffset && s[Slot(t, i)] == t
  {
    var k :| 0 <= k < |s| && s[k] == t;
    var i :| 0 <= i <= maxOffset && Slot(t, i) == k && Reached(s, t, i);
  }

  ghost function Kinds(list: seq<int>): set<int> {
    set t | t in list
  }

  lemma {:induction false} DistinctCount(s: seq<int>)
    requires forall a, b :: 0 <= a < b < |s| ==> s[a] != s[b]
    ensures |Kinds(s)| == |s|
  {
    if s == [] {
      assert Kinds(s) == {};
    } else {
      var rest := s[..|s| - 1];
      DistinctCount(rest);
      assert Kinds(s) == Kinds(rest) + {s[|s| - 1]};
    }
  }

  lemma SubsetCount(a: set<int>, b: set<int>)
    requires a <= b
    ensures |a| <= |b|
  {
    assert b == a + (b - a);
  }

  /** With 1024 different types at most, a full table already has the next one. */
  lemma RoomLeft(s: seq<int>, list: seq<int>, i: nat)
    requires |s| == HASH_SIZE && i < |list| && |Kinds(list)| <= HASH_SIZE
    requires forall a, b :: 0 <= a < b < |s| && s[a] != NONE ==> s[a] != s[b]
    requires forall t :: t != NONE ==> (t in s <==> t in list[..i])
    ensures list[i] in s || NONE in s
  {
    if NONE !in s && list[i] !in s {
      DistinctCount(s);
      assert Kinds(s) + {list[i]} <= Kinds(list);
      SubsetCount(Kinds(s) + {list[i]}, Kinds(list));
    }
  }

  /** After an update, a lookup finds exactly the listed types; a second insertion changes nothing. */
  method UpdateThenGet(dl: DisplayList, list: seq<int>, t: int) returns (r: int, again: nat)
    requires dl.types.Length == HASH_SIZE && NONE !in list && |Kinds(list)| <= HASH_SIZE && t in list
    modifies dl.types, dl`maxOffset
    ensures 0 <= r < HASH_SIZE && again == r && dl.types[r] == t
  {
    dl.Update(list);
    r := dl.Get(t);
    again := dl.Set(t);
    assert dl.Valid();
  }
}
