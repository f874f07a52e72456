/**
 Postal masks of search.c: a mask is a postal code in which dots stand for any character. C strings are
 sequences without their terminating zero; a null pointer is `None`.
 */
module PostalMasks {
  import opened Basics

  /** What a mask matches: codes of its length that agree with it wherever it has no dot. */
  predicate Matches(postal: string, mask: string) {
    |postal| == |mask| && forall i :: 0 <= i < |mask| ==> mask[i] == '.' || mask[i] == postal[i]
  }

  /** `postal_match`. */
  method PostalMatch(postal: string, mask: string) returns (r: bool)
    ensures r <==> Matches(postal, mask)
  {
    var i := 0;
    while true
      invariant i <= |postal| && i <= |mask|
      invariant forall j :: 0 <= j < i ==> mask[j] == '.' || mask[j] == postal[j]
      decreases |postal| - i
    {
      if i == |mask| {
        // the mask's terminating zero equals only the code's
        return i == |postal|;
      }
      if i == |postal| {
        return false;
      }
      if postal[i] != mask[i] && mask[i] != '.' {
        return false;
      }
      i := i + 1;
    }
  }

  /** Whether a code agrees with a mask at one position. */
  predicate Agrees(mask: string, code: string, i: nat) {
    i < |mask| && i < |code| && (mask[i] == '.' || mask[i] == code[i])
  }

  /** How many positions a code agrees with a mask from the left. */
  function Common(mask: string, code: string, from: nat): (k: nat)
    requires from <= |mask|
    ensures from <= k <= |mask|
    decreases |mask| - from
  {
    if Agrees(mask, code, from) then Common(mask, code, from + 1) else from
  }

  function Dots(n: nat): string {
    seq(n, _ => '.')
  }

  /** The mask after a merge: what both agree on from the left, and dots. */
  function Merged(mask: Option<string>, code: Option<string>): Option<string> {
    if code.None? then mask
    else if mask.None? then code
    else
      var k := Common(mask.value, code.value, 0);
      Some(mask.value[..k] + Dots(|mask.value| - k))
  }

  /** `search_postal_merge`; `None` stands for a mask that stays as it is. */
  method Merge(mask: Option<string>, code: Option<string>) returns (merged: Option<string>)
    ensures Merged(mask, code) == if merged.Some? then merged else mask
  {
    merged := None;
    if code.None? {
      return None;
    }
    if mask.None? {
      return code;
    }
    var m, c := mask.value, code.value;
    var i := 0;
    while i < |m| && i < |c|
      invariant i <= |m| && Common(m, c, 0) == Common(m, c, i)
    {
      if m[i] != '.' && m[i] != c[i] {
        break;
      }
      i := i + 1;
    }
    assert Common(m, c, 0) == i;
    if i < |m| {
      var ret := new char[|m|](j requires 0 <= j < |m| => m[j]);
      ghost var k := i;
      assert ret[..k] == m[..k];
      while i < |m|
        invariant k <= i <= |m| && ret[..k] == m[..k]
        invariant forall j :: k <= j < i ==> ret[j] == '.'
      {
        ret[i] := '.';
        i := i + 1;
      }
      assert ret[..] == m[..k] + Dots(|m| - k);
      merged := Some(ret[..]);
    } else {
      assert m[..i] + Dots(0) == m;
    }
  }

  lemma {:induction false} CommonAgrees(mask: string, code: string, from: nat)
    requires from <= |mask|
    ensures forall i :: from <= i < Common(mask, code, from) ==> Agrees(mask, code, i)
    ensures Common(mask, code, from) < |mask| ==> !Agrees(mask, code, Common(mask, code, from))
    decreases |mask| - from
  {
    if Agrees(mask, code, from) {
      CommonAgrees(mask, code, from + 1);
    }
  }

  /** A merge keeps a position exactly when the code agrees with the mask there and everywhere before it. */
  lemma MergeKeepsAgreement(mask: string, code: string, i: nat)
    requires i < |mask|
    ensures var m := Merged(Some(mask), Some(code)).value;
      && |m| == |mask|
      && m[i] == if forall j :: 0 <= j <= i ==> Agrees(mask, code, j) then mask[i] else '.'
  {
    CommonAgrees(mask, code, 0);
  }

  /** A merged mask matches what the mask matched, and the code if it has its length. */
  lemma MergeWidens(mask: string, code: string, postal: string)
    requires Matches(postal, mask) || (postal == code && |code| == |mask|)
    ensures Matches(postal, Merged(Some(mask), Some(code)).value)
  {
    var m := Merged(Some(mask), Some(code)).value;
    forall i | 0 <= i < |m| ensures m[i] == '.' || m[i] == postal[i] {
      MergeKeepsAgreement(mask, code, i);
      if m[i] != '.' {
        assert m[i] == mask[i] && Agrees(mask, code, i);
      }
    }
  }

  // ----- the masks of a level's results

  /** A result of a search level; results for the same item share `unique`. */
  class SearchResult {
    const unique: int
    const postal: Option<string>
    var postalMask: Option<string>

    constructor (unique: int, postal: Option<string>, mask: Option<string>)
      ensures this.unique == unique && this.postal == postal && postalMask == mask
    {
      this.unique, this.postal, postalMask := unique, postal, mask;
    }
  }

  /** One call of `search_add_result`: the item, its code, and the mask it may come with. */
  datatype Added = Added(unique: int, postal: Option<string>, mask: Option<string>)

  /** The masks by item after one more result. */
  function AddMask(masks: map<int, Option<string>>, a: Added): map<int, Option<string>> {
    if a.unique in masks then masks[a.unique := Merged(masks[a.unique], a.postal)]
    else masks[a.unique := if a.postal.Some? && a.mask.None? then a.postal else a.mask]
  }

  /** The masks after any number of results. */
  function Masks(adds: seq<Added>): map<int, Option<string>> {
    if adds == [] then map[] else AddMask(Masks(adds[..|adds| - 1]), adds[|adds| - 1])
  }

  class SearchLevel {
    var list: seq<SearchResult>
    var hash: map<int, SearchResult>

    /** The hash finds exactly the results of the list, one for each item. */
    ghost predicate Valid()
      reads this
    {
      && (forall u :: u in hash ==> hash[u].unique == u && hash[u] in list)
      && (forall i :: 0 <= i < |list| ==> list[i].unique in hash && hash[list[i].unique] == list[i])
      && (forall i, j :: 0 <= i < j < |list| ==> list[i] != list[j])
    }

    ghost function CurrentMasks(): map<int, Option<string>>
      reads this`hash, hash.Values
    {
      map u | u in hash :: hash[u].postalMask
    }

    constructor ()
      ensures Valid() && list == [] && CurrentMasks() == Masks([])
    {
      list, hash := [], map[];
    }

    /** The hash and list with one more item. */
    lemma Grown(was: map<int, SearchResult>, l: seq<SearchResult>, slc: SearchResult)
      requires (forall u :: u in was ==> was[u].unique == u && was[u] in l)
      requires (forall i :: 0 <= i < |l| ==> l[i].unique in was && was[l[i].unique] == l[i])
      requires (forall i, j :: 0 <= i < j < |l| ==> l[i] != l[j])
      requires slc.unique !in was && slc !in l && hash == was[slc.unique := slc] && list == l + [slc]
      ensures Valid()
    {
      forall u | u in hash ensures hash[u].unique == u && hash[u] in list {
        assert u != slc.unique ==> was[u] in l;
      }
    }

    /** A new item is listed, with its code as mask unless it brings one. */
    method AddNew(slc: SearchResult, ghost masks: map<int, Option<string>>, ghost mask: Option<string>)
      requires Valid() && slc !in list && slc.unique !in hash
      requires masks == CurrentMasks() && mask == slc.postalMask
      modifies this, slc
      ensures Valid() && list == old(list) + [slc]
      ensures CurrentMasks() == masks[slc.unique := if slc.postal.Some? && mask.None? then slc.postal else mask]
    {
      ghost var was, l := hash, list;
      assert forall u :: u in was ==> was[u] in l && was[u] != slc;
      hash := hash[slc.unique := slc];
      if slc.postal.Some? && slc.postalMask.None? {
        slc.postalMask := slc.postal;
      }
      list := list + [slc];
      Grown(was, l, slc);
    }

    /** A known item gets its mask merged. */
    method MergeInto(slo: SearchResult, postal: Option<string>, ghost masks: map<int, Option<string>>)
      requires Valid() && slo.unique in hash && hash[slo.unique] == slo && masks == CurrentMasks()
      modifies slo
      ensures Valid() && CurrentMasks() == masks[slo.unique := Merged(masks[slo.unique], postal)]
    {
      var merged := Merge(slo.postalMask, postal);
      if merged.Some? {
        slo.postalMask := merged;
      }
      assert forall u :: u in hash && u != slo.unique ==> hash[u] != slo;
    }

    /** `search_add_result`: whether the item is new. */
    method AddResult(slc: SearchResult) returns (isNew: bool)
      requires Valid() && slc !in list
      modifies this, list, slc
      ensures Valid() && isNew == (slc.unique !in old(hash))
      ensures list == if isNew then old(list) + [slc] else old(list)
      ensures CurrentMasks() == AddMask(old(CurrentMasks()), Added(slc.unique, slc.postal, old(slc.postalMask)))
    {
      isNew := slc.unique !in hash;
      if isNew {
        AddNew(slc, CurrentMasks(), slc.postalMask);
      } else {
        MergeInto(hash[slc.unique], slc.postal, CurrentMasks());
      }
    }
  }

  /** An item is known once one call was about it. */
  lemma {:induction false} KnownItems(adds: seq<Added>, u: int)
    ensures u in Masks(adds) <==> exists i :: 0 <= i < |adds| && adds[i].unique == u
  {
    if adds != [] {
      var before := adds[..|adds| - 1];
      KnownItems(before, u);
      assert forall i :: 0 <= i < |before| ==> before[i] == adds[i];
    }
  }

  /** Call `i` brings a code for its item, and not a mask that the new item takes instead. */
  ghost predicate BringsCode(adds: seq<Added>, i: nat, u: int, p: string) {
    && i < |adds| && adds[i].unique == u && adds[i].postal == Some(p)
    && (adds[i].mask.None? || exists j :: 0 <= j < i && adds[j].unique == u)
  }

  /**
   After any calls an item has a mask once it got a code, and the mask matches every code of its length the item
   got.
   */
  lemma {:induction false} MasksCoverCodes(adds: seq<Added>, i: nat, u: int, p: string)
    requires BringsCode(adds, i, u, p)
    ensures u in Masks(adds) && Masks(adds)[u].Some?
    ensures |Masks(adds)[u].value| == |p| ==> Matches(p, Masks(adds)[u].value)
  {
    var n := |adds| - 1;
    var before, a := adds[..n], adds[n];
    if i < n {
      assert before[i] == adds[i] && forall j :: 0 <= j < i ==> before[j] == adds[j];
      MasksCoverCodes(before, i, u, p);
    }
    KnownItems(before, u);
    assert forall j :: 0 <= j < n ==> before[j] == adds[j];
    if a.unique == u && a.postal.Some? && u in Masks(before) && Masks(before)[u].Some? {
      var mask := Masks(before)[u].value;
      if |mask| == |p| {
        MergeWidens(mask, a.postal.value, p);
      }
    }
  }

  /** The exception: a code that comes with the first call of its item and with a mask is not looked at. */
  lemma MaskInsteadOfCode()
    ensures var adds := [Added(1, Some("12"), Some("34"))];
      Masks(adds)[1] == Some("34") && !Matches("12", "34")
  {
    var adds := [Added(1, Some("12"), Some("34"))];
    assert adds[..0] == [];
    assert Masks(adds) == AddMask(map[], adds[0]);
    var code, mask := "12", "34";
    assert mask[0] != '.' && mask[0] != code[0];
  }

  /** A mask never stops matching: later calls only widen it. */
  lemma {:induction false} MasksOnlyWiden(adds: seq<Added>, n: nat, u: int, p: string)
    requires n <= |adds| && u in Masks(adds[..n]) && Masks(adds[..n])[u].Some? && Matches(p, Masks(adds[..n])[u].value)
    ensures u in Masks(adds) && Masks(adds)[u].Some? && Matches(p, Masks(adds)[u].value)
    decreases |adds|
  {
    if n == |adds| {
      assert adds[..n] == adds;
    } else {
      var before, a := adds[..|adds| - 1], adds[|adds| - 1];
      assert before[..n] == adds[..n];
      MasksOnlyWiden(before, n, u, p);
      if a.unique == u && a.postal.Some? {
        MergeWidens(Masks(before)[u].value, a.postal.value, p);
      }
    }
  }

  /** An item's mask matches a code, unless they differ in length. */
  ghost predicate Covers(adds: seq<Added>, u: int, p: string) {
    u in Masks(adds) && Masks(adds)[u].Some? && (|Masks(adds)[u].value| == |p| ==> Matches(p, Masks(adds)[u].value))
  }

  /** A mask keeps its length. */
  lemma {:induction false} MaskLengthStays(adds: seq<Added>, n: nat, u: int)
    requires n <= |adds| && u in Masks(adds[..n]) && Masks(adds[..n])[u].Some?
    ensures u in Masks(adds) && Masks(adds)[u].Some? && |Masks(adds)[u].value| == |Masks(adds[..n])[u].value|
    decreases |adds|
  {
    if n == |adds| {
      assert adds[..n] == adds;
    } else {
      var before := adds[..|adds| - 1];
      assert before[..n] == adds[..n];
      MaskLengthStays(before, n, u);
    }
  }

  /** What a call for a new item must bring so that its code is covered: no mask, or one that says nothing else. */
  predicate Agreeing(a: Added, p: string) {
    a.mask.None? || |a.mask.value| != |p| || Matches(p, a.mask.value)
  }

  /** The first call of an item, with a code and a mask of its own. */
  lemma MaskTaken(adds: seq<Added>, i: nat, u: int, p: string)
    requires i < |adds| && adds[i].unique == u && adds[i].postal == Some(p) && adds[i].mask.Some?
    requires forall j :: 0 <= j < i ==> adds[j].unique != u
    ensures u in Masks(adds[..i + 1]) && Masks(adds[..i + 1])[u] == adds[i].mask
  {
    var upto := adds[..i + 1];
    assert upto[..i] == adds[..i];
    KnownItems(adds[..i], u);
  }

  /**
   A code that call `i` brings for its item is covered from then on, exactly when the item was known before,
   or the call brings no mask that contradicts the code.
   */
  lemma CodeIsCovered(adds: seq<Added>, i: nat, u: int, p: string)
    requires i < |adds| && adds[i].unique == u && adds[i].postal == Some(p)
    ensures (forall n :: i < n <= |adds| ==> Covers(adds[..n], u, p))
      <==> (exists j :: 0 <= j < i && adds[j].unique == u) || Agreeing(adds[i], p)
  {
    if BringsCode(adds, i, u, p) {
      forall n | i < n <= |adds| ensures Covers(adds[..n], u, p) {
        assert adds[..n][i] == adds[i] && forall j :: 0 <= j < i ==> adds[..n][j] == adds[j];
        assert BringsCode(adds[..n], i, u, p);
        MasksCoverCodes(adds[..n], i, u, p);
      }
    } else {
      MaskTaken(adds, i, u, p);
      if Agreeing(adds[i], p) {
        forall n | i < n <= |adds| ensures Covers(adds[..n], u, p) {
          assert adds[..n][..i + 1] == adds[..i + 1];
          MaskLengthStays(adds[..n], i + 1, u);
          if |adds[i].mask.value| == |p| {
            MasksOnlyWiden(adds[..n], i + 1, u, p);
          }
        }
      } else {
        assert !Covers(adds[..i + 1], u, p);
      }
    }
  }

  // ----- what a mask says

  /** As long as an item has no mask, a code becomes the mask itself; only a new item can bring another one. */
  lemma FirstCodeIsMask(adds: seq<Added>, f: nat, u: int)
    requires f < |adds| && adds[f].unique == u
    requires u in Masks(adds[..f]) ==> Masks(adds[..f])[u].None?
    ensures u in Masks(adds[..f + 1])
    ensures var isNew := forall j :: 0 <= j < f ==> adds[j].unique != u;
      Masks(adds[..f + 1])[u] == if isNew && adds[f].mask.Some? then adds[f].mask else adds[f].postal
  {
    var upto := adds[..f + 1];
    assert upto[..f] == adds[..f];
    KnownItems(adds[..f], u);
  }

  /** All codes the item got behind call `f` agree with its mask then, up to position `i`. */
  ghost predicate AgreeUpTo(adds: seq<Added>, f: nat, u: int, base: string, i: nat) {
    forall n :: f < n < |adds| && adds[n].unique == u && adds[n].postal.Some? ==>
      PrefixAgrees(base, adds[n].postal.value, i)
  }

  ghost predicate PrefixAgrees(base: string, code: string, i: nat) {
    forall j :: 0 <= j <= i ==> Agrees(base, code, j)
  }

  /** A mask is the first one as far as all later codes agree with it, and dots from there. */
  lemma {:induction false} MaskIsPrefix(adds: seq<Added>, f: nat, u: int, base: string, i: nat)
    requires f < |adds| && u in Masks(adds[..f + 1]) && Masks(adds[..f + 1])[u] == Some(base) && i < |base|
    ensures u in Masks(adds) && Masks(adds)[u].Some? && |Masks(adds)[u].value| == |base|
    ensures Masks(adds)[u].value[i] == if AgreeUpTo(adds, f, u, base, i) then base[i] else '.'
    decreases |adds|
  {
    if f + 1 == |adds| {
      assert adds[..f + 1] == adds;
    } else {
      var before, a := adds[..|adds| - 1], adds[|adds| - 1];
      assert before[..f + 1] == adds[..f + 1];
      MaskIsPrefix(before, f, u, base, i);
      forall j | 0 <= j <= i
        ensures Masks(before)[u].value[j] == if AgreeUpTo(before, f, u, base, j) then base[j] else '.'
      {
        MaskIsPrefix(before, f, u, base, j);
      }
      PrefixStep(before, adds, f, u, base, i);
    }
  }

  lemma PrefixStep(before: seq<Added>, adds: seq<Added>, f: nat, u: int, base: string, i: nat)
    requires |adds| > f + 1 && before == adds[..|adds| - 1] && i < |base|
    requires u in Masks(before) && Masks(before)[u].Some? && |Masks(before)[u].value| == |base|
    requires forall j :: 0 <= j <= i ==>
      Masks(before)[u].value[j] == if AgreeUpTo(before, f, u, base, j) then base[j] else '.'
    ensures u in Masks(adds) && Masks(adds)[u].Some? && |Masks(adds)[u].value| == |base|
    ensures Masks(adds)[u].value[i] == if AgreeUpTo(adds, f, u, base, i) then base[i] else '.'
  {
    var a := adds[|adds| - 1];
    var mask := Masks(before)[u].value;
    AgreeStep(before, adds, f, u, base, i);
    if a.unique == u && a.postal.Some? {
      var code := a.postal.value;
      MergeKeepsAgreement(mask, code, i);
      if AgreeUpTo(before, f, u, base, i) {
        forall j | 0 <= j <= i ensures mask[j] == base[j] {
          AgreeShorter(before, f, u, base, i, j);
        }
        SamePrefix(base, mask, code, i);
      }
    }
  }

  lemma SamePrefix(base: string, mask: string, code: string, i: nat)
    requires i < |base| == |mask| && forall j :: 0 <= j <= i ==> mask[j] == base[j]
    ensures PrefixAgrees(base, code, i) <==> forall j :: 0 <= j <= i ==> Agrees(mask, code, j)
  {
    assert forall j :: 0 <= j <= i ==> (Agrees(mask, code, j) <==> Agrees(base, code, j));
  }

  lemma AgreeShorter(adds: seq<Added>, f: nat, u: int, base: string, i: nat, j: nat)
    requires AgreeUpTo(adds, f, u, base, i) && j <= i
    ensures AgreeUpTo(adds, f, u, base, j)
  {
    forall n | f < n < |adds| && adds[n].unique == u && adds[n].postal.Some?
      ensures PrefixAgrees(base, adds[n].postal.value, j)
    {
      assert PrefixAgrees(base, adds[n].postal.value, i);
    }
  }

  lemma AgreeStep(before: seq<Added>, adds: seq<Added>, f: nat, u: int, base: string, i: nat)
    requires |adds| > f + 1 && before == adds[..|adds| - 1]
    ensures var a := adds[|adds| - 1];
      (AgreeUpTo(before, f, u, base, i) && (a.unique == u && a.postal.Some? ==> PrefixAgrees(base, a.postal.value, i)))
      <==> AgreeUpTo(adds, f, u, base, i)
  {
    assert forall n :: 0 <= n < |before| ==> before[n] == adds[n];
  }

  /** Two codes with a common start. */
  lemma TwoCodes()
    ensures Masks([Added(1, Some("123"), None), Added(1, Some("124"), None)]) == map[1 := Some("12.")]
  {
    var a, b := Added(1, Some("123"), None), Added(1, Some("124"), None);
    var adds := [a, b];
    assert adds[..1] == [a] && [a][..0] == [];
    assert Masks([a]) == AddMask(map[], a) == map[1 := Some("123")];
    assert Masks(adds) == AddMask(Masks([a]), b);
    var m := Merged(Some("123"), Some("124")).value;
    MergeKeepsAgreement("123", "124", 0);
    MergeKeepsAgreement("123", "124", 1);
    MergeKeepsAgreement("123", "124", 2);
    assert !Agrees("123", "124", 2);
    assert m == "12.";
  }
}
