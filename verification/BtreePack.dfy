/** Replacing a bucket in place, and packing as the main case of it. */
module BtreePack {
  import opened Basics
  import opened Bucket
  import opened BtreeShape

  function Replaced(s: State, loc: Loc, b: Bucket): State { s.(store := s.store[loc := b]) }

  /** A bucket with the same children may replace another if it is sound by itself. */
  lemma ReplaceKeeps(s: State, g: Shape, loose: set<Loc>, loc: Loc, b: Bucket)
    requires Inv(s, g, loose) && loc in s.store
    requires LocalOk(b, g[loc]) && b.parent == s.store[loc].parent
    requires ChildrenOk(Replaced(s, loc, b), g, loc)
    requires forall c | c in s.store :: IsChildOf(b, c) <==> IsChildOf(s.store[loc], c)
    ensures Inv(Replaced(s, loc, b), g, loose)
  {
    hide LocalOk, ChildrenOk, IsChildOf;
    var s' := Replaced(s, loc, b);
    assert s'.store.Keys == s.store.Keys;
    forall x | x in s'.store
      ensures LocalOk(s'.store[x], g[x]) && ChildrenOk(s', g, x)
    {
      if x != loc {
        OtherStays(s, s', g, loc, NULL, x);
      }
    }
    forall c | c in s'.store && c != s'.head && c !in loose
      ensures Attached(s', c)
    {
      assert Attached(s, c);
    }
  }

  lemma {:induction false} KeptMono(keys: seq<KeyNode>, m: nat, k: nat, ref: int)
    requires m <= k <= |keys|
    ensures |Kept(keys, m, ref)| <= |Kept(keys, k, ref)|
    ensures m < k && !MayDrop(keys, m, ref) ==>
              |Kept(keys, m, ref)| < |Kept(keys, k, ref)| && Kept(keys, k, ref)[|Kept(keys, m, ref)|] == keys[m]
    decreases k
  {
    if m < k {
      KeptMono(keys, m, k - 1, ref);
    }
  }

  /** The original index of kept key `i`. */
  ghost function Source(keys: seq<KeyNode>, k: nat, ref: int, i: nat): (m: nat)
    requires k <= |keys| && i < |Kept(keys, k, ref)|
    ensures m < k && !MayDrop(keys, m, ref) && Kept(keys, k, ref)[i] == keys[m] && |Kept(keys, m, ref)| == i
    decreases k
  {
    if i < |Kept(keys, k - 1, ref)| then Source(keys, k - 1, ref, i) else k - 1
  }

  /** The original index of child `i` of a packed bucket. */
  ghost function ChildSource(keys: seq<KeyNode>, ref: int, i: nat): (m: nat)
    requires i <= |Kept(keys, |keys|, ref)|
    ensures m <= |keys| && |Kept(keys, m, ref)| == i
  {
    if i == |Kept(keys, |keys|, ref)| then |keys| else Source(keys, |keys|, ref, i)
  }

  lemma SourceOrdered(keys: seq<KeyNode>, ref: int, i: nat, j: nat)
    requires i < j <= |Kept(keys, |keys|, ref)|
    ensures Source(keys, |keys|, ref, i) < ChildSource(keys, ref, j)
  {
    var a, b := Source(keys, |keys|, ref, i), ChildSource(keys, ref, j);
    if b <= a {
      KeptMono(keys, b, a, ref);
    }
  }

  lemma PackedLocal(b: Bucket, info: Info, ref: int)
    requires LocalOk(b, info)
    ensures LocalOk(PackedBucket(b, ref), info)
  {
    hide Bytes, SpaceOk, Kept;
    if !b.packed {
      var kept := Kept(b.keys, |b.keys|, ref);
      PackedSpace(b, PackedBucket(b, ref), ref);
      forall i | 0 <= i < |kept|
        ensures Above(info.lo, EntryOf(kept[i])) && Below(EntryOf(kept[i]), info.hi)
      {
        assert kept[i] == b.keys[Source(b.keys, |b.keys|, ref, i)];
      }
      forall i, j | 0 <= i < j < |kept|
        ensures Less(EntryOf(kept[i]), EntryOf(kept[j]))
      {
        SourceOrdered(b.keys, ref, i, j);
        assert kept[i] == b.keys[Source(b.keys, |b.keys|, ref, i)];
        assert kept[j] == b.keys[Source(b.keys, |b.keys|, ref, j)];
      }
    }
  }

  /** Packing keeps the children, each in a slot at least as wide as before. */
  lemma PackedSlot(b: Bucket, info: Info, ref: int, i: nat)
    requires LocalOk(b, info) && !b.packed && i <= |PackedBucket(b, ref).keys|
    ensures var m := ChildSource(b.keys, ref, i);
            var b' := PackedBucket(b, ref);
            && Child(b', i) == Child(b, m) && SlotHi(b', info, i) == SlotHi(b, info, m)
            && (SlotLo(b', info, i) == SlotLo(b, info, m) ||
                (SlotLo(b', info, i).Some? && SlotLo(b, info, m).Some?
                  && !Less(SlotLo(b, info, m).value, SlotLo(b', info, i).value)))
  {
    hide Bytes, SpaceOk, Kept;
    var m := ChildSource(b.keys, ref, i);
    var b' := PackedBucket(b, ref);
    if i == 0 {
      FirstKept(b.keys, ref, m);
    } else {
      SourceOrdered(b.keys, ref, i - 1, i);
      var p := Source(b.keys, |b.keys|, ref, i - 1);
      assert b'.keys[i-1] == b.keys[p];
      assert p < m;
      LessTransitive(EntryOf(b.keys[p]), EntryOf(b.keys[m-1]), EntryOf(b.keys[m-1]));
    }
  }

  /** The first key is never dropped. */
  lemma {:induction false} FirstKept(keys: seq<KeyNode>, ref: int, m: nat)
    requires m <= |keys| && Kept(keys, m, ref) == []
    ensures m == 0
  {
    if m > 0 {
      KeptMono(keys, 0, m, ref);
    }
  }

  lemma PackedChildren(b: Bucket, info: Info, ref: int, c: Loc)
    requires LocalOk(b, info) && c != NULL
    ensures IsChildOf(PackedBucket(b, ref), c) <==> IsChildOf(b, c)
  {
    hide Bytes, SpaceOk, Kept, LocalOk;
    if !b.packed {
      var b' := PackedBucket(b, ref);
      if IsChildOf(b', c) {
        var i :| 0 <= i <= |b'.keys| && Child(b', i) == c;
        PackedSlot(b, info, ref, i);
        assert Child(b, ChildSource(b.keys, ref, i)) == c;
      }
      if IsChildOf(b, c) {
        var m :| 0 <= m <= |b.keys| && Child(b, m) == c;
        if m < |b.keys| {
          KeptMono(b.keys, m, |b.keys|, ref);
          assert Child(b', |Kept(b.keys, m, ref)|) == c;
        } else {
          assert Child(b', |b'.keys|) == c;
        }
      }
    }
  }

  lemma PackedChildrenOk(s: State, g: Shape, loc: Loc, ref: int)
    requires loc in s.store && loc in g && LocalOk(s.store[loc], g[loc]) && ChildrenOk(s, g, loc)
    requires forall x | x in s.store :: x in g
    ensures ChildrenOk(Replaced(s, loc, PackedBucket(s.store[loc], ref)), g, loc)
  {
    hide Bytes, SpaceOk, Kept, LocalOk, Sorted, Within;
    var b := s.store[loc];
    var b' := PackedBucket(b, ref);
    var s' := Replaced(s, loc, b');
    if b.packed {
      assert s'.store == s.store;
    } else {
      forall i | 0 <= i <= |b'.keys|
        ensures ChildOk(s', g, loc, i)
      {
        PackedSlot(b, g[loc], ref, i);
        var m := ChildSource(b.keys, ref, i);
        assert ChildOk(s, g, loc, m);
        WiderSlot(g, Child(b, m), SlotLo(b, g[loc], m), SlotHi(b, g[loc], m), SlotLo(b', g[loc], i));
      }
      forall i, j | 0 <= i < j <= |b'.keys|
        ensures Child(b', i) == Child(b', j) ==> Child(b', i) == NULL
      {
        PackedSlot(b, g[loc], ref, i);
        PackedSlot(b, g[loc], ref, j);
        SourceOrdered(b.keys, ref, i, j);
      }
    }
  }

  lemma WiderSlot(g: Shape, c: Loc, lo: Option<Entry>, hi: Option<Entry>, lo': Option<Entry>)
    requires lo' == lo || (lo'.Some? && lo.Some? && !Less(lo.value, lo'.value))
    ensures c in g && Inside(g[c], lo, hi) ==> Inside(g[c], lo', hi)
  {
  }

  /** Packing a bucket keeps the tree well formed. */
  lemma PackKeeps(s: State, g: Shape, loose: set<Loc>, loc: Loc, ref: int)
    requires Inv(s, g, loose) && loc in s.store
    ensures Inv(Replaced(s, loc, PackedBucket(s.store[loc], ref)), g, loose)
  {
    hide LocalOk, IsChildOf, PackedBucket, Attached;
    var b := s.store[loc];
    PackedLocal(b, g[loc], ref);
    PackedChildrenOk(s, g, loc, ref);
    PackedRest(b, ref);
    forall c | c in s.store
      ensures IsChildOf(PackedBucket(b, ref), c) <==> IsChildOf(b, c)
    {
      PackedChildren(b, g[loc], ref, c);
    }
    ReplaceKeeps(s, g, loose, loc, PackedBucket(b, ref));
  }

  lemma PackedRest(b: Bucket, ref: int)
    ensures PackedBucket(b, ref).parent == b.parent && PackedBucket(b, ref).next == b.next
            && PackedBucket(b, ref).packed
  {
  }

  lemma PackHolds(b: Bucket, info: Info, ref: int, e: Entry)
    requires LocalOk(b, info)
    ensures Holds(PackedBucket(b, ref), e) <==> Holds(b, e)
  {
    hide Bytes, SpaceOk, Kept, LocalOk;
    if !b.packed {
      var b' := PackedBucket(b, ref);
      if Holds(b', e) {
        var i :| 0 <= i < |b'.keys| && !Unused(b'.keys[i]) && EntryOf(b'.keys[i]) == e;
        assert b'.keys[i] == b.keys[Source(b.keys, |b.keys|, ref, i)];
      }
      if Holds(b, e) {
        var m :| 0 <= m < |b.keys| && !Unused(b.keys[m]) && EntryOf(b.keys[m]) == e;
        KeptMono(b.keys, m, |b.keys|, ref);
        assert b'.keys[|Kept(b.keys, m, ref)|] == b.keys[m];
      }
    }
  }

  lemma ReplaceHas(s: State, loc: Loc, b: Bucket, e: Entry)
    requires loc in s.store && (Holds(b, e) <==> Holds(s.store[loc], e))
    ensures Has(Replaced(s, loc, b), e) <==> Has(s, e)
  {
    var s' := Replaced(s, loc, b);
    assert s'.store.Keys == s.store.Keys;
    assert forall x | x in s.store :: Holds(s'.store[x], e) <==> Holds(s.store[x], e);
  }

  /** The position being inserted at survives packing. */
  lemma PackedGap(b: Bucket, info: Info, pos: nat, e: Entry)
    requires LocalOk(b, info) && Gap(b, info, pos, e)
    ensures var pos' := if b.packed then pos else |Kept(b.keys, pos, pos)|;
            Gap(PackedBucket(b, pos), info, pos', e) && Child(PackedBucket(b, pos), pos') == Child(b, pos)
            && SlotHi(PackedBucket(b, pos), info, pos') == SlotHi(b, info, pos)
  {
    hide Bytes, SpaceOk, Kept;
    if !b.packed {
      var pos' := |Kept(b.keys, pos, pos)|;
      KeptMono(b.keys, pos, |b.keys|, pos);
      PackedSlot(b, info, pos, pos');
      var m := ChildSource(b.keys, pos, pos');
      if m > pos {
        KeptMono(b.keys, pos, m, pos);
      }
      assert m == pos;
      if SlotLo(b, info, pos).Some? && SlotLo(PackedBucket(b, pos), info, pos').Some? {
        LessTransitive(SlotLo(PackedBucket(b, pos), info, pos').value, SlotLo(b, info, pos).value, e);
      }
    }
  }
}
