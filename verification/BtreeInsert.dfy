/** Insertion into the tree, through any cascade of splits. */
module BtreeInsert {
  import opened Basics
  import opened Bucket
  import opened BtreeShape
  import opened BtreePack
  import opened BtreeSplit
  import opened BtreeLevel

  /** Binary search in one bucket. The record location counts as part of the key. */
  method Find(b: Bucket, key: Key, rec: int) returns (found: bool, pos: nat)
    requires Sorted(b.keys)
    ensures pos <= |b.keys|
    ensures found ==> pos < |b.keys| && EntryOf(b.keys[pos]) == Entry(key.ord, rec)
    ensures !found ==> forall i | 0 <= i < pos :: Less(EntryOf(b.keys[i]), Entry(key.ord, rec))
    ensures !found ==> forall i | pos <= i < |b.keys| :: Less(Entry(key.ord, rec), EntryOf(b.keys[i]))
  {
    var l, h := 0, |b.keys| - 1;
    while l <= h
      invariant 0 <= l <= h + 1 <= |b.keys|
      invariant forall i | 0 <= i < l :: Less(EntryOf(b.keys[i]), Entry(key.ord, rec))
      invariant forall i | h < i < |b.keys| :: Less(Entry(key.ord, rec), EntryOf(b.keys[i]))
      decreases h - l
    {
      var m := (l + h) / 2;
      var x := key.ord - b.keys[m].key.ord;
      if x == 0 {
        x := rec - Mask(b.keys[m].rec);
      }
      if x < 0 {
        h := m - 1;
      } else if x > 0 {
        l := m + 1;
      } else {
        return true, m;
      }
    }
    return false, l;
  }

  predicate Room(b: Bucket, key: Key) { key.size + KEY_NODE <= b.empty }

  predicate SameBut(b: Bucket, b': Bucket) {
    b'.keys == b.keys && b'.next == b.next && b'.empty == b.empty && b'.packed == b.packed
  }

  /** Buckets below a height are what they were, except for their parent. */
  ghost predicate BelowSame(s: State, g: Shape, s': State, g': Shape, h: int) {
    forall x | x in s.store && x in g && g[x].height < h ::
      x in s'.store && x in g' && g'[x] == g[x] && SameBut(s.store[x], s'.store[x])
  }

  lemma BelowSameTransitive(s: State, g: Shape, s1: State, g1: Shape, s2: State, g2: Shape, h: int)
    requires BelowSame(s, g, s1, g1, h) && BelowSame(s1, g1, s2, g2, h)
    ensures BelowSame(s, g, s2, g2, h)
  {
  }

  lemma ReplacedBelow(s: State, g: Shape, loc: Loc, b: Bucket, h: int)
    requires loc in g && h <= g[loc].height
    ensures BelowSame(s, g, Replaced(s, loc, b), g, h)
  {
  }

  lemma InsertedBelow(s: State, g: Shape, loc: Loc, pos: nat, rec: int, key: Key, l: Loc, r: Loc, h: int)
    requires loc in s.store && loc in g && pos <= |s.store[loc].keys| && h <= g[loc].height && r != loc
    ensures BelowSame(s, g, InsertedState(s, loc, pos, rec, key, l, r), g, h)
  {
    InsertFrame(s, loc, pos, rec, key, l, r);
  }

  lemma SplitBelow(s: State, g: Shape, loose: set<Loc>, loc: Loc, split: nat)
    requires Inv(s, g, loose) && loc in s.store && split < |s.store[loc].keys|
    ensures BelowSame(s, g, SplitState(s, loc, split, s.unusedFrom), SplitShape(s, g, loc, split, s.unusedFrom),
            g[loc].height)
  {
    hide SplitState, LocalOk, ChildrenOk, IsChildOf, Attached, HeadOk;
    FreshLoc(s, g, loose, loc);
    SplitFrame(s, g, loc, split, s.unusedFrom);
  }

  lemma GrownBelow(s: State, g: Shape, h: int)
    requires s.head in s.store && s.head in g && s.unusedFrom !in s.store
    ensures BelowSame(s, g, GrownState(s), GrownShape(s, g), h)
  {
  }

  /** After packing, the insertion is still to be made at the tracked position. */
  lemma PackInsertable(s: State, g: Shape, loose: set<Loc>, loc: Loc, pos: nat, e: Entry, l: Loc, r: Loc)
    requires Insertable(s, g, loose, loc, pos, e, l, r)
    ensures var b := s.store[loc];
            Insertable(Replaced(s, loc, PackedBucket(b, pos)), g, loose, loc,
                       if b.packed then pos else |Kept(b.keys, pos, pos)|, e, l, r)
  {
    hide LocalOk, ChildrenOk, IsChildOf, Attached, HeadOk, PackedBucket, Kept, Gap, SlotHi, SlotLo;
    GapPos(s.store[loc], g[loc], pos, e);
    PackKeeps(s, g, loose, loc, pos);
    PackedGap(s.store[loc], g[loc], pos, e);
    GapPos(PackedBucket(s.store[loc], pos), g[loc], if s.store[loc].packed then pos
      else |Kept(s.store[loc].keys, pos, pos)|, e);
  }

  lemma GapPos(b: Bucket, info: Info, pos: nat, e: Entry)
    requires Gap(b, info, pos, e)
    ensures pos <= |b.keys|
  {
  }

  /** In the state after a split, the half that the pending key belongs to is ready for it. */
  lemma HalfInsertable(s: State, g: Shape, loose: set<Loc>, loc: Loc, pos: nat, e: Entry, l: Loc, r: Loc,
                       split: nat, s': State, g': Shape)
    requires Insertable(s, g, loose, loc, pos, e, l, r) && split < |s.store[loc].keys|
    requires var half := if pos <= split then loc else s.unusedFrom;
             && Inv(s', g', loose) && half in s'.store && half in g'
             && s'.store[half].keys ==
                  (if pos <= split then LeftHalf(s.store[loc], split).keys else RightHalf(s.store[loc], split).keys)
             && s'.store[half].next ==
                  (if pos <= split then LeftHalf(s.store[loc], split).next else RightHalf(s.store[loc], split).next)
             && g'[half] == SplitShape(s, g, loc, split, s.unusedFrom)[half]
    requires BelowSame(s, g, s', g', g[loc].height)
    ensures Insertable(s', g', loose, if pos <= split then loc else s.unusedFrom, if pos <= split then pos
            else pos - split - 1, e, l, r)
  {
    hide LocalOk, Attached, HeadOk, SplitState, Sorted, Within, SpaceOk;
    var b := s.store[loc];
    assert LocalOk(b, g[loc]) && ChildrenOk(s, g, loc);
    HalvesGap(b, g[loc], split, pos, e);
    if l != NULL {
      assert ChildOk(s, g, loc, pos);
    }
  }

  lemma HalvesGap(b: Bucket, info: Info, split: nat, pos: nat, e: Entry)
    requires LocalOk(b, info) && split < |b.keys| && Gap(b, info, pos, e)
    ensures var k := Some(EntryOf(b.keys[split]));
            var half := if pos <= split then LeftHalf(b, split) else RightHalf(b, split);
            var info' := if pos <= split then info.(hi := k) else Info(info.height, k, info.hi);
            var pos' := if pos <= split then pos else pos - split - 1;
            && Gap(half, info', pos', e) && Child(half, pos') == Child(b, pos)
            && SlotHi(half, info', pos') == SlotHi(b, info, pos)
  {
    hide SpaceOk, LeftHalf, RightHalf;
    var pos' := if pos <= split then pos else pos - split - 1;
    HalvesSlots(b, info, split, pos');
    HalvesAt(b, split, pos');
    if pos <= split {
      GapBelow(b, info, pos, e, split);
    } else {
      GapAbove(b, info, pos, e, split);
      SameSlots(RightHalf(b, split), Info(info.height, Some(EntryOf(b.keys[split])), info.hi),
        info.(lo := Some(EntryOf(b.keys[split]))), pos');
    }
  }

  lemma GapBelow(b: Bucket, info: Info, pos: nat, e: Entry, i: nat)
    requires LocalOk(b, info) && Gap(b, info, pos, e) && pos <= i < |b.keys|
    ensures Less(e, EntryOf(b.keys[i]))
  {
    LessTransitive(e, EntryOf(b.keys[pos]), EntryOf(b.keys[i]));
  }

  lemma GapAbove(b: Bucket, info: Info, pos: nat, e: Entry, i: nat)
    requires LocalOk(b, info) && Gap(b, info, pos, e) && i < pos
    ensures Less(EntryOf(b.keys[i]), e)
  {
    LessTransitive(EntryOf(b.keys[i]), EntryOf(b.keys[pos-1]), e);
  }

  /** What an insertion at height `h` does to the tree. */
  ghost predicate Adds(s: State, g: Shape, s': State, g': Shape, loose: set<Loc>, h: int, rec: int, key: Key) {
    && Inv(s', g', loose) && BelowSame(s, g, s', g', h)
    && forall e :: Has(s', e) <==> Has(s, e) || (rec % 2 == 0 && e == Entry(key.ord, rec))
  }

  // ---- No bucket runs empty ----

  /** Every bucket but the root has a key. */
  predicate Filled(s: State) {
    forall x | x in s.store && x != s.head :: s.store[x].keys != []
  }

  /** No bucket goes, only buckets that were empty are, and an empty root stays the root. */
  ghost predicate Fuller(s: State, s': State) {
    && (forall x | x in s'.store && s'.store[x].keys == [] :: x in s.store && s.store[x].keys == [])
    && (s'.head == s.head || (s.head in s.store && s.store[s.head].keys != [])) && s.store.Keys <= s'.store.Keys
    && NewOnly(s, s')
  }

  /** A location that comes into use was not allocated before. */
  ghost predicate NewOnly(s: State, s': State) {
    s.unusedFrom <= s'.unusedFrom && forall x | x in s'.store :: x in s.store || s.unusedFrom <= x
  }

  lemma FullerFilled(s: State, s': State)
    requires Filled(s) && Fuller(s, s')
    ensures Filled(s')
  {
  }

  lemma PackFuller(s: State, loc: Loc, ref: int, s': State)
    requires loc in s.store && Fuller(Replaced(s, loc, PackedBucket(s.store[loc], ref)), s')
    ensures Fuller(s, s')
  {
    PackedEmpty(s.store[loc], ref);
    hide PackedBucket;
  }

  lemma PackedEmpty(b: Bucket, ref: int)
    ensures PackedBucket(b, ref).keys == [] <==> b.keys == []
  {
    if Kept(b.keys, |b.keys|, ref) == [] {
      FirstKept(b.keys, ref, |b.keys|);
    }
  }

  lemma InsertFuller(s: State, loc: Loc, pos: nat, rec: int, key: Key, l: Loc, r: Loc)
    requires loc in s.store && pos <= |s.store[loc].keys| && r != loc
    ensures var s' := InsertedState(s, loc, pos, rec, key, l, r);
            Fuller(s, s') && s'.head == s.head && loc in s'.store && s'.store[loc].keys != []
  {
    InsertFrame(s, loc, pos, rec, key, l, r);
    InsertedRest(s.store[loc], pos, rec, key, l, r);
    hide Inserted, InsertedState;
  }

  // ---- No key comes from nowhere ----

  lemma PackFrom(s: State, loc: Loc, ref: int)
    requires loc in s.store
    ensures KeysFrom(s, Replaced(s, loc, PackedBucket(s.store[loc], ref)), None)
  {
    hide PackedBucket;
    var s' := Replaced(s, loc, PackedBucket(s.store[loc], ref));
    forall x, f | x in s'.store && Carries(s'.store[x], f)
      ensures Carried(s, f)
    {
      if x == loc {
        PackedKeysFrom(s.store[loc], ref, f);
      }
      assert Carries(s.store[x], f);
    }
    NothingNew(s, s');
  }

  lemma PackedKeysFrom(b: Bucket, ref: int, f: Sized)
    requires Carries(PackedBucket(b, ref), f)
    ensures Carries(b, f)
  {
    hide Bytes;
    if !b.packed {
      var kept := Kept(b.keys, |b.keys|, ref);
      var i :| 0 <= i < |kept| && SizedOf(kept[i]) == f;
      assert kept[i] == b.keys[Source(b.keys, |b.keys|, ref, i)];
    }
  }

  lemma InsertFrom(s: State, loc: Loc, pos: nat, rec: int, key: Key, l: Loc, r: Loc)
    requires loc in s.store && pos <= |s.store[loc].keys| && r != loc && Child(s.store[loc], pos) == l
    ensures KeysFrom(s, InsertedState(s, loc, pos, rec, key, l, r), Some(SizedFor(rec, key)))
  {
    hide Inserted, InsertedState;
    var s' := InsertedState(s, loc, pos, rec, key, l, r);
    InsertFrame(s, loc, pos, rec, key, l, r);
    InsertedRest(s.store[loc], pos, rec, key, l, r);
    forall f | Carried(s', f)
      ensures Carried(s, f) || f == SizedFor(rec, key)
    {
      var x :| x in s'.store && Carries(s'.store[x], f);
      if x == loc {
        var i :| 0 <= i < |s'.store[loc].keys| && SizedOf(s'.store[loc].keys[i]) == f;
        InsertedAt(s.store[loc], pos, rec, key, l, r, i);
        assert i != pos ==> Carries(s.store[loc], f);
      } else {
        assert Carries(s.store[x], f);
      }
    }
  }

  lemma HalvesFrom(b: Bucket, split: nat, f: Sized)
    requires split < |b.keys|
    ensures Carries(LeftHalf(b, split), f) || Carries(RightHalf(b, split), f) ==> Carries(b, f)
  {
    hide LeftHalf, RightHalf;
    HalvesAt(b, split, 0);
    if Carries(LeftHalf(b, split), f) {
      var i :| 0 <= i < split && SizedOf(LeftHalf(b, split).keys[i]) == f;
      HalvesAt(b, split, i);
      assert SizedOf(b.keys[i]) == f;
    }
    if Carries(RightHalf(b, split), f) {
      var i :| 0 <= i < |b.keys| - split - 1 && SizedOf(RightHalf(b, split).keys[i]) == f;
      HalvesAt(b, split, i);
      assert SizedOf(b.keys[split+1+i]) == f;
    }
  }

  /** A split brings nothing new, and the key promoted was there. */
  lemma SplitFrom(s: State, g: Shape, loc: Loc, split: nat, r: Loc)
    requires loc in s.store && loc in g && split < |s.store[loc].keys| && r !in s.store
    requires !IsChildOf(s.store[loc], loc) && !IsChildOf(s.store[loc], r)
    ensures KeysFrom(s, SplitState(s, loc, split, r), None) && Carried(s, SizedOf(s.store[loc].keys[split]))
  {
    hide LeftHalf, RightHalf, SplitState, IsChildOf;
    var s' := SplitState(s, loc, split, r);
    SplitFrame(s, g, loc, split, r);
    assert Carries(s.store[loc], SizedOf(s.store[loc].keys[split]));
    forall x, f | x in s'.store && Carries(s'.store[x], f)
      ensures Carried(s, f)
    {
      HalvesFrom(s.store[loc], split, f);
      assert Carries(s.store[if x == r then loc else x], f);
    }
    NothingNew(s, s');
  }

  lemma LiftFrom(s: State, loc: Loc)
    requires loc in s.store && s.head in s.store && s.unusedFrom !in s.store
    ensures KeysFrom(s, Lifted(s, loc), None)
  {
    var s' := Lifted(s, loc);
    forall x, f | x in s'.store && Carries(s'.store[x], f)
      ensures Carried(s, f)
    {
      assert Carries(s.store[x], f);
    }
    NothingNew(s, s');
  }

  /** All steps of a split together. */
  lemma SplitAllFrom(s: State, g: Shape, loose: set<Loc>, loc: Loc, split: nat, s2: State, s3: State, s': State,
      e: Sized)
    requires Inv(s, g, loose) && loc in s.store && (forall d | d in loose :: g[d].height < g[loc].height)
    requires split < |s.store[loc].keys| && s.head in s.store
    requires var s0 := Lifted(s, loc);
             KeysFrom(SplitState(s0, loc, split, s0.unusedFrom), s2, Some(SizedOf(s.store[loc].keys[split])))
    requires KeysFrom(s2, s3, None) && KeysFrom(s3, s', Some(e))
    ensures KeysFrom(s, s', Some(e))
  {
    hide SplitState, Inv, IsChildOf, KeysFrom, Carried;
    LiftFresh(s, g, loose, loc);
    ParentlessIsHead(s, g, loose, loc);
    var s0 := Lifted(s, loc);
    var s1 := SplitState(s0, loc, split, s0.unusedFrom);
    var k := Some(SizedOf(s.store[loc].keys[split]));
    LiftFrom(s, loc);
    SplitFrom(s0, LiftedShape(s, g, loc), loc, split, s0.unusedFrom);
    KeysFromTransitive(s, s0, s1, None, None);
    KeysFromTransitive(s, s1, s2, None, k);
    CarriedThrough(s, s0, k.value);
    KeysFromTransitive(s, s2, s3, k, None);
    KeysFromTransitive(s, s3, s', k, Some(e));
  }

  lemma CarriedThrough(s: State, s0: State, f: Sized)
    requires KeysFrom(s, s0, None) && Carried(s0, f)
    ensures Carried(s, f)
  {
    hide Carried;
  }

  /** The steps of a split: both halves have keys, and a new root gets one. */
  lemma SplitFuller(s: State, g: Shape, loose: set<Loc>, loc: Loc, split: nat, p: Loc, s2: State, s': State)
    requires Inv(s, g, loose) && loc in s.store && (forall d | d in loose :: g[d].height < g[loc].height)
    requires 1 <= split <= |s.store[loc].keys| - 2 && s.head in s.store
    requires var s0 := Lifted(s, loc);
             var s1 := SplitState(s0, loc, split, s0.unusedFrom);
             && Fuller(s1, s2) && p in s2.store && s2.store[p].keys != []
             && (s.store[loc].parent == NULL ==> p == s0.head)
    requires Fuller(s2, s') && s'.head == s2.head
    ensures Fuller(s, s') && loc in s'.store && s'.store[loc].keys != []
  {
    hide LeftHalf, RightHalf, SplitState, Inv, IsChildOf;
    ParentlessIsHead(s, g, loose, loc);
    LiftFresh(s, g, loose, loc);
    var s0 := Lifted(s, loc);
    SplitFrame(s0, LiftedShape(s, g, loc), loc, split, s0.unusedFrom);
    HalvesAt(s0.store[loc], split, 0);
  }

  lemma LiftFresh(s: State, g: Shape, loose: set<Loc>, loc: Loc)
    requires Inv(s, g, loose) && loc in s.store && (forall d | d in loose :: g[d].height < g[loc].height)
    ensures s.head in s.store && s.head in g
    ensures var s0 := Lifted(s, loc);
            && loc in s0.store && s0.unusedFrom !in s0.store && s0.unusedFrom != loc
            && s0.store[loc].keys == s.store[loc].keys
            && !IsChildOf(s0.store[loc], loc) && !IsChildOf(s0.store[loc], s0.unusedFrom)
            && loc in LiftedShape(s, g, loc)
  {
    hide LocalOk, ChildrenOk, Attached, Has;
    ParentlessIsHead(s, g, loose, loc);
    if s.store[loc].parent == NULL {
      GrowKeeps(s, g, loose);
      FreshLoc(GrownState(s), GrownShape(s, g), loose, loc);
    } else {
      FreshLoc(s, g, loose, loc);
    }
  }

  /**
   Inserts a key into a bucket: in place if there is room, after packing if that makes
   room, and by splitting otherwise.
   */
  method InsertHere(s: State, loc: Loc, keypos: nat, rec: int, key: Key, l: Loc, r: Loc,
                    ghost g: Shape, ghost loose: set<Loc>, ghost but: set<Loc>, ghost fuel: nat)
    returns (s': State, ghost g': Shape)
    requires Insertable(s, g, loose, loc, keypos, Entry(key.ord, Mask(rec)), l, r) && 1 <= key.size <= KEY_MAX
    requires Room(s.store[loc], key) || g[s.head].height <= g[loc].height + fuel
    ensures Adds(s, g, s', g', loose - {r}, g[loc].height, rec, key)
    ensures Fuller(s, s') && loc in s'.store && s'.store[loc].keys != []
    ensures Room(s.store[loc], key) ==> s'.head == s.head
    ensures KeysFrom(s, s', Some(SizedFor(rec, key)))
    ensures Ready(s, g, but, loc, r) ==> Level(s', g', but)
    decreases fuel, if Room(s.store[loc], key) then 0 else 2
  {
    hide Inv, Gap, Inside, InsertedState, PackedBucket, Has, BelowSame, Kept, SpaceOk, Fuller, KeysFrom, Ready, Level;
    LocalAt(s, g, loose, loc);
    var s1, pos := s, keypos;
    PackReady(s, g, but, loc, r, keypos);
    if key.size + KEY_NODE > s.store[loc].empty {
      var packed;
      packed, pos := Pack(s.store[loc], keypos);
      s1 := Replaced(s, loc, packed);
      PackStep(s, g, loose, loc, keypos, rec, key, l, r, packed, pos);
      if key.size + KEY_NODE > packed.empty {
        s', g' := Split(s1, loc, pos, rec, key, l, r, g, loose, but, fuel);
        AddsAfterPack(s, g, s1, s', g', loose - {r}, g[loc].height, rec, key);
        PackFuller(s, loc, keypos, s');
        PackFrom(s, loc, keypos);
        KeysFromTransitive(s, s1, s', None, Some(SizedFor(rec, key)));
        return;
      }
    } else {
      NoStep(s, g);
    }
    GapPos(s1.store[loc], g[loc], pos, Entry(key.ord, Mask(rec)));
    assert Child(s1.store[loc], pos) == l;
    s', g' := InsertedState(s1, loc, pos, rec, key, l, r), g;
    InsertStep(s1, g, loose, loc, pos, rec, key, l, r);
    if Ready(s1, g, but, loc, r) {
      InsertLevel(s1, g, but, loc, pos, rec, key, l, r);
    }
    InsertFuller(s1, loc, pos, rec, key, l, r);
    InsertFrom(s1, loc, pos, rec, key, l, r);
    if s1 != s {
      PackFuller(s, loc, keypos, s');
      PackFrom(s, loc, keypos);
      KeysFromTransitive(s, s1, s', None, Some(SizedFor(rec, key)));
    }
    AddsAfterPack(s, g, s1, s', g', loose - {r}, g[loc].height, rec, key);
  }

  lemma PackReady(s: State, g: Shape, but: set<Loc>, loc: Loc, r: Loc, ref: int)
    requires loc in s.store
    ensures Ready(s, g, but, loc, r) ==> Ready(Replaced(s, loc, PackedBucket(s.store[loc], ref)), g, but, loc, r)
  {
    PackedEmpty(s.store[loc], ref);
    hide Level, PackedBucket;
    if Ready(s, g, but, loc, r) {
      PackLevel(s, g, but + {loc}, loc, ref);
    }
  }

  lemma LocalAt(s: State, g: Shape, loose: set<Loc>, loc: Loc)
    requires Inv(s, g, loose) && loc in s.store
    ensures loc in g && LocalOk(s.store[loc], g[loc]) && SpaceOk(s.store[loc]) && s.head in s.store && s.head in g
  {
  }

  /** `s1` is `s` with a bucket packed: the same entries, the same shape. */
  ghost predicate Repacked(s: State, g: Shape, s1: State, h: int) {
    BelowSame(s, g, s1, g, h) && forall e :: Has(s1, e) <==> Has(s, e)
  }

  lemma NoStep(s: State, g: Shape)
    ensures forall h: int :: Repacked(s, g, s, h)
  {
  }

  lemma PackStep(s: State, g: Shape, loose: set<Loc>, loc: Loc, pos: nat, rec: int, key: Key, l: Loc, r: Loc,
                 packed: Bucket, pos': int)
    requires Insertable(s, g, loose, loc, pos, Entry(key.ord, Mask(rec)), l, r)
    requires packed == PackedBucket(s.store[loc], pos)
    requires pos' == if s.store[loc].packed
             || !(0 <= pos <= |s.store[loc].keys|) then pos else |Kept(s.store[loc].keys, pos, pos)|
    ensures pos' >= 0 && Insertable(Replaced(s, loc, packed), g, loose, loc, pos', Entry(key.ord, Mask(rec)), l, r)
    ensures Repacked(s, g, Replaced(s, loc, packed), g[loc].height) && packed.packed
  {
    hide Gap, Inside, PackedBucket, Has, Kept, LocalOk, ChildrenOk, Attached, IsChildOf, HeadOk, BelowSame;
    GapPos(s.store[loc], g[loc], pos, Entry(key.ord, Mask(rec)));
    PackInsertable(s, g, loose, loc, pos, Entry(key.ord, Mask(rec)), l, r);
    PackedRest(s.store[loc], pos);
    ReplacedBelow(s, g, loc, packed, g[loc].height);
    forall e
      ensures Has(Replaced(s, loc, packed), e) <==> Has(s, e)
    {
      PackHolds(s.store[loc], g[loc], pos, e);
      ReplaceHas(s, loc, packed, e);
    }
  }

  lemma AddsAfterPack(s: State, g: Shape, s1: State, s': State, g': Shape, loose: set<Loc>, h: int, rec: int, key: Key)
    requires Repacked(s, g, s1, h) && Adds(s1, g, s', g', loose, h, rec, key)
    ensures Adds(s, g, s', g', loose, h, rec, key)
  {
    hide Inv, Has;
    BelowSameTransitive(s, g, s1, g, s', g', h);
  }

  lemma InsertStep(s: State, g: Shape, loose: set<Loc>, loc: Loc, pos: nat, rec: int, key: Key, l: Loc, r: Loc)
    requires Insertable(s, g, loose, loc, pos, Entry(key.ord, Mask(rec)), l, r) && 1 <= key.size <= KEY_MAX
    requires key.size + KEY_NODE <= s.store[loc].empty
    ensures Adds(s, g, InsertedState(s, loc, pos, rec, key, l, r), g, loose - {r}, g[loc].height, rec, key) && r != loc
  {
    hide Gap, Inside, Has, LocalOk, ChildrenOk, Attached, IsChildOf, HeadOk, BelowSame, InsertedState;
    GapPos(s.store[loc], g[loc], pos, Entry(key.ord, Mask(rec)));
    InsertKeeps(s, g, loose, loc, pos, rec, key, l, r);
    InsertedBelow(s, g, loc, pos, rec, key, l, r, g[loc].height);
    forall e
      ensures Has(InsertedState(s, loc, pos, rec, key, l, r), e) <==>
                Has(s, e) || (rec % 2 == 0 && e == Entry(key.ord, rec))
    {
      InsertHas(s, loc, pos, rec, key, l, r, e);
    }
  }

  // ---- Splitting ----

  lemma SplitReady(s: State, g: Shape, loose: set<Loc>, loc: Loc, pos: nat, e: Entry, l: Loc, r: Loc, key: Key)
    requires Insertable(s, g, loose, loc, pos, e, l, r) && 1 <= key.size <= KEY_MAX
    requires s.store[loc].packed && !Room(s.store[loc], key)
    ensures var keys := s.store[loc].keys;
            && KeySizes(keys) && pos <= |keys| && |keys| > 2 && Bytes(keys) <= BODY < Bytes(keys) + key.size + KEY_NODE
  {
    hide Bytes, ChildrenOk, Attached, IsChildOf, HeadOk, Sorted, Within;
    assert LocalOk(s.store[loc], g[loc]);
    BytesBounds(s.store[loc].keys);
  }

  /** The state in which the bucket at `loc` has a parent: a new root is put above an old one. */
  function Lifted(s: State, loc: Loc): State
    requires loc in s.store && s.head in s.store
  {
    if s.store[loc].parent == NULL then GrownState(s) else s
  }

  ghost function LiftedShape(s: State, g: Shape, loc: Loc): Shape
    requires loc in s.store && s.head in g
  {
    if s.store[loc].parent == NULL then GrownShape(s, g) else g
  }

  /** A bucket without a parent is the root. */
  lemma ParentlessIsHead(s: State, g: Shape, loose: set<Loc>, loc: Loc)
    requires Inv(s, g, loose) && loc in s.store && (forall d | d in loose :: g[d].height < g[loc].height)
    ensures s.store[loc].parent == NULL <==> loc == s.head
    ensures s.unusedFrom !in s.store && s.head in s.store && s.head in g
  {
    hide LocalOk, ChildrenOk, IsChildOf;
    if loc != s.head {
      assert Attached(s, loc);
    }
  }

  lemma LiftStep(s: State, g: Shape, loose: set<Loc>, loc: Loc, pos: nat, e: Entry, l: Loc, r: Loc)
    requires Insertable(s, g, loose, loc, pos, e, l, r)
    ensures s.head in s.store && s.head in g
    ensures var s0 := Lifted(s, loc);
            var g0 := LiftedShape(s, g, loc);
            && loc in s0.store && loc in g && loc in g0 && s0.head in g0
            && Insertable(s0, g0, loose, loc, pos, e, l, r) && loc != s0.head && g0[loc] == g[loc]
            && SameBut(s.store[loc], s0.store[loc])
            && (forall h: int :: BelowSame(s, g, s0, g0, h)) && (forall e' :: Has(s0, e') <==> Has(s, e'))
            && (s.store[loc].parent == NULL ==>
                  && s0.store[loc].parent == s0.head && s0.store[s0.head] == Bucket(NULL, loc, [], BODY, true))
  {
    hide LocalOk, ChildrenOk, Attached, IsChildOf, Has, HeadOk;
    ParentlessIsHead(s, g, loose, loc);
    if s.store[loc].parent == NULL {
      GrowKeeps(s, g, loose);
      forall h: int
        ensures BelowSame(s, g, GrownState(s), GrownShape(s, g), h)
      {
        GrownBelow(s, g, h);
      }
      forall e'
        ensures Has(GrownState(s), e') <==> Has(s, e')
      {
        GrowHas(s, e');
      }
      LiftGap(s.store[loc], GrownState(s).store[loc], g[loc], pos, e);
    }
  }

  lemma LiftGap(b: Bucket, b': Bucket, info: Info, pos: nat, e: Entry)
    requires Gap(b, info, pos, e) && b'.keys == b.keys && b'.next == b.next
    ensures Gap(b', info, pos, e) && Child(b', pos) == Child(b, pos) && SlotHi(b', info, pos) == SlotHi(b, info, pos)
  {
  }

  /** The key between the halves can go into the parent, right where the bucket hangs. */
  lemma Promotable(s: State, g: Shape, loose: set<Loc>, loc: Loc, split: nat) returns (j: nat)
    requires Inv(s, g, loose) && loc in s.store && loc != s.head && split < |s.store[loc].keys|
    requires forall d | d in loose :: g[d].height < g[loc].height
    ensures var s1 := SplitState(s, loc, split, s.unusedFrom);
            var g1 := SplitShape(s, g, loc, split, s.unusedFrom);
            var p := s.store[loc].parent;
            && p in s1.store && p in g1 && p in g && s1.head in g1
            && Insertable(s1, g1, loose + {s.unusedFrom}, p, j, EntryOf(s.store[loc].keys[split]), loc, s.unusedFrom)
            && loc in s1.store && s1.store[loc].parent == p && g1[loc].height < g1[p].height && g1[p] == g[p]
            && Sorted(s1.store[p].keys) && SameBut(s.store[p], s1.store[p])
  {
    hide LeftHalf, RightHalf, SplitState, SpaceOk;
    var b := s.store[loc];
    var e := EntryOf(b.keys[split]);
    var p := s.store[loc].parent;
    var s1, g1, rLoc := SplitState(s, loc, split, s.unusedFrom), SplitShape(s, g, loc, split, s.unusedFrom),
      s.unusedFrom;
    FreshLoc(s, g, loose, loc);
    SplitKeeps(s, g, loose, loc, split, s.unusedFrom);
    SplitFrame(s, g, loc, split, s.unusedFrom);
    LeftHalfParent(b, split);
    assert Attached(s, loc);
    j :| 0 <= j <= |s.store[p].keys| && Child(s.store[p], j) == loc;
    assert ChildrenOk(s, g, p) && ChildOk(s, g, p, j);
    assert LocalOk(b, g[loc]) && LocalOk(s.store[p], g[p]);
    assert p != loc;
    PromoteGap(s.store[p], g[p], j, g[loc], e);
    LiftGap(s.store[p], s1.store[p], g[p], j, e);
    RightInside(g[loc], e, SlotLo(s.store[p], g[p], j), SlotHi(s.store[p], g[p], j));
  }

  lemma PromoteGap(b: Bucket, info: Info, j: nat, inner: Info, e: Entry)
    requires LocalOk(b, info) && j <= |b.keys| && Inside(inner, SlotLo(b, info, j), SlotHi(b, info, j))
    requires Above(inner.lo, e) && Below(e, inner.hi)
    ensures Gap(b, info, j, e)
  {
    hide SpaceOk;
    if j > 0 {
      LessTransitive(EntryOf(b.keys[j-1]), inner.lo.value, e);
      if info.lo.Some? {
        LessTransitive(info.lo.value, EntryOf(b.keys[j-1]), e);
      }
    } else if info.lo.Some? {
      LessTransitive(info.lo.value, inner.lo.value, e);
    }
    if j < |b.keys| {
      LessTransitive(e, inner.hi.value, EntryOf(b.keys[j]));
      if info.hi.Some? {
        LessTransitive(e, EntryOf(b.keys[j]), info.hi.value);
      }
    } else if info.hi.Some? {
      LessTransitive(e, inner.hi.value, info.hi.value);
    }
  }

  lemma RightInside(inner: Info, e: Entry, lo: Option<Entry>, hi: Option<Entry>)
    requires Inside(inner, lo, hi)
    ensures Inside(Info(inner.height, Some(e), inner.hi), Some(e), hi)
  {
    LessTransitive(e, e, e);
  }

  /** Binary search in the parent finds that place. */
  lemma FindsGap(b: Bucket, info: Info, j: nat, k: KeyNode, found: bool, pos: nat)
    requires LocalOk(b, info) && Gap(b, info, j, EntryOf(k)) && pos <= |b.keys|
    requires found ==> pos < |b.keys| && EntryOf(b.keys[pos]) == Entry(k.key.ord, k.rec)
    requires !found ==> forall i | 0 <= i < pos :: Less(EntryOf(b.keys[i]), Entry(k.key.ord, k.rec))
    requires !found ==> forall i | pos <= i < |b.keys| :: Less(Entry(k.key.ord, k.rec), EntryOf(b.keys[i]))
    ensures !found && pos == j
  {
    hide SpaceOk;
    var e := EntryOf(k);
    forall i | 0 <= i < |b.keys|
      ensures i < j ==> Less(EntryOf(b.keys[i]), e) && Less(EntryOf(b.keys[i]), Entry(k.key.ord, k.rec))
      ensures i >= j ==> Less(e, EntryOf(b.keys[i])) && Less(Entry(k.key.ord, k.rec), EntryOf(b.keys[i]))
    {
      if i < j {
        GapAbove(b, info, j, e, i);
      } else {
        GapBelow(b, info, j, e, i);
        MaskedLess(k, b.keys[i]);
      }
    }
    if pos < j {
      LessTransitive(EntryOf(b.keys[pos]), Entry(k.key.ord, k.rec), EntryOf(b.keys[pos]));
    } else if found || j < pos {
      LessTransitive(EntryOf(b.keys[j]), Entry(k.key.ord, k.rec), EntryOf(b.keys[j]));
    }
  }

  /** Masked locations are even, so the unused bit cannot change an order between different ones. */
  lemma MaskedLess(k: KeyNode, x: KeyNode)
    requires Less(EntryOf(k), EntryOf(x))
    ensures Less(Entry(k.key.ord, k.rec), EntryOf(x))
  {
  }

  /** After the promotion: both halves are as they were split off, and the entries are complete again. */
  lemma AfterPromotion(s: State, g: Shape, loose: set<Loc>, loc: Loc, pos: nat, e: Entry, l: Loc, r: Loc,
                       split: nat, s2: State, g2: Shape, h: int)
    requires Insertable(s, g, loose, loc, pos, e, l, r) && loc != s.head && split < |s.store[loc].keys|
    requires Adds(SplitState(s, loc, split, s.unusedFrom), SplitShape(s, g, loc, split, s.unusedFrom), s2, g2, loose, h,
                  s.store[loc].keys[split].rec, s.store[loc].keys[split].key)
    requires h > g[loc].height
    ensures Insertable(s2, g2, loose, if pos <= split then loc else s.unusedFrom, if pos <= split then pos
            else pos - split - 1, e, l, r)
    ensures loc in s2.store && SameBut(LeftHalf(s.store[loc], split), s2.store[loc])
    ensures s.unusedFrom in s2.store && SameBut(RightHalf(s.store[loc], split), s2.store[s.unusedFrom])
    ensures loc in g2 && s.unusedFrom in g2 && g2[loc].height == g[loc].height == g2[s.unusedFrom].height
    ensures BelowSame(s, g, s2, g2, g[loc].height)
    ensures forall e' :: Has(s2, e') <==> Has(s, e')
  {
    hide LocalOk, ChildrenOk, Attached, IsChildOf, HeadOk, Has, SplitState, LeftHalf, RightHalf, Gap, Inside, SlotHi;
    var s1, g1 := SplitState(s, loc, split, s.unusedFrom), SplitShape(s, g, loc, split, s.unusedFrom);
    FreshLoc(s, g, loose, loc);
    SplitFrame(s, g, loc, split, s.unusedFrom);
    SplitBelow(s, g, loose, loc, split);
    BelowSmaller(s1, g1, s2, g2, h, g[loc].height);
    BelowSameTransitive(s, g, s1, g1, s2, g2, g[loc].height);
    HalfInsertable(s, g, loose, loc, pos, e, l, r, split, s2, g2);
    var k := s.store[loc].keys[split];
    forall e'
      ensures Has(s2, e') <==> Has(s, e')
    {
      SplitHas(s, g, loose, loc, split, s.unusedFrom, e');
      assert Has(s2, e') <==> Has(s1, e') || (k.rec % 2 == 0 && e' == Entry(k.key.ord, k.rec));
    }
  }

  lemma BelowSmaller(s: State, g: Shape, s': State, g': Shape, h: int, h': int)
    requires BelowSame(s, g, s', g', h) && h' <= h
    ensures BelowSame(s, g, s', g', h')
  {
  }

  /** Packing the left half leaves an insertion into the right half as it was. */
  lemma PackLeft(s: State, g: Shape, loose: set<Loc>, left: Loc, ref: int, loc: Loc, pos: nat, e: Entry, l: Loc, r: Loc)
    requires Insertable(s, g, loose, loc, pos, e, l, r) && left in s.store && left in g && left != loc
    ensures Insertable(Replaced(s, left, PackedBucket(s.store[left], ref)), g, loose, loc, pos, e, l, r)
    ensures Repacked(s, g, Replaced(s, left, PackedBucket(s.store[left], ref)), g[left].height)
  {
    hide Gap, Inside, PackedBucket, Has, LocalOk, ChildrenOk, Attached, IsChildOf, HeadOk, BelowSame, SlotHi;
    var b := PackedBucket(s.store[left], ref);
    GapPos(s.store[loc], g[loc], pos, e);
    PackKeeps(s, g, loose, left, ref);
    ReplacedBelow(s, g, left, b, g[left].height);
    forall e'
      ensures Has(Replaced(s, left, b), e') <==> Has(s, e')
    {
      PackHolds(s.store[left], g[left], ref, e');
      ReplaceHas(s, left, b, e');
    }
  }

  lemma LeftRoom(b: Bucket, split: nat, ref: int, left: Bucket, key: Key)
    requires SpaceOk(b) && split < |b.keys| && SameBut(LeftHalf(b, split), left)
    requires Bytes(b.keys[..split]) + key.size + KEY_NODE <= BODY
    ensures Room(PackedBucket(left, ref), key)
  {
    hide Bytes;
    KeptOk(left.keys, |left.keys|, ref);
    assert left.keys[..|left.keys|] == b.keys[..split];
  }

  lemma RightRoom(b: Bucket, split: nat, right: Bucket, key: Key)
    requires split < |b.keys| && SameBut(RightHalf(b, split), right)
    requires Bytes(b.keys[split+1..]) + key.size + KEY_NODE <= BODY
    ensures Room(right, key)
  {
  }

  lemma AddsWhole(s: State, g: Shape, s0: State, g0: Shape, s2: State, g2: Shape, s3: State, s': State, g': Shape,
                  loose: set<Loc>, h: int, rec: int, key: Key)
    requires BelowSame(s, g, s0, g0, h) && BelowSame(s0, g0, s2, g2, h) && Repacked(s2, g2, s3, h)
    requires Adds(s3, g2, s', g', loose, h, rec, key)
    requires (forall e :: Has(s0, e) <==> Has(s, e)) && (forall e :: Has(s2, e) <==> Has(s0, e))
    ensures Adds(s, g, s', g', loose, h, rec, key)
  {
    hide Has, Inv, BelowSame;
    BelowSameTransitive(s, g, s0, g0, s2, g2, h);
    BelowSameTransitive(s, g, s2, g2, s3, g2, h);
    BelowSameTransitive(s, g, s3, g2, s', g', h);
  }

  /**
   Splits a full packed bucket that is to receive a key: the right half goes to a new
   bucket, the key between the halves to the parent (a new root, if there was none), and
   the pending key into its half, which has room for it.
   */
  method Split(s: State, loc: Loc, keypos: nat, rec: int, key: Key, l: Loc, r: Loc,
               ghost g: Shape, ghost loose: set<Loc>, ghost but: set<Loc>, ghost fuel: nat)
    returns (s': State, ghost g': Shape)
    requires Insertable(s, g, loose, loc, keypos, Entry(key.ord, Mask(rec)), l, r) && 1 <= key.size <= KEY_MAX
    requires s.store[loc].packed && !Room(s.store[loc], key) && g[s.head].height <= g[loc].height + fuel
    ensures Adds(s, g, s', g', loose - {r}, g[loc].height, rec, key)
    ensures Fuller(s, s') && loc in s'.store && s'.store[loc].keys != []
    ensures KeysFrom(s, s', Some(SizedFor(rec, key)))
    ensures Ready(s, g, but, loc, r) ==> Level(s', g', but)
    decreases fuel, 1
  {
    hide Inv, Gap, Inside, InsertedState, PackedBucket, Has, BelowSame, Kept, SpaceOk, LocalOk, Fuller, KeysFrom,
         LeftHalf, RightHalf,
         SplitState, Bytes, Halfway, SlotHi, Adds, GrownState, Sorted, Ready, Level, Repacked, Clamp;
    var b := s.store[loc];
    ghost var e := Entry(key.ord, Mask(rec));
    SplitReady(s, g, loose, loc, keypos, e, l, r, key);
    var split := SplitPos(b.keys, keypos);
    SplitHasRoom(b.keys, keypos, key.size, split);
    SplitWide(b.keys, keypos, key.size, split);
    var k := b.keys[split];
    // a root gets a new root above it
    LiftStep(s, g, loose, loc, keypos, e, l, r);
    var s0 := Lifted(s, loc);
    ghost var g0 := LiftedShape(s, g, loc);
    // the right half leaves for a bucket of its own
    var rLoc := s0.unusedFrom;
    var s1 := SplitState(s0, loc, split, s0.unusedFrom);
    ghost var g1, loose1 := SplitShape(s0, g0, loc, split, s0.unusedFrom), loose + {rLoc};
    ghost var j := Promotable(s0, g0, loose, loc, split);
    var p := s1.store[loc].parent;
    // the key between the halves is promoted
    var pos: nat := 0;
    if b.parent != NULL {
      var found;
      found, pos := Find(s1.store[p], k.key, k.rec);
      LocalAt(s1, g1, loose1, p);
      FindsGap(s1.store[p], g1[p], j, k, found, pos);
      PromoteFuel(s, g, loose, loc, split, fuel);
    } else {
      GapPos(s1.store[p], g1[p], j, EntryOf(k));
      RootHasRoom(s1.store[p], k.key);
    }
    var s2;
    ghost var g2;
    ghost var half := if keypos <= split then loc else rLoc;
    SplitReadies(s, g, but, loose, loc, keypos, e, l, r, split);
    s2, g2 :=
      InsertHere(s1, p, pos, k.rec, k.key, loc, rLoc, g1, loose1, but + {half}, if fuel > 0 then fuel - 1 else 0);
    FreshLoc(s0, g0, loose, loc);
    assert loose1 - {rLoc} == loose;
    AfterPromotion(s0, g0, loose, loc, keypos, e, l, r, split, s2, g2, g1[p].height);
    // what is left is packed; the pending key goes where it belongs
    LocalAt(s2, g2, loose, loc);
    LocalAt(s0, g0, loose, loc);
    var left, newpos := Pack(s2.store[loc], keypos);
    var s3 := Replaced(s2, loc, left);
    HalfReady(s, g, but, loose, loc, r, s0, g0, split, s2, g2, rLoc, half, keypos);
    if keypos <= split {
      PackStep(s2, g2, loose, loc, keypos, rec, key, l, r, left, newpos);
      LeftRoom(s0.store[loc], split, keypos, s2.store[loc], key);
      s', g' := InsertHere(s3, loc, newpos, rec, key, l, r, g2, loose, but, fuel);
    } else {
      PackLeft(s2, g2, loose, loc, keypos, rLoc, keypos - split - 1, e, l, r);
      RightRoom(s0.store[loc], split, s2.store[rLoc], key);
      s', g' := InsertHere(s3, rLoc, keypos - split - 1, rec, key, l, r, g2, loose, but, fuel);
    }
    AddsWhole(s, g, s0, g0, s2, g2, s3, s', g', loose - {r}, g[loc].height, rec, key);
    PackFuller(s2, loc, keypos, s');
    SplitFuller(s, g, loose, loc, split, p, s2, s');
    PackFrom(s2, loc, keypos);
    SplitAllFrom(s, g, loose, loc, split, s2, s3, s', SizedFor(rec, key));
  }

  /** The halves apart, the key between them may go up, as far as levels go. */
  lemma SplitReadies(s: State, g: Shape, but: set<Loc>, loose: set<Loc>, loc: Loc, keypos: nat, e: Entry, l: Loc,
      r: Loc,
                     split: nat)
    requires Insertable(s, g, loose, loc, keypos, e, l, r) && s.head in s.store
    requires 1 <= split <= |s.store[loc].keys| - 2
    requires if keypos <= split then |s.store[loc].keys| - split - 1 >= 2 else split >= 2
    ensures s.head in g && loc in Lifted(s, loc).store && loc in LiftedShape(s, g, loc)
    ensures var s0, g0 := Lifted(s, loc), LiftedShape(s, g, loc);
            && split < |s0.store[loc].keys|
            && var rLoc := s0.unusedFrom;
               var half := if keypos <= split then loc else rLoc;
               Ready(s, g, but, loc, r) ==>
                 Ready(SplitState(s0, loc, split, rLoc), SplitShape(s0, g0, loc, split, rLoc), but + {half},
                   s0.store[loc].parent, rLoc)
  {
    hide Inv, Gap, Inside, LeftHalf, RightHalf, SplitState, SplitShape, Lifted, LiftedShape, Level, IsChildOf;
    LiftStep(s, g, loose, loc, keypos, e, l, r);
    LiftFresh(s, g, loose, loc);
    if Ready(s, g, but, loc, r) {
      SplitIsReady(s, g, but, loose, loc, r, split, if keypos <= split then loc else Lifted(s, loc).unusedFrom);
    }
  }

  lemma SplitIsReady(s: State, g: Shape, but: set<Loc>, loose: set<Loc>, loc: Loc, r: Loc, split: nat, half: Loc)
    requires Inv(s, g, loose) && Ready(s, g, but, loc, r) && (forall d | d in loose :: g[d].height < g[loc].height)
    requires s.head in s.store && s.head in g && 1 <= split <= |s.store[loc].keys| - 2
    requires var s0, g0 := Lifted(s, loc), LiftedShape(s, g, loc);
             && loc in s0.store && loc in g0 && s0.unusedFrom !in s0.store && s0.unusedFrom != loc && loc != s0.head
             && Inv(s0, g0, loose) && (forall d | d in loose :: g0[d].height < g0[loc].height)
             && s0.store[loc].keys == s.store[loc].keys
             && !IsChildOf(s0.store[loc], loc) && !IsChildOf(s0.store[loc], s0.unusedFrom)
             && (half == loc || half == s0.unusedFrom)
    requires if half == loc then |s.store[loc].keys| - split - 1 >= 2 else split >= 2
    ensures var s0, g0 := Lifted(s, loc), LiftedShape(s, g, loc);
            Ready(SplitState(s0, loc, split, s0.unusedFrom), SplitShape(s0, g0, loc, split, s0.unusedFrom),
              but + {half},
              s0.store[loc].parent, s0.unusedFrom)
  {
    hide Inv, LeftHalf, RightHalf, SplitState, SplitShape, Lifted, LiftedShape, Level, IsChildOf;
    LiftLevel(s, g, but, loose, loc);
    var s0, g0 := Lifted(s, loc), LiftedShape(s, g, loc);
    var rLoc, p := s0.unusedFrom, s0.store[loc].parent;
    var before := but + {loc} + {p};
    InvDomain(s0, g0, loose, loc);
    SplitLevel(s0, g0, before, loc, split, rLoc);
    SplitFrame(s0, g0, loc, split, rLoc);
    HalvesAt(s0.store[loc], split, 0);
    KidOfParent(s0, g0, before, loc);
    var s1, g1 := SplitState(s0, loc, split, rLoc), SplitShape(s0, g0, loc, split, rLoc);
    OtherHalfWide(s1, g1, but, loc, rLoc, p, half);
    assert KidLevel(g1, g1[p].height, rLoc);
    PromoteEnough(s, g, but, loc, r, s1, g1, p, half);
  }

  lemma InvDomain(s: State, g: Shape, loose: set<Loc>, loc: Loc)
    requires Inv(s, g, loose) && loc in s.store && loc != s.head
             && (forall d | d in loose :: g[d].height < g[loc].height)
    ensures g.Keys == s.store.Keys && loc in g && s.head in s.store && s.head in g
    ensures s.store[loc].parent in s.store && IsChildOf(s.store[s.store[loc].parent], loc)
    ensures s.store[loc].parent != loc && loc != NULL && s.unusedFrom != NULL
  {
    hide LocalOk, ChildrenOk;
    assert Attached(s, loc);
    NotOwnChild(s, g, loose, loc, s.unusedFrom);
  }

  lemma LiftLevel(s: State, g: Shape, but: set<Loc>, loose: set<Loc>, loc: Loc)
    requires Inv(s, g, loose) && loc in s.store && (forall d | d in loose :: g[d].height < g[loc].height)
    requires Level(s, g, but + {loc})
    ensures s.head in s.store && s.head in g && loc in Lifted(s, loc).store
    ensures Level(Lifted(s, loc), LiftedShape(s, g, loc), but + {loc} + {Lifted(s, loc).store[loc].parent})
    ensures forall x | x in g ::
              x in LiftedShape(s, g, loc) && LiftedShape(s, g, loc)[x].height == g[x].height
    ensures Lifted(s, loc).store[loc].keys == s.store[loc].keys
    ensures s.store[loc].parent == NULL ==> Lifted(s, loc).store[loc].parent == Lifted(s, loc).head
    ensures s.store[loc].parent != NULL ==> Lifted(s, loc) == s && LiftedShape(s, g, loc) == g
  {
    hide LocalOk, ChildrenOk, Attached, Level;
    ParentlessIsHead(s, g, loose, loc);
    if s.store[loc].parent == NULL {
      GrowLevel(s, g, but + {loc});
    } else {
      LevelLess(s, g, but + {loc}, but + {loc} + {s.store[loc].parent});
    }
  }

  /** In a level tree a bucket is one level below its parent. */
  lemma KidOfParent(s: State, g: Shape, but: set<Loc>, loc: Loc)
    requires Level(s, g, but) && loc in g && loc != NULL && s.store.Keys == g.Keys
    requires s.store[loc].parent in s.store && IsChildOf(s.store[s.store[loc].parent], loc)
    ensures g[s.store[loc].parent].height == g[loc].height + 1
  {
    var p := s.store[loc].parent;
    assert LevelAt(s, g, p);
    var i :| 0 <= i <= |s.store[p].keys| && Child(s.store[p], i) == loc;
    assert KidLevel(g, g[p].height, Child(s.store[p], i));
  }

  lemma OtherHalfWide(s1: State, g1: Shape, but: set<Loc>, loc: Loc, rLoc: Loc, p: Loc, half: Loc)
    requires Level(s1, g1, but + {loc} + {p} + {rLoc}) && loc in s1.store && rLoc in s1.store && loc in g1 && rLoc in g1
    requires half == loc || half == rLoc
    requires half == loc ==> |s1.store[rLoc].keys| >= 2
    requires half == rLoc ==> |s1.store[loc].keys| >= 2
    ensures Level(s1, g1, but + {half} + {p})
  {
    hide LevelAt;
    assert WideAt(s1, g1, if half == loc then rLoc else loc);
  }

  /** The parent is wide enough for one key more, and above everything that is not wide. */
  lemma PromoteEnough(s: State, g: Shape, but: set<Loc>, loc: Loc, r: Loc, s1: State, g1: Shape, p: Loc, half: Loc)
    requires Ready(s, g, but, loc, r) && p in s1.store && p in g1 && g1[p].height == g[loc].height + 1
    requires p == s1.head || (&& p in s.store && p in g && p != s.head && g[p].height == g1[p].height
                              && s1.store[p].keys == s.store[p].keys && p != loc)
    requires forall x | x in g :: x in g1 && g1[x].height == g[x].height
    requires half in g1 && g1[half].height == g[loc].height
    ensures Enough(s1, g1, p) && forall x | x in but + {half} :: x in g1 && g1[x].height < g1[p].height
  {
    hide LevelAt;
    if p != s1.head {
      assert WideAt(s, g, p);
    }
  }

  /** With the key promoted and the left half packed, the half in question is ready for the pending key. */
  lemma HalfReady(s: State, g: Shape, but: set<Loc>, loose: set<Loc>, loc: Loc, r: Loc, s0: State, g0: Shape,
                  split: nat, s2: State, g2: Shape, rLoc: Loc, half: Loc, ref: int)
    requires Inv(s, g, loose) && loc in g && loc in s0.store && 1 <= split <= |s0.store[loc].keys| - 2
    requires Ready(s, g, but, loc, r) ==> Level(s2, g2, but + {half})
    requires half == loc || half == rLoc
    requires BelowSame(s, g, s0, g0, g[loc].height) && BelowSame(s0, g0, s2, g2, g[loc].height)
    requires loc in s2.store && rLoc in s2.store && loc in g2 && rLoc in g2
    requires g2[loc].height == g[loc].height == g2[rLoc].height
    requires SameBut(LeftHalf(s0.store[loc], split), s2.store[loc])
             && SameBut(RightHalf(s0.store[loc], split), s2.store[rLoc])
    ensures Ready(s, g, but, loc, r) ==> Ready(Replaced(s2, loc, PackedBucket(s2.store[loc], ref)), g2, but, half, r)
  {
    hide Inv, Level, LeftHalf, RightHalf, BelowSame, PackedBucket;
    HalvesAt(s0.store[loc], split, 0);
    PackedEmpty(s2.store[loc], ref);
    BelowSameTransitive(s, g, s0, g0, s2, g2, g[loc].height);
    if Ready(s, g, but, loc, r) {
      PackLevel(s2, g2, but + {half}, loc, ref);
      InvKeys(s, g, loose);
      KidStays(s, g, but, loc, r, s2, g2);
    }
  }

  lemma InvKeys(s: State, g: Shape, loose: set<Loc>)
    requires Inv(s, g, loose)
    ensures g.Keys == s.store.Keys
  {
  }

  lemma KidStays(s: State, g: Shape, but: set<Loc>, loc: Loc, r: Loc, s2: State, g2: Shape)
    requires Ready(s, g, but, loc, r) && g.Keys == s.store.Keys && BelowSame(s, g, s2, g2, g[loc].height)
    ensures KidLevel(g2, g[loc].height, r) && forall x | x in but :: x in g2 && g2[x].height < g[loc].height
  {
    hide Level;
  }

  lemma RootHasRoom(p: Bucket, key: Key)
    requires p.empty == BODY && key.size <= KEY_MAX
    ensures Room(p, key)
  {
  }

  /** There are fewer levels above the parent. */
  lemma PromoteFuel(s: State, g: Shape, loose: set<Loc>, loc: Loc, split: nat, fuel: nat)
    requires Inv(s, g, loose) && loc in s.store && loc != s.head && split < |s.store[loc].keys|
    requires forall d | d in loose :: g[d].height < g[loc].height
    requires g[s.head].height <= g[loc].height + fuel
    ensures var s1 := SplitState(s, loc, split, s.unusedFrom);
            var g1 := SplitShape(s, g, loc, split, s.unusedFrom);
            var p := s.store[loc].parent;
            fuel > 0 && s1.head in g1 && p in g1 && g1[s1.head].height <= g1[p].height + fuel - 1
  {
    hide LocalOk, Inside, SplitState;
    var p := s.store[loc].parent;
    assert Attached(s, loc);
    FreshLoc(s, g, loose, loc);
    SplitFrame(s, g, loc, split, s.unusedFrom);
    ParentIs(s, g, p, loc);
  }
}
