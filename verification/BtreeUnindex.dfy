/** Taking an entry out of the index. */
module BtreeUnindex {
  import opened Basics
  import opened Bucket
  import opened BtreeShape
  import opened BtreePack
  import opened BtreeInsert
  import opened BtreeOrder
  import opened Btree
  import opened BtreeLocate
  import opened BtreeScan
  import opened BtreeDrop
  import opened BtreeJoin
  import opened BtreeBalance
  import opened BtreeDelete
  import opened BtreeLevel
  import opened BtreeLevelDown

  /** One used entry less, and nothing else. */
  ghost predicate Loses(s: State, s': State, e: Entry) {
    forall x :: Has(s', x) <==> Has(s, x) && x != e
  }

  // ---- Every entry is in one place ----

  lemma OnlyPlace(s: State, g: Shape, loc: Loc, pos: int, x: Loc)
    requires Tree(s, g) && Snug(s, g) && Position(s, loc, pos) && x in s.store && x != loc
    ensures !HasKey(s.store[x], At(s, loc, pos))
  {
    hide LocalOk, ChildrenOk, Attached, Under, SnugAt;
    var e := At(s, loc, pos);
    assert HasKey(s.store[loc], e);
    KeyInside(s, g, loc, e);
    Owns(s, g, loc, e);
    if HasKey(s.store[x], e) {
      NotHeldBelow(s, g, x, loc, pos);
    }
  }

  /** After a key has been taken out, its entry is nowhere, and nothing new is anywhere. */
  lemma DropStored(s: State, g: Shape, loc: Loc, pos: nat, c: Loc, f: Entry)
    requires Tree(s, g) && Snug(s, g) && Position(s, loc, pos) && Stored(DropState(s, loc, pos, c), f)
    ensures Stored(s, f) && f != At(s, loc, pos)
  {
    hide Inv, Snug, Dropped, DropState;
    var s' := DropState(s, loc, pos, c);
    DropFrame(s, loc, pos, c);
    var x :| x in s'.store && HasKey(s'.store[x], f);
    if x == loc {
      DroppedKeys(s, g, loc, pos, c, f);
    } else {
      OnlyPlace(s, g, loc, pos, x);
    }
  }

  lemma DropCarried(s: State, loc: Loc, pos: nat, c: Loc, f: Sized)
    requires loc in s.store && pos < |s.store[loc].keys| && Carried(DropState(s, loc, pos, c), f)
    ensures Carried(s, f)
  {
    hide Dropped, DropState;
    var s' := DropState(s, loc, pos, c);
    DropFrame(s, loc, pos, c);
    var x :| x in s'.store && Carries(s'.store[x], f);
    if x == loc {
      DroppedFrom(s.store[loc], pos, c, f);
    }
    assert Carries(s.store[x], f);
  }

  lemma CarriedHere(s: State, loc: Loc, pos: nat)
    requires loc in s.store && pos < |s.store[loc].keys|
    ensures Carried(s, SizedOf(s.store[loc].keys[pos]))
  {
    assert Carries(s.store[loc], SizedOf(s.store[loc].keys[pos]));
  }

  lemma DroppedKeys(s: State, g: Shape, loc: Loc, pos: nat, c: Loc, f: Entry)
    requires Tree(s, g) && Position(s, loc, pos) && HasKey(Dropped(s.store[loc], pos, c), f)
    ensures HasKey(s.store[loc], f) && f != At(s, loc, pos)
  {
    hide Links, Dropped, SpaceOk, Within;
    var b := s.store[loc];
    DroppedRest(b, pos, c);
    var i :| 0 <= i < |Dropped(b, pos, c).keys| && EntryOf(Dropped(b, pos, c).keys[i]) == f;
    DroppedAt(b, pos, c, i);
    LocalIn(s, g, loc);
    LessTransitive(f, f, f);
  }

  lemma DropLoses(s: State, g: Shape, loc: Loc, pos: nat, c: Loc)
    requires Tree(s, g) && Snug(s, g) && Position(s, loc, pos)
    ensures Loses(s, DropState(s, loc, pos, c), At(s, loc, pos))
  {
    hide Inv, Snug, Has, DropState;
    var e, s' := At(s, loc, pos), DropState(s, loc, pos, c);
    forall x
      ensures Has(s', x) <==> Has(s, x) && x != e
    {
      DropHas(s, loc, pos, c, x);
      if Has(s', x) {
        HasIsStored(s', x);
        DropStored(s, g, loc, pos, c, x);
      }
    }
  }

  // ---- The tree after the entry next to `e` has gone ----

  lemma SnugDrop(s: State, g: Shape, loc: Loc, pos: nat)
    requires Tree(s, g) && Snug(s, g) && Position(s, loc, pos)
    requires Child(s.store[loc], pos) == NULL && Child(s.store[loc], pos + 1) == NULL
    ensures Tree(DropState(s, loc, pos, NULL), g) && Snug(DropState(s, loc, pos, NULL), g)
  {
    hide Inv, Dropped, DropState, SlotLo, SlotHi;
    var b := s.store[loc];
    DropKeeps(s, g, {}, loc, pos, NULL, NULL);
    DropFrame(s, loc, pos, NULL);
    var s' := DropState(s, loc, pos, NULL);
    forall x, i | x in s'.store && 0 <= i <= |s'.store[x].keys|
      ensures SnugAt(s', g, x, i)
    {
      if x == loc {
        DroppedRest(b, pos, NULL);
        DroppedAt(b, pos, NULL, i);
        DomainOf(s, g, loc);
        DroppedSlots(b, g[loc], pos, NULL, i);
        if i != pos {
          assert SnugAt(s, g, loc, if i < pos then i else i + 1);
        }
      } else {
        assert SnugAt(s, g, x, i);
      }
    }
  }

  lemma DomainOf(s: State, g: Shape, loc: Loc)
    requires Tree(s, g) && loc in s.store
    ensures loc in g
  {
  }

  /** Where `e` bounded an interval, `f` does now. */
  function Clip(info: Info, e: Entry, f: Entry): Info {
    Info(info.height, if info.lo == Some(e) && Less(e, f) then Some(f) else info.lo,
         if info.hi == Some(e) && Less(f, e) then Some(f) else info.hi)
  }

  ghost function Clipped(g: Shape, e: Entry, f: Entry): Shape {
    map x | x in g :: Clip(g[x], e, f)
  }

  /** Nothing is stored from `f` (itself included) to `e`. */
  ghost predicate Cleared(s: State, e: Entry, f: Entry) {
    !Stored(s, f) && e != f && if Less(f, e) then NoneBetween(s, Some(f), Some(e)) else NoneBetween(s, Some(e), Some(f))
  }

  lemma ClippedKey(s: State, loc: Loc, i: nat, info: Info, e: Entry, f: Entry)
    requires Cleared(s, e, f) && Position(s, loc, i) && Above(info.lo, At(s, loc, i)) && Below(At(s, loc, i), info.hi)
    ensures Above(Clip(info, e, f).lo, At(s, loc, i)) && Below(At(s, loc, i), Clip(info, e, f).hi)
  {
    hide Stored;
    StoredHere(s, loc, i);
    Total(At(s, loc, i), f);
    Total(e, f);
    LessTransitive(e, f, e);
  }

  lemma ClippedSlots(b: Bucket, info: Info, i: nat, a: Info, e: Entry, f: Entry)
    requires i <= |b.keys| && a.lo == SlotLo(b, info, i) && a.hi == SlotHi(b, info, i)
    ensures Inside(Clip(a, e, f), SlotLo(b, Clip(info, e, f), i), SlotHi(b, Clip(info, e, f), i))
  {
    LessTransitive(e, f, e);
    LessTransitive(f, e, f);
    InsideItself(Clip(a, e, f));
  }

  /** Intervals may be drawn closer where nothing is stored. */
  lemma ClipKeeps(s: State, g: Shape, e: Entry, f: Entry)
    requires Tree(s, g) && Snug(s, g) && Cleared(s, e, f)
    ensures Tree(s, Clipped(g, e, f))
  {
    hide Attached, Clip, SlotLo, SlotHi, Inside, Cleared, SpaceOk, Sorted;
    var g' := Clipped(g, e, f);
    forall x | x in s.store
      ensures LocalOk(s.store[x], g'[x])
    {
      assert LocalOk(s.store[x], g[x]);
      forall i | 0 <= i < |s.store[x].keys|
        ensures Above(g'[x].lo, EntryOf(s.store[x].keys[i])) && Below(EntryOf(s.store[x].keys[i]), g'[x].hi)
      {
        ClippedKey(s, x, i, g[x], e, f);
      }
    }
    forall x | x in s.store
      ensures ChildrenOk(s, g', x)
    {
      assert ChildrenOk(s, g, x);
      forall i | 0 <= i <= |s.store[x].keys|
        ensures ChildOk(s, g', x, i)
      {
        ClippedChild(s, g, x, i, e, f);
      }
    }
    ClippedHead(g, s.head, e, f);
    ClippedHeights(g, e, f);
  }

  lemma ClippedHeights(g: Shape, e: Entry, f: Entry)
    ensures forall x | x in g :: x in Clipped(g, e, f) && Clipped(g, e, f)[x].height == g[x].height
  {
  }

  lemma ClippedHead(g: Shape, head: Loc, e: Entry, f: Entry)
    requires head in g && g[head].lo == None && g[head].hi == None
    ensures Clipped(g, e, f)[head] == g[head]
  {
  }

  lemma ClippedChild(s: State, g: Shape, loc: Loc, i: nat, e: Entry, f: Entry)
    requires Tree(s, g) && Snug(s, g) && loc in s.store && i <= |s.store[loc].keys|
    ensures loc in Clipped(g, e, f) && ChildOk(s, Clipped(g, e, f), loc, i)
  {
    hide Inv, Clip, SlotLo, SlotHi, Inside, Snug;
    DomainOf(s, g, loc);
    ClippedHeights(g, e, f);
    var c := Child(s.store[loc], i);
    if c != NULL {
      ChildSlot(s, g, loc, i);
      ClippedSlots(s.store[loc], g[loc], i, g[c], e, f);
    }
  }

  /** The entry next to an internal key is below the key's bucket, inside the child on that side. */
  lemma NextBelow(s: State, g: Shape, loc: Loc, pos: nat, direction: int, a: Loc, ofs: int)
    requires Tree(s, g) && Snug(s, g) && Filled(s) && Position(s, loc, pos)
    requires Adjacent(s, a, ofs, direction, At(s, loc, pos)) && (direction == 1 || direction == -1)
    requires Child(s.store[loc], if direction < 0 then pos else pos + 1) != NULL
    ensures var i := if direction < 0 then pos else pos + 1;
            && Position(s, a, ofs) && a in g && loc in g && g[a].height < g[loc].height
            && Above(SlotLo(s.store[loc], g[loc], i), At(s, a, ofs))
            && Below(At(s, a, ofs), SlotHi(s.store[loc], g[loc], i))
  {
    hide Inv, Snug, Stored, Filled, HasKey, Under;
    var i := if direction < 0 then pos else pos + 1;
    var e := At(s, loc, pos);
    LocalIn(s, g, loc);
    ChildSlot(s, g, loc, i);
    var c := Child(s.store[loc], i);
    FilledAt(s, c);
    LocalIn(s, g, c);
    var first := EntryOf(s.store[c].keys[0]);
    assert At(s, c, 0) == first;
    StoredHere(s, c, 0);
    assert Above(g[c].lo, first) && Below(first, g[c].hi);
    var f := At(s, a, ofs);
    Total(first, f);
    if g[c].lo.Some? { LessTransitive(g[c].lo.value, first, f); }
    if g[c].hi.Some? { LessTransitive(f, first, g[c].hi.value); }
    Owns(s, g, c, f);
    assert HasKey(s.store[a], f) by { KeyHere(s, a, ofs); }
    UnderLower(s, g, a, c);
  }

  lemma FilledAt(s: State, c: Loc)
    requires Filled(s) && c in s.store && c != s.head
    ensures s.store[c].keys != []
  {
  }

  lemma KeyHere(s: State, loc: Loc, pos: int)
    requires Position(s, loc, pos)
    ensures HasKey(s.store[loc], At(s, loc, pos))
  {
  }

  lemma {:induction false} UnderLower(s: State, g: Shape, x: Loc, c: Loc)
    requires Tree(s, g) && x in s.store && c in s.store && Under(s, g, x, c)
    ensures x in g && c in g && g[x].height <= g[c].height
    decreases g[s.head].height - g[x].height
  {
    hide LocalOk, ChildrenOk, Attached;
    if x != c {
      ParentOf(s, g, x);
      UnderLower(s, g, s.store[x].parent, c);
    }
  }

  /** With the entry `f` next to `e` gone from below, `f` can take the place of `e`. */
  lemma ReplacementReady(s: State, g: Shape, loc: Loc, pos: nat, f: Entry, direction: int)
    requires Tree(s, g) && Snug(s, g) && Position(s, loc, pos) && (direction == 1 || direction == -1)
    requires var b, i := s.store[loc], if direction < 0 then pos else pos + 1;
             && loc in g && Child(b, i) != NULL && (direction == 1 ==> Child(b, pos) == NULL)
             && Above(SlotLo(b, g[loc], i), f) && Below(f, SlotHi(b, g[loc], i))
    requires Cleared(s, At(s, loc, pos), f)
    ensures var l, r, g' := Child(s.store[loc], pos), Child(s.store[loc], pos + 1), Clipped(g, At(s, loc, pos), f);
            Tree(s, g') && Insertable(DropState(s, loc, pos, l), g', Loosened({}, r), loc, pos, f, l, r)
  {
    hide Inv, Snug, Dropped, DropState, Cleared;
    var b, e := s.store[loc], At(s, loc, pos);
    var l, r, g' := Child(b, pos), Child(b, pos + 1), Clipped(g, e, f);
    LocalIn(s, g, loc);
    ClipKeeps(s, g, e, f);
    ClippedHeights(g, e, f);
    ClippedOwn(b, g[loc], pos, f);
    DropKeeps(s, g', {}, loc, pos, l, r);
    SideAt(s, g', {}, loc, pos, l, r);
    DropFrame(s, loc, pos, l);
    DroppedAt(b, pos, l, pos);
    DroppedSlots(b, g[loc], pos, l, pos);
    DropGap(b, g[loc], pos, l, f, direction);
    if l != NULL {
      ChildSlot(s, g, loc, pos);
    }
    if r != NULL {
      ChildSlot(s, g, loc, pos + 1);
      RightOfBoth(b, g[loc], pos, g[r], f, direction);
    }
    LessTransitive(f, e, f);
    LessTransitive(f, f, f);
  }

  /** The interval of the bucket itself is not touched. */
  lemma ClippedOwn(b: Bucket, info: Info, pos: nat, f: Entry)
    requires LocalOk(b, info) && pos < |b.keys|
    ensures Clip(info, EntryOf(b.keys[pos]), f) == info
  {
    hide SpaceOk, Sorted;
    var e := EntryOf(b.keys[pos]);
    LessTransitive(e, e, e);
  }

  lemma DropGap(b: Bucket, info: Info, pos: nat, l: Loc, f: Entry, direction: int)
    requires LocalOk(b, info) && pos < |b.keys| && |Dropped(b, pos, l).keys| == |b.keys| - 1
    requires SlotLo(Dropped(b, pos, l), info, pos) == SlotLo(b, info, pos)
             && SlotHi(Dropped(b, pos, l), info, pos) == SlotHi(b, info, pos + 1)
    requires var i := if direction < 0 then pos else pos + 1;
             Above(SlotLo(b, info, i), f) && Below(f, SlotHi(b, info, i))
    ensures Gap(Dropped(b, pos, l), info, pos, f)
  {
    hide SpaceOk, Dropped;
    var e := EntryOf(b.keys[pos]);
    if direction < 0 {
      SlotGap(b, info, pos, f);
      var hi := SlotHi(b, info, pos + 1);
      if hi.Some? { LessTransitive(f, e, hi.value); }
    } else {
      SlotGap(b, info, pos + 1, f);
      var lo := SlotLo(b, info, pos);
      if lo.Some? { LessTransitive(lo.value, e, f); }
    }
  }

  lemma RightOfBoth(b: Bucket, info: Info, pos: nat, a: Info, f: Entry, direction: int)
    requires LocalOk(b, info) && pos < |b.keys| && a.lo == SlotLo(b, info, pos + 1) && a.hi == SlotHi(b, info, pos + 1)
    requires var i := if direction < 0 then pos else pos + 1;
             Above(SlotLo(b, info, i), f) && Below(f, SlotHi(b, info, i))
    ensures Inside(Clip(a, EntryOf(b.keys[pos]), f), Some(f), SlotHi(b, info, pos + 1))
  {
    hide SpaceOk;
    var e := EntryOf(b.keys[pos]);
    LessTransitive(f, e, f);
    LessTransitive(e, f, e);
    LessTransitive(f, f, f);
    if a.hi.Some? {
      LessTransitive(a.hi.value, a.hi.value, a.hi.value);
    }
  }

  /** Once the neighbouring entry has been dropped, nothing is stored from there to the key. */
  lemma DropClears(s: State, g: Shape, loc: Loc, pos: nat, direction: int, a: Loc, ofs: nat)
    requires Tree(s, g) && Snug(s, g) && Position(s, loc, pos) && Position(s, a, ofs) && a != NULL
             && (direction == 1 || direction == -1)
    requires Adjacent(s, a, ofs, direction, At(s, loc, pos))
    ensures Cleared(DropState(s, a, ofs, NULL), At(s, loc, pos), At(s, a, ofs))
  {
    hide Inv, Snug, Stored, DropState;
    var e, f := At(s, loc, pos), At(s, a, ofs);
    var s' := DropState(s, a, ofs, NULL);
    LessTransitive(e, f, e);
    LessTransitive(f, f, f);
    forall x | Stored(s', x)
      ensures Stored(s, x) && x != f
    {
      DropStored(s, g, a, ofs, NULL, x);
    }
  }

  // ---- Taking keys out ----

  /** What becomes of a bucket from which a key has been taken. */
  ghost predicate Settled(s: State, loc: Loc, s': State)
    requires loc in s.store
  {
    if NeedsBalance(s, loc) then Rebalanced(s, loc, s')
    else if s.store[loc].keys == [] && loc != s.head then loc !in s'.store
    else s' == s
  }

  lemma RootNeedsNone(s: State, g: Shape)
    requires Tree(s, g)
    ensures s.head in s.store && !NeedsBalance(s, s.head)
  {
    hide LocalOk, ChildrenOk, Attached;
  }

  /**
   A bucket from which a key has been taken is balanced with its neighbours; an empty one
   without any leaves the tree.
   */
  method Settle(s: State, loc: Loc, ghost g: Shape) returns (s': State, ghost g': Shape)
    requires Tree(s, g) && loc in s.store && FilledBut(s, {loc})
    ensures Tree(s', g') && SameUsed(s, s') && Filled(s') && KeysFrom(s, s', None)
    ensures Settled(s, loc, s')
    ensures loc in g && (LevelLeaf(s, g, loc) ==> Level(s', g', {}))
  {
    hide Level, LevelLeaf, Enough, Inv, Has, Stored, NeedsBalance, Rebalanced;
    LocalAt(s, g, {}, loc);
    RootNeedsNone(s, g);
    LeafBalance(s, g, loc);
    if s.store[loc].keys == [] && loc == s.head {
      return s, g;
    }
    var done;
    done, s', g' := MayBalanceWithNeighbors(s, loc, g, g[s.head].height);
    if !done && s.store[loc].keys == [] {
      ParentOf(s, g, loc);
      var i := IndexInParent(s, loc, g);
      s', g' := Bypass(s, loc, i, g);
    }
  }

  /** A leaf of a level tree. */
  ghost predicate LevelLeaf(s: State, g: Shape, loc: Loc) {
    loc in g && g[loc].height == 0 && Level(s, g, {})
  }

  lemma LeafIs(s: State, g: Shape, loc: Loc)
    requires loc in g
    ensures LevelLeaf(s, g, loc) <==> g[loc].height == 0 && Level(s, g, {})
  {
    hide Level;
  }

  /** It may be balanced with its neighbours; and if it is empty and not the root, it will be. */
  lemma LeafBalance(s: State, g: Shape, loc: Loc)
    requires Tree(s, g) && loc in s.store && loc in g
    ensures LevelLeaf(s, g, loc) ==> && Level(s, g, {}) && Level(s, g, {loc}) && Enough(s, g, loc)
                                     && (s.store[loc].keys == [] && loc != s.head ==> NeedsBalance(s, loc))
  {
    hide Inv, Level, PackedBucket, Bytes, Beside;
    if LevelLeaf(s, g, loc) {
      LevelLess(s, g, {}, {loc});
      if s.store[loc].keys == [] && loc != s.head {
        HasNeighbour(s, g, s.store[loc].parent, loc);
        PackedEmpty(s.store[loc], 0);
        NoBytes();
      }
    }
  }

  /** The steps of replacing an internal key, put together. */
  lemma ReplacedLoses(s: State, g: Shape, loc: Loc, pos: nat, a: Loc, ofs: nat, s1: State, d: State, s2: State)
    requires Tree(s, g) && Snug(s, g) && Position(s, loc, pos) && Position(s, a, ofs) && a != loc
             && At(s, a, ofs) != At(s, loc, pos)
    requires s1 == DropState(s, a, ofs, NULL) && Tree(s1, g) && Snug(s1, g) && Position(s1, loc, pos)
             && s1.store[loc] == s.store[loc]
    requires d == DropState(s1, loc, pos, Child(s.store[loc], pos))
    requires var k := s.store[a].keys[ofs];
             forall e :: Has(s2, e) <==> Has(d, e) || (k.rec % 2 == 0 && e == Entry(k.key.ord, k.rec))
    ensures Loses(s, s2, At(s, loc, pos))
  {
    hide Inv, Snug, DropState, Has;
    DropLoses(s, g, a, ofs, NULL);
    DropLoses(s1, g, loc, pos, Child(s.store[loc], pos));
    UsedHere(s, g, a, ofs);
  }

  lemma ReplacedFilled(s: State, loc: Loc, pos: nat, a: Loc, ofs: nat, s2: State)
    requires Filled(s) && Position(s, loc, pos) && Position(s, a, ofs) && a != loc
    requires var s1 := DropState(s, a, ofs, NULL);
             && Position(s1, loc, pos) && Fuller(DropState(s1, loc, pos, Child(s.store[loc], pos)), s2)
    requires loc in s2.store && s2.store[loc].keys != []
    ensures FilledBut(s2, {a})
  {
    var s1 := DropState(s, a, ofs, NULL);
    DropFrame(s, a, ofs, NULL);
    DropFrame(s1, loc, pos, Child(s.store[loc], pos));
    hide DropState, Dropped;
  }

  /** Puts the next entry below in the place of a key with children, and takes that out from where it was. */
  method DeleteInternalKey(s: State, loc: Loc, pos: nat, ghost g: Shape) returns (s': State, ghost g': Shape)
    requires Tree(s, g) && Snug(s, g) && Filled(s) && Position(s, loc, pos)
    requires Child(s.store[loc], pos) != NULL || Child(s.store[loc], pos + 1) != NULL
    ensures Tree(s', g') && Filled(s') && Loses(s, s', At(s, loc, pos)) && KeysFrom(s, s', None)
    ensures Stored(s', At(s, loc, pos)) <==> InnerNext(s, loc, pos)
    ensures Level(s, g, {}) ==> Level(s', g', {}) && !InnerNext(s, loc, pos)
  {
    hide Level, Ready, LevelLeaf, InnerNext, Inv, Snug, Has, Filled, DropState, Adjacent, Insertable, SlotLo, SlotHi,
         Marked, BelowSame, Fuller, Loses,
         SameUsed, KeysFrom, Stored, Carried, Settled, FilledBut, Clipped, Cleared, LocalOk, InnerAt;
    var b := s.store[loc];
    var l, r := Child(b, pos), Child(b, pos + 1);
    ghost var e := At(s, loc, pos);
    var direction := if l == NULL then 1 else -1;
    var a, ofs := Advance(s, loc, pos, direction, g);
    NextBelow(s, g, loc, pos, direction, a, ofs);
    LevelNext(s, g, loc, pos, a, ofs);
    if Child(s.store[a], ofs) != NULL || Child(s.store[a], ofs + 1) != NULL {
      var unused := Mask(b.keys[pos].rec) + 1;
      s', g' := Replaced(s, loc, Marked(b, pos, unused)), g;
      MarkKeeps(s, g, loc, pos, unused);
      MarkFilled(s, loc, pos, unused);
      UnmarkLoses(s, g, loc, pos);
      IsInner(s, loc, pos, a, ofs);
      MarkedStays(s, loc, pos, unused);
      return;
    }
    NotInner(s, g, loc, pos, a, ofs);
    var k := s.store[a].keys[ofs];
    LocalIn(s, g, a);
    SizeOf(s.store[a], g[a], ofs);
    SnugDrop(s, g, a, ofs);
    DropFrame(s, a, ofs, NULL);
    var s1 := DropState(s, a, ofs, NULL);
    DropClears(s, g, loc, pos, direction, a, ofs);
    ReplacementReady(s1, g, loc, pos, EntryOf(k), direction);
    ghost var g1, d := Clipped(g, e, EntryOf(k)), DropState(s1, loc, pos, l);
    DropFrame(s1, loc, pos, l);
    ClippedHeights(g, e, EntryOf(k));
    DropsReady(s, g, loc, pos, a, ofs, g1);
    var s2;
    ghost var g2;
    s2, g2 := SetInternalKey(s1, loc, pos, k.rec, k.key, l, r, g1, Loosened({}, r));
    assert Loosened({}, r) - {r} == {};
    ClearedApart(s1, e, EntryOf(k));
    ReplacedLoses(s, g, loc, pos, a, ofs, s1, d, s2);
    ReplacedFilled(s, loc, pos, a, ofs, s2);
    StillThere(s1, g, d, g1, s2, g2, loc, a, e, EntryOf(k));
    LeafIs(s2, g2, a);
    s', g' := Settle(s2, a, g2);
    LosesSame(s, s2, s', e);
    ReplacedFrom(s, g, loc, pos, a, ofs, s2, s');
    ReplacedGone(s1, g, loc, pos, l, s2, s', SizedOf(k));
  }

  /** A key with children whose next entry, on the side of a child, has a child next to it too. */
  ghost predicate InnerNext(s: State, loc: Loc, pos: nat)
    requires Position(s, loc, pos)
  {
    exists a: Loc, ofs: nat :: InnerAt(s, loc, pos, a, ofs)
  }

  ghost predicate InnerAt(s: State, loc: Loc, pos: nat, a: Loc, ofs: nat)
    requires Position(s, loc, pos)
  {
    && Position(s, a, ofs) && Adjacent(s, a, ofs, if Child(s.store[loc], pos) == NULL then 1 else -1, At(s, loc, pos))
    && (Child(s.store[a], ofs) != NULL || Child(s.store[a], ofs + 1) != NULL)
  }

  lemma IsInner(s: State, loc: Loc, pos: nat, a: Loc, ofs: nat)
    requires Position(s, loc, pos) && Position(s, a, ofs)
    requires Adjacent(s, a, ofs, if Child(s.store[loc], pos) == NULL then 1 else -1, At(s, loc, pos))
    requires Child(s.store[a], ofs) != NULL || Child(s.store[a], ofs + 1) != NULL
    ensures InnerNext(s, loc, pos)
  {
    hide Adjacent;
    assert InnerAt(s, loc, pos, a, ofs);
  }

  /** Two positions of one entry are the same. */
  lemma SamePlace(s: State, g: Shape, a: Loc, i: int, b: Loc, j: int)
    requires Tree(s, g) && Snug(s, g) && Position(s, a, i) && Position(s, b, j) && At(s, a, i) == At(s, b, j)
    ensures a == b && i == j
  {
    hide Tree, Snug;
    KeyHere(s, b, j);
    if a != b {
      OnlyPlace(s, g, a, i, b);
    } else if i != j {
      OwnKeyOnce(s, g, a, i);
    }
  }

  /** So are two positions next to one entry. */
  lemma SameNext(s: State, g: Shape, a: Loc, i: int, b: Loc, j: int, direction: int, e: Entry)
    requires Tree(s, g) && Snug(s, g) && Position(s, a, i) && Position(s, b, j) && a != NULL && b != NULL
    requires Adjacent(s, a, i, direction, e) && Adjacent(s, b, j, direction, e)
    ensures a == b && i == j
  {
    hide Tree, Snug, Stored;
    StoredHere(s, a, i);
    StoredHere(s, b, j);
    Total(At(s, a, i), At(s, b, j));
    SamePlace(s, g, a, i, b, j);
  }

  /** If the next entry has no child, no next entry has. */
  lemma NotInner(s: State, g: Shape, loc: Loc, pos: nat, a: Loc, ofs: nat)
    requires Tree(s, g) && Snug(s, g) && Position(s, loc, pos) && Position(s, a, ofs)
    requires Adjacent(s, a, ofs, if Child(s.store[loc], pos) == NULL then 1 else -1, At(s, loc, pos))
    requires Child(s.store[a], ofs) == NULL && Child(s.store[a], ofs + 1) == NULL
    ensures !InnerNext(s, loc, pos)
  {
    hide Tree, Snug, Adjacent;
    LocalIn(s, g, loc);
    if InnerNext(s, loc, pos) {
      var b: Loc, j: nat :| InnerAt(s, loc, pos, b, j);
      SameNext(s, g, a, ofs, b, j, if Child(s.store[loc], pos) == NULL then 1 else -1, At(s, loc, pos));
    }
  }

  /** In a level tree the entry before a key with children is in a leaf. */
  lemma NextIsLeaf(s: State, g: Shape, loc: Loc, pos: nat, a: Loc, ofs: nat)
    requires Tree(s, g) && Snug(s, g) && Filled(s) && Position(s, loc, pos) && Position(s, a, ofs) && Level(s, g, {})
    requires Child(s.store[loc], pos) != NULL && Adjacent(s, a, ofs, -1, At(s, loc, pos))
    ensures a in g && g[a].height == 0
    ensures Child(s.store[a], ofs) == NULL && Child(s.store[a], ofs + 1) == NULL
  {
    hide Tree, Snug, Stored, Filled, HasKey, Under, Level;
    NextBelow(s, g, loc, pos, -1, a, ofs);
    KidAt(s, g, {}, a, ofs);
    KidAt(s, g, {}, a, ofs + 1);
    if g[a].height > 0 {
      var k := BehindNext(s, g, loc, pos, a, ofs);
    }
  }

  /** Behind an entry with a child there is another one before the next key above. */
  lemma BehindNext(s: State, g: Shape, loc: Loc, pos: nat, a: Loc, ofs: nat) returns (k: Entry)
    requires Tree(s, g) && Snug(s, g) && Filled(s) && Position(s, loc, pos) && Position(s, a, ofs)
    requires a in g && loc in g && g[a].height < g[loc].height && Child(s.store[a], ofs + 1) != NULL
    requires Less(At(s, a, ofs), At(s, loc, pos))
    ensures Stored(s, k) && Less(At(s, a, ofs), k) && Less(k, At(s, loc, pos))
  {
    hide Tree, Snug, Stored, Filled, HasKey, Under;
    var e, c := At(s, loc, pos), Child(s.store[a], ofs + 1);
    ChildSlot(s, g, a, ofs + 1);
    FilledAt(s, c);
    LocalIn(s, g, c);
    FirstInside(s.store[c], g[c]);
    k := At(s, c, 0);
    StoredHere(s, c, 0);
    Total(k, e);
    NotInLower(s, g, loc, pos, c);
    if g[c].hi.Some? { LessTransitive(e, k, g[c].hi.value); }
  }

  /** An entry of a bucket is in the interval of no lower bucket. */
  lemma NotInLower(s: State, g: Shape, loc: Loc, pos: nat, c: Loc)
    requires Tree(s, g) && Snug(s, g) && Position(s, loc, pos) && c in s.store && c in g && loc in g
             && g[c].height < g[loc].height
    ensures !(Above(g[c].lo, At(s, loc, pos)) && Below(At(s, loc, pos), g[c].hi))
  {
    hide Tree, Snug, HasKey, Under;
    KeyHere(s, loc, pos);
    if Above(g[c].lo, At(s, loc, pos)) && Below(At(s, loc, pos), g[c].hi) {
      Owns(s, g, c, At(s, loc, pos));
      UnderLower(s, g, loc, c);
    }
  }

  lemma FirstInside(b: Bucket, info: Info)
    requires LocalOk(b, info) && b.keys != []
    ensures Above(info.lo, EntryOf(b.keys[0])) && Below(EntryOf(b.keys[0]), info.hi)
  {
  }

  /** The key replaced is not in the tree any more. */
  lemma ReplacedGone(s1: State, g: Shape, loc: Loc, pos: nat, l: Loc, s2: State, s': State, f: Sized)
    requires Tree(s1, g) && Snug(s1, g) && Position(s1, loc, pos) && At(s1, loc, pos) != f.entry
    requires KeysFrom(DropState(s1, loc, pos, l), s2, Some(f)) && KeysFrom(s2, s', None)
    ensures !Stored(s', At(s1, loc, pos))
  {
    hide Inv, Snug, Stored, DropState, KeysFrom;
    EntriesFrom(DropState(s1, loc, pos, l), s2, Some(f));
    EntriesFrom(s2, s', None);
    if Stored(DropState(s1, loc, pos, l), At(s1, loc, pos)) {
      DropStored(s1, g, loc, pos, l, At(s1, loc, pos));
    }
  }

  lemma ClearedApart(s: State, e: Entry, f: Entry)
    requires Cleared(s, e, f)
    ensures e != f
  {
  }

  lemma SizeOf(b: Bucket, info: Info, pos: nat)
    requires LocalOk(b, info) && pos < |b.keys|
    ensures 1 <= b.keys[pos].key.size <= KEY_MAX
  {
  }

  lemma StillThere(s1: State, g: Shape, d: State, g1: Shape, s2: State, g2: Shape, loc: Loc, a: Loc, e: Entry, f: Entry)
    requires g1 == Clipped(g, e, f) && loc in g && a in g && g[a].height < g[loc].height && a in d.store && loc in g1
    requires BelowSame(d, g1, s2, g2, g1[loc].height)
    ensures a in s2.store && a in g2 && g2[a].height == g[a].height
  {
    ClippedHeights(g, e, f);
  }

  /** In a level tree the next entry has no child next to it. */
  lemma LevelNext(s: State, g: Shape, loc: Loc, pos: nat, a: Loc, ofs: nat)
    requires Tree(s, g) && Snug(s, g) && Filled(s) && Position(s, loc, pos) && Position(s, a, ofs) && a in g
    requires Child(s.store[loc], pos) != NULL || Child(s.store[loc], pos + 1) != NULL
    requires Adjacent(s, a, ofs, if Child(s.store[loc], pos) == NULL then 1 else -1, At(s, loc, pos))
    ensures Level(s, g, {}) ==> && g[a].height == 0 && Child(s.store[a], ofs) == NULL
                                && Child(s.store[a], ofs + 1) == NULL
  {
    hide Tree, Snug, Filled, Level, Adjacent;
    if Level(s, g, {}) {
      KidAt(s, g, {}, loc, pos);
      KidAt(s, g, {}, loc, pos + 1);
      NextIsLeaf(s, g, loc, pos, a, ofs);
    }
  }

  /** With both keys taken out, one may be put in the place of the other, as far as levels go. */
  lemma DropsReady(s: State, g: Shape, loc: Loc, pos: nat, a: Loc, ofs: nat, g1: Shape)
    requires Tree(s, g) && Position(s, loc, pos) && Position(s, a, ofs) && a != loc && a in g
    requires Child(s.store[a], ofs) == NULL && Child(s.store[a], ofs + 1) == NULL
    requires forall x | x in g :: x in g1 && g1[x].height == g[x].height
    ensures var s1 := DropState(s, a, ofs, NULL);
            && Position(s1, loc, pos) && s1.store[loc] == s.store[loc]
            && var l, r := Child(s.store[loc], pos), Child(s.store[loc], pos + 1);
               Level(s, g, {}) && g[a].height == 0 ==> Ready(DropState(s1, loc, pos, l), g1, {}, loc, r)
  {
    hide Tree, Level, Ready, DropState;
    DropFrame(s, a, ofs, NULL);
    if Level(s, g, {}) && g[a].height == 0 {
      DropLevel(s, g, {}, a, ofs, NULL);
      var s1 := DropState(s, a, ofs, NULL);
      SameHeights(s1, g, g1, {});
      DropReady(s1, g1, {}, loc, pos);
    }
  }

  lemma MarkedStays(s: State, loc: Loc, pos: nat, rec: int)
    requires Position(s, loc, pos) && Mask(rec) == Mask(s.store[loc].keys[pos].rec)
    ensures var s' := Replaced(s, loc, Marked(s.store[loc], pos, rec));
            Stored(s', At(s, loc, pos)) && KeysFrom(s, s', None)
  {
    hide Marked;
    MarkedSame(s.store[loc], pos, rec);
    MarkFrom(s, loc, pos, rec);
    assert HasKey(Replaced(s, loc, Marked(s.store[loc], pos, rec)).store[loc], At(s, loc, pos));
  }

  /** The replacement brings no new key. */
  lemma ReplacedFrom(s: State, g: Shape, loc: Loc, pos: nat, a: Loc, ofs: nat, s2: State, s': State)
    requires Tree(s, g) && Snug(s, g) && Position(s, loc, pos) && Position(s, a, ofs)
    requires var s1 := DropState(s, a, ofs, NULL);
             && Tree(s1, g) && Snug(s1, g) && Position(s1, loc, pos)
             && KeysFrom(DropState(s1, loc, pos, Child(s.store[loc], pos)), s2, Some(SizedOf(s.store[a].keys[ofs])))
    requires KeysFrom(s2, s', None)
    ensures KeysFrom(s, s', None)
  {
    hide Tree, Snug, Carried, DropState;
    var s1 := DropState(s, a, ofs, NULL);
    var d := DropState(s1, loc, pos, Child(s.store[loc], pos));
    CarriedHere(s, a, ofs);
    forall f | Carried(s', f)
      ensures Carried(s, f)
    {
      if Carried(d, f) {
        DropCarried(s1, loc, pos, Child(s.store[loc], pos), f);
        DropCarried(s, a, ofs, NULL, f);
      }
    }
  }

  lemma LosesSame(s: State, s2: State, s': State, e: Entry)
    requires Loses(s, s2, e) && SameUsed(s2, s')
    ensures Loses(s, s', e)
  {
    hide Has;
  }

  /** Marking the key unused loses just its entry. */
  lemma UnmarkLoses(s: State, g: Shape, loc: Loc, pos: nat)
    requires Tree(s, g) && Snug(s, g) && Position(s, loc, pos)
    ensures var k := s.store[loc].keys[pos];
            Loses(s, Replaced(s, loc, Marked(s.store[loc], pos, Mask(k.rec) + 1)), At(s, loc, pos))
  {
    hide Inv, Snug, Has, Marked;
    var k, e := s.store[loc].keys[pos], At(s, loc, pos);
    var s' := Replaced(s, loc, Marked(s.store[loc], pos, Mask(k.rec) + 1));
    forall x
      ensures Has(s', x) <==> Has(s, x) && x != e
    {
      MarkHas(s, loc, pos, Mask(k.rec) + 1, x);
      UnmarkedNowhere(s, g, loc, pos);
    }
  }

  lemma UnmarkedNowhere(s: State, g: Shape, loc: Loc, pos: nat)
    requires Tree(s, g) && Snug(s, g) && Position(s, loc, pos)
    ensures var k := s.store[loc].keys[pos];
            !Has(Replaced(s, loc, Marked(s.store[loc], pos, Mask(k.rec) + 1)), At(s, loc, pos))
  {
    hide Inv, Snug, Marked;
    var b, k, e := s.store[loc], s.store[loc].keys[pos], At(s, loc, pos);
    var b' := Marked(b, pos, Mask(k.rec) + 1);
    MarkedSame(b, pos, Mask(k.rec) + 1);
    var s' := Replaced(s, loc, b');
    forall x | x in s'.store
      ensures !Holds(s'.store[x], e)
    {
      if x == loc {
        OwnKeyOnce(s, g, loc, pos);
      } else {
        OnlyPlace(s, g, loc, pos, x);
      }
    }
  }

  lemma OwnKeyOnce(s: State, g: Shape, loc: Loc, pos: nat)
    requires Tree(s, g) && Position(s, loc, pos)
    ensures forall i | 0 <= i < |s.store[loc].keys| && i != pos :: EntryOf(s.store[loc].keys[i]) != At(s, loc, pos)
  {
    hide Links, SpaceOk, Within;
    LocalIn(s, g, loc);
    LessTransitive(At(s, loc, pos), At(s, loc, pos), At(s, loc, pos));
  }

  /** Takes the key at a position out of the tree. */
  method DelKeyAtPos(s: State, loc: Loc, pos: nat, ghost g: Shape) returns (s': State, ghost g': Shape)
    requires Tree(s, g) && Snug(s, g) && Filled(s) && Position(s, loc, pos)
    ensures Tree(s', g') && Filled(s') && Loses(s, s', At(s, loc, pos)) && KeysFrom(s, s', None)
    ensures Stored(s', At(s, loc, pos)) <==> HasChild(s, loc, pos) && InnerNext(s, loc, pos)
    ensures Level(s, g, {}) ==> Level(s', g', {}) && !(HasChild(s, loc, pos) && InnerNext(s, loc, pos))
    ensures var b := s.store[loc];
            Child(b, pos) == NULL && (|b.keys| > 1 || b.next == NULL) ==>
              Settled(DropState(s, loc, pos, Child(b, pos + 1)), loc, s')
  {
    hide Inv, Snug, Has, Loses, SameUsed, Settled, InnerNext, Stored, Level, LevelLeaf;
    var b := s.store[loc];
    var left := Child(b, pos);
    if left != NULL || (|b.keys| == 1 && b.next != NULL) {
      s', g' := DeleteInternalKey(s, loc, pos, g);
      return;
    }
    var s1 := DropState(s, loc, pos, Child(b, pos + 1));
    DropKeeps(s, g, {}, loc, pos, Child(b, pos + 1), NULL);
    DropLoses(s, g, loc, pos, Child(b, pos + 1));
    DropsLeaf(s, g, loc, pos);
    s', g' := Settle(s1, loc, g);
    DroppedFromHere(s, g, loc, pos, Child(b, pos + 1), s');
    LosesSame(s, s1, s', At(s, loc, pos));
    DroppedGone(s, g, loc, pos, Child(b, pos + 1), s');
  }

  /** The key has a child, or is the only one and has a child behind it. */
  predicate HasChild(s: State, loc: Loc, pos: nat)
    requires Position(s, loc, pos)
  {
    Child(s.store[loc], pos) != NULL || (|s.store[loc].keys| == 1 && s.store[loc].next != NULL)
  }

  /** In a level tree, a key without a child is in a leaf, which stays one. */
  lemma DropsLeaf(s: State, g: Shape, loc: Loc, pos: nat)
    requires Position(s, loc, pos) && Child(s.store[loc], pos) == NULL
    ensures Level(s, g, {}) ==> LevelLeaf(DropState(s, loc, pos, Child(s.store[loc], pos + 1)), g, loc)
  {
    hide Level, DropState;
    if Level(s, g, {}) {
      KidAt(s, g, {}, loc, pos);
      KidAt(s, g, {}, loc, pos + 1);
      DropLevel(s, g, {}, loc, pos, Child(s.store[loc], pos + 1));
    }
  }

  lemma DroppedFromHere(s: State, g: Shape, loc: Loc, pos: nat, c: Loc, s': State)
    requires Tree(s, g) && Snug(s, g) && Position(s, loc, pos) && KeysFrom(DropState(s, loc, pos, c), s', None)
    ensures KeysFrom(s, s', None)
  {
    hide Tree, Snug, Carried, DropState;
    forall f | Carried(s', f)
      ensures Carried(s, f)
    {
      DropCarried(s, loc, pos, c, f);
    }
  }

  lemma DroppedGone(s: State, g: Shape, loc: Loc, pos: nat, c: Loc, s': State)
    requires Tree(s, g) && Snug(s, g) && Position(s, loc, pos) && KeysFrom(DropState(s, loc, pos, c), s', None)
    ensures !Stored(s', At(s, loc, pos))
  {
    hide Inv, Snug, Stored, DropState, KeysFrom;
    EntriesFrom(DropState(s, loc, pos, c), s', None);
    if Stored(DropState(s, loc, pos, c), At(s, loc, pos)) {
      DropStored(s, g, loc, pos, c, At(s, loc, pos));
    }
  }

  /** Takes a key with its record out of the index; says whether it was there. */
  method Unindex(s: State, key: Key, rec: int, ghost g: Shape) returns (removed: bool, s': State, ghost g': Shape)
    requires Tree(s, g) && Filled(s)
    ensures Tree(s', g') && Filled(s')
    ensures removed <==> key.size <= KEY_MAX && Stored(s, Entry(key.ord, rec))
    ensures removed ==> Loses(s, s', Entry(key.ord, rec))
    ensures !removed ==> s' == s
    ensures KeysFrom(s, s', None)
    ensures removed ==> (Stored(s', Entry(key.ord, rec)) <==> Buried(s, Entry(key.ord, rec)))
    ensures Level(s, g, {}) ==> Level(s', g', {}) && (removed ==> !Stored(s', Entry(key.ord, rec)))
  {
    hide Tree, Snug, Has, Loses, Filled, Stored, Carried, InnerNext, Settled, HasChild, Level;
    NothingChanged(s);
    if key.size > KEY_MAX {
      return false, s, g;
    }
    Refit(s, g);
    ghost var g1 := FittedShape(s, g);
    SameHeights(s, g, g1, {});
    HeadBounds(s, g1);
    var loc, pos;
    removed, loc, pos := Locate(s, s.head, key, rec, 1, g1);
    if removed {
      s', g' := DelKeyAtPos(s, loc, pos, g1);
      BuriedHere(s, g1, loc, pos);
    } else {
      s', g' := s, g;
    }
  }

  /** The key of an entry has a child, and so has the entry next to it on that side. */
  ghost predicate Buried(s: State, e: Entry) {
    exists loc: Loc, pos: nat | Position(s, loc, pos) && At(s, loc, pos) == e ::
      HasChild(s, loc, pos) && InnerNext(s, loc, pos)
  }

  lemma BuriedHere(s: State, g: Shape, loc: Loc, pos: nat)
    requires Tree(s, g) && Snug(s, g) && Position(s, loc, pos)
    ensures Buried(s, At(s, loc, pos)) <==> HasChild(s, loc, pos) && InnerNext(s, loc, pos)
  {
    hide Tree, Snug, HasChild, InnerNext;
    if Buried(s, At(s, loc, pos)) {
      var a: Loc, i: nat :| Position(s, a, i) && At(s, a, i) == At(s, loc, pos) && HasChild(s, a, i)
        && InnerNext(s, a, i);
      SamePlace(s, g, a, i, loc, pos);
    }
  }
}
