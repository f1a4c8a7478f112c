/** Keeping buckets filled when keys are taken out of them. */
module BtreeDelete {
  import opened Basics
  import opened Bucket
  import opened BtreeShape
  import opened BtreePack
  import opened BtreeSplit
  import opened BtreeInsert
  import opened BtreeOrder
  import opened BtreeLocate
  import opened BtreeDrop
  import opened BtreeJoin
  import opened BtreeBalance
  import opened BtreeLevel
  import opened BtreeLevelDown

  /** Two neighbours with their new contents; their children point to them. The parent is still to be changed. */
  function MovedState(s: State, p: Loc, i: nat, l': Bucket, r': Bucket): State
    requires p in s.store && i < |s.store[p].keys|
  {
    var l, r := Child(s.store[p], i), Child(s.store[p], i + 1);
    s.(store := map x | x in s.store ::
         if x == l then l' else if x == r then r' else if x == p then s.store[x]
         else if x in Kids(r') then s.store[x].(parent := r) else if x in Kids(l') then s.store[x].(parent := l)
         else s.store[x])
  }

  lemma MovedIsShared(s: State, p: Loc, i: nat, l': Bucket, r': Bucket)
    requires p in s.store && i < |s.store[p].keys| && p != Child(s.store[p], i) && p != Child(s.store[p], i + 1)
    ensures var m := MovedState(s, p, i, l', r');
            && p in m.store && m.store[p] == s.store[p]
            && DropState(m, p, i, Child(s.store[p], i)) == SharedState(s, p, i, l', r')
  {
    hide Dropped, Kids;
    var l := Child(s.store[p], i);
    assert DropState(MovedState(s, p, i, l', r'), p, i, l).store == SharedState(s, p, i, l', r').store;
  }

  /** Puts a key in the place of the one at `pos`, between the same two children. The bucket may split. */
  method SetInternalKey(s: State, loc: Loc, pos: nat, rec: int, key: Key, l: Loc, r: Loc, ghost g: Shape,
      ghost loose: set<Loc>)
    returns (s': State, ghost g': Shape)
    requires loc in s.store && pos < |s.store[loc].keys| && 1 <= key.size <= KEY_MAX
    requires Insertable(DropState(s, loc, pos, l), g, loose, loc, pos, Entry(key.ord, Mask(rec)), l, r)
    ensures loc in g && Adds(DropState(s, loc, pos, l), g, s', g', loose - {r}, g[loc].height, rec, key)
    ensures Fuller(DropState(s, loc, pos, l), s') && loc in s'.store && s'.store[loc].keys != []
    ensures KeysFrom(DropState(s, loc, pos, l), s', Some(SizedFor(rec, key)))
    ensures Ready(DropState(s, loc, pos, l), g, {}, loc, r) ==> Level(s', g', {})
  {
    hide Ready, Level, DropState, LocalOk, ChildrenOk, Attached, Gap, Inside, Adds, Fuller, SlotHi, KeysFrom;
    var s1 := DropState(s, loc, pos, l);
    s', g' := InsertHere(s1, loc, pos, rec, key, l, r, g, loose, {}, g[s1.head].height);
  }

  /** Two packed neighbours of which one is below the low-water mark, and which are too big to be merged. */
  ghost predicate MustShare(s: State, p: Loc, i: nat)
    requires p in s.store && i < |s.store[p].keys| && Child(s.store[p], i) in s.store
             && Child(s.store[p], i + 1) in s.store
  {
    var l, r := PackedBucket(s.store[Child(s.store[p], i)], 0), PackedBucket(s.store[Child(s.store[p], i + 1)], 0);
    (Bytes(l.keys) < LOW_WATER || Bytes(r.keys) < LOW_WATER) && !MergeFits(s, p, i)
  }

  ghost predicate MergeFits(s: State, p: Loc, i: nat)
    requires p in s.store && i < |s.store[p].keys| && Child(s.store[p], i) in s.store
             && Child(s.store[p], i + 1) in s.store
  {
    var l, r := PackedBucket(s.store[Child(s.store[p], i)], 0), PackedBucket(s.store[Child(s.store[p], i + 1)], 0);
    HEADER_SIZE + Bytes(l.keys) + Bytes(r.keys) + Cost(s.store[p].keys[i]) <= BUCKET_SIZE
  }

  /** The deal of a pair is complete: the key in the middle has gone up, and the tree is whole again. */
  lemma DealDone(s: State, g: Shape, p: Loc, i: nat, split: nat, l': Bucket, r': Bucket, s': State, g': Shape, x: Loc)
    requires Pair(s, g, p, i) && Shares(s, p, i, split, l', r') && l'.keys != [] && r'.keys != []
    requires var l, r := Child(s.store[p], i), Child(s.store[p], i + 1);
             && split < |PairKeys(s, p, i)| && l in g && r in g && FilledBut(s, {l, r})
             && var k := PairKeys(s, p, i)[split];
                && Adds(SharedState(s, p, i, l', r'), SharedShape(s, g, p, i, EntryOf(k)), s', g', {}, g[p].height,
                   k.rec, k.key)
                && KeysFrom(SharedState(s, p, i, l', r'), s', Some(SizedOf(k)))
                && Fuller(SharedState(s, p, i, l', r'), s') && p in s'.store && s'.store[p].keys != []
                && (x == l || x == r)
    ensures Tree(s', g') && SameUsed(s, s') && Filled(s') && x in s'.store && SpaceOk(s'.store[x]) && NewOnly(s, s')
    ensures KeysFrom(s, s', None)
    ensures var l, r := Child(s.store[p], i), Child(s.store[p], i + 1);
            l in s'.store && r in s'.store && SameBut(l', s'.store[l]) && SameBut(r', s'.store[r])
  {
    hide Inv, Has, SharedState, SharedShape, Snug, JoinedBucket, SpaceOk, KeysFrom, Carried;
    SharedFrom(s, g, p, i, split, l', r');
    KeysFromTransitive(s, SharedState(s, p, i, l', r'), s', None, Some(SizedOf(PairKeys(s, p, i)[split])));
    KeysFromKnown(s, s', SizedOf(PairKeys(s, p, i)[split]));
    PairParts(s, g, p, i);
    SharedHeights(s, g, p, i, EntryOf(PairKeys(s, p, i)[split]));
    var l, r := Child(s.store[p], i), Child(s.store[p], i + 1);
    var k := PairKeys(s, p, i)[split];
    SharedFrame(s, g, p, i, l', r');
    forall e
      ensures Has(s', e) <==> Has(s, e)
    {
      SharedHas(s, g, p, i, split, l', r', e);
      assert Has(s', e) <==> Has(SharedState(s, p, i, l', r'), e) || (k.rec % 2 == 0 && e == Entry(k.key.ord, k.rec));
    }
    LocalAt(s', g', {}, x);
  }

  lemma KeysFromKnown(s: State, s': State, k: Sized)
    requires KeysFrom(s, s', Some(k)) && Carried(s, k)
    ensures KeysFrom(s, s', None)
  {
    hide Carried;
  }

  lemma SharedHeights(s: State, g: Shape, p: Loc, i: nat, e: Entry)
    requires p in s.store && i < |s.store[p].keys| && Child(s.store[p], i) in g && Child(s.store[p], i + 1) in g
    requires p in g && g[Child(s.store[p], i)].height < g[p].height && g[Child(s.store[p], i + 1)].height < g[p].height
    ensures var l, r, g' := Child(s.store[p], i), Child(s.store[p], i + 1), SharedShape(s, g, p, i, e);
            l in g' && r in g' && g'[l].height < g[p].height && g'[r].height < g[p].height
  {
  }

  lemma PairKeySizes(s: State, g: Shape, p: Loc, i: nat)
    requires Pair(s, g, p, i)
    ensures var l, r := Child(s.store[p], i), Child(s.store[p], i + 1);
            && l in s.store && r in s.store && KeySizes(s.store[l].keys) && KeySizes(s.store[r].keys)
            && 1 <= s.store[p].keys[i].key.size <= KEY_MAX && Bytes(s.store[l].keys) <= BODY
            && Bytes(s.store[r].keys) <= BODY
            && SpaceOk(s.store[l]) && SpaceOk(s.store[r]) && KeySizes(PairKeys(s, p, i))
  {
    hide Bytes, Sorted, Within, Inv, Snug;
    PairParts(s, g, p, i);
  }

  /** The split point of a pair that must share, and what the low-water mark promises about it. */
  lemma ShareSplit(l: Bucket, sep: KeyNode, r: Bucket, split: int)
    requires SpaceOk(l) && SpaceOk(r) && 1 <= sep.key.size <= KEY_MAX
             && (Bytes(l.keys) < LOW_WATER || Bytes(r.keys) < LOW_WATER)
    requires HEADER_SIZE + Bytes(l.keys) + Bytes(r.keys) + Cost(sep) > BUCKET_SIZE
    requires var all := JoinedBucket(l, sep, r).keys; split == Clamp(Halfway(all, |all|, Bytes(all) / 2), |all|)
    ensures var all := JoinedBucket(l, sep, r).keys;
            && 1 <= split <= |all| - 2 && split != |l.keys| && |all| == |l.keys| + 1 + |r.keys|
            && Bytes(all[..split]) <= BODY && Bytes(all[split+1..]) <= BODY
  {
    hide Bytes, Halfway, Clamp;
    LowWaterMark(l.keys, sep.(child := l.next), r.keys, split);
  }

  /** All keys of two neighbours when packed, with their separator. */
  ghost function PackedKeys(s: State, p: Loc, i: nat): seq<KeyNode>
    requires p in s.store && i < |s.store[p].keys| && Child(s.store[p], i) in s.store
             && Child(s.store[p], i + 1) in s.store
  {
    var l, r := PackedBucket(s.store[Child(s.store[p], i)], 0), PackedBucket(s.store[Child(s.store[p], i + 1)], 0);
    JoinedBucket(l, s.store[p].keys[i], r).keys
  }

  /** The keys of two neighbours are shared out at the halfway point, which was not where they were divided before. */
  ghost predicate Dealt(s: State, s': State, p: Loc, i: nat)
    requires p in s.store && i < |s.store[p].keys| && Child(s.store[p], i) in s.store
             && Child(s.store[p], i + 1) in s.store
  {
    var l, r, all := Child(s.store[p], i), Child(s.store[p], i + 1), PackedKeys(s, p, i);
    var split := Clamp(Halfway(all, |all|, Bytes(all) / 2), |all|);
    && l in s'.store && r in s'.store && 1 <= split < |all| - 1 && split != |PackedBucket(s.store[l], 0).keys|
    && (s'.store[l].keys == all[..split] || s'.store[l].keys == Kept(all[..split], split, 0))
    && (s'.store[r].keys == all[split+1..] || s'.store[r].keys == Kept(all[split+1..], |all| - split - 1, 0))
  }

  /** Shares the keys of two neighbours out between them, so that neither is below half of them. */
  method DoBalanceChildren(s: State, p: Loc, i: nat, ghost g: Shape) returns (s': State, ghost g': Shape)
    requires Neighbours(s, g, p, i)
    requires var l, r := Child(s.store[p], i), Child(s.store[p], i + 1);
             l in s.store && r in s.store && FilledBut(s, {l, r}) && MustShare(s, p, i)
    ensures Tree(s', g') && SameUsed(s, s') && Filled(s') && NewOnly(s, s') && KeysFrom(s, s', None)
            && Dealt(s, s', p, i)
    ensures Level(s, g, {Child(s.store[p], i), Child(s.store[p], i + 1)}) ==> Level(s', g', {})
  {
    hide Level, DealsLevel, Inv, Has, Snug, PackedBucket, Bytes, JoinedBucket, SharedState, MovedState, SharedShape,
         FittedShape,
         Halfway, Clamp, SpaceOk,
         DropState, GivenAway, TakenInFront, TakenBehind, FrontDropped, Adds, Fuller, Filled, Insertable, SameUsed,
           KeysFrom, FilledBut;
    NeighbourParts(s, g, p, i);
    PackPair(s, g, p, i);
    var lLoc, rLoc := Child(s.store[p], i), Child(s.store[p], i + 1);
    var sep := s.store[p].keys[i];
    var l, zero := Pack(s.store[lLoc], 0);
    var r, zero' := Pack(s.store[rLoc], 0);
    var s1 := Replaced(Replaced(s, lLoc, l), rLoc, r);
    NeighbourParts(s1, g, p, i);
    ghost var g1 := FittedShape(s1, g);
    PairKeySizes(s1, g1, p, i);
    PairParts(s1, g1, p, i);
    var split := RebalancedSeparatorPos(l.keys, sep.(child := l.next), r.keys);
    JoinedIs(l, sep, r);
    ShareSplit(l, sep, r, split);
    DealWide(s, g, p, i, split);
    if split < |l.keys| {
      s', g' := BalanceLeftToRight(s1, p, i, split, g1);
    } else {
      s', g' := BalanceRightToLeft(s1, p, i, split, g1);
    }
    SameUsedTransitive(s, s1, s');
  }

  /** The packed neighbours of a level tree that must share can be dealt anew as such. */
  lemma DealWide(s: State, g: Shape, p: Loc, i: nat, split: int)
    requires Neighbours(s, g, p, i)
    requires var l, r := Child(s.store[p], i), Child(s.store[p], i + 1);
             l in s.store && r in s.store && MustShare(s, p, i)
    requires var all := PackedKeys(s, p, i); split == Clamp(Halfway(all, |all|, Bytes(all) / 2), |all|)
    ensures var s1 := PackedPair(s, p, i);
            && Tree(s1, g) && s1.store[p] == s.store[p] && Child(s.store[p], i) in s1.store
            && Child(s.store[p], i + 1) in s1.store
            && split >= 2
            && (Level(s, g, {Child(s.store[p], i), Child(s.store[p], i + 1)}) ==>
                  DealsLevel(s1, FittedShape(s1, g), p, i, split))
  {
    hide Inv, Snug, Level, PackedBucket, Bytes, JoinedBucket, Halfway, Clamp, SpaceOk, FittedShape;
    NeighbourParts(s, g, p, i);
    PackPair(s, g, p, i);
    var l, r := Child(s.store[p], i), Child(s.store[p], i + 1);
    var s1 := PackedPair(s, p, i);
    NeighbourParts(s1, g, p, i);
    PairKeySizes(s1, FittedShape(s1, g), p, i);
    SharedBytes(s1.store[l], s.store[p].keys[i], s1.store[r]);
    ShareWide(PackedKeys(s, p, i));
    PackedPairLevel(s, g, p, i);
  }

  lemma SharedBytes(l: Bucket, sep: KeyNode, r: Bucket)
    ensures Bytes(JoinedBucket(l, sep, r).keys) == Bytes(l.keys) + Cost(sep) + Bytes(r.keys)
  {
    hide Bytes;
    JoinedBytes(l.keys, sep.(child := l.next), r.keys);
  }

  lemma PackedPairLevel(s: State, g: Shape, p: Loc, i: nat)
    requires p in s.store && i < |s.store[p].keys| && Child(s.store[p], i) in s.store
             && Child(s.store[p], i + 1) in s.store
    requires Tree(PackedPair(s, p, i), g) && Child(s.store[p], i) != Child(s.store[p], i + 1)
    ensures var s1, l, r := PackedPair(s, p, i), Child(s.store[p], i), Child(s.store[p], i + 1);
            && (Level(s, g, {l, r}) ==> Level(s1, FittedShape(s1, g), {l, r}))
            && (Level(s, g, {l, r}) && l in g && g[l].height > 0 ==> s1.store[l].keys == s.store[l].keys)
            && (Level(s, g, {l, r}) && r in g && g[r].height > 0 ==> s1.store[r].keys == s.store[r].keys)
  {
    hide Inv, Level, PackedBucket, FittedShape;
    var s1, l, r := PackedPair(s, p, i), Child(s.store[p], i), Child(s.store[p], i + 1);
    if Level(s, g, {l, r}) {
      PackLevel(s, g, {l, r}, l, 0);
      PackLevel(Replaced(s, l, PackedBucket(s.store[l], 0)), g, {l, r}, r, 0);
      Refit(s1, g);
      SameHeights(s1, g, FittedShape(s1, g), {l, r});
    }
  }

  lemma SameUsedTransitive(s: State, s1: State, s2: State)
    requires SameUsed(s, s1) && SameUsed(s1, s2) && KeysFrom(s, s1, None) && KeysFrom(s1, s2, None)
    ensures SameUsed(s, s2) && KeysFrom(s, s2, None)
  {
    hide Has, Carried;
  }

  lemma JoinedIs(l: Bucket, sep: KeyNode, r: Bucket)
    ensures JoinedBucket(l, sep, r).keys == Joined(l.keys, sep.(child := l.next), r.keys)
    ensures JoinedBucket(l, sep, r).next == r.next
  {
  }

  /** A pair of packed neighbours about to be dealt anew at `split`. */
  ghost predicate Deal(s: State, g: Shape, p: Loc, i: nat, split: nat) {
    && Pair(s, g, p, i)
    && var l, r, sep := Child(s.store[p], i), Child(s.store[p], i + 1), s.store[p].keys[i];
       && l in s.store && r in s.store && l in g && r in g && FilledBut(s, {l, r}) && s.store[l].packed
       && s.store[r].packed
       && var all := JoinedBucket(s.store[l], sep, s.store[r]).keys;
          && 1 <= split <= |all| - 2 && split != |s.store[l].keys| && |all| == |s.store[l].keys| + 1 + |s.store[r].keys|
          && Bytes(all[..split]) <= BODY && Bytes(all[split+1..]) <= BODY
  }

  lemma DealLeftToRight(s: State, g: Shape, p: Loc, i: nat, split: nat)
    requires Deal(s, g, p, i, split) && split < |s.store[Child(s.store[p], i)].keys|
    ensures var l, r, sep := s.store[Child(s.store[p], i)], s.store[Child(s.store[p], i + 1)], s.store[p].keys[i];
            var l', r' := GivenAway(l, split), TakenInFront(l, sep, r, split);
            && Shares(s, p, i, split, l', r') && l'.keys != [] && r'.keys != []
            && PairKeys(s, p, i)[split] == l.keys[split]
            && !l'.packed && 1 <= l.keys[split].key.size <= KEY_MAX
  {
    hide Inv, Snug, Bytes, JoinedBucket, SpaceOk;
    PairParts(s, g, p, i);
    PairKeySizes(s, g, p, i);
    var l, r, sep := s.store[Child(s.store[p], i)], s.store[Child(s.store[p], i + 1)], s.store[p].keys[i];
    LeftToRightKeys(l, sep, r, split);
    LeftToRightSpace(l, sep, r, split);
  }

  lemma RoomInFront(s: State, g: Shape, p: Loc, i: nat, split: nat)
    requires Deal(s, g, p, i, split) && split < |s.store[Child(s.store[p], i)].keys|
    ensures var l, r := s.store[Child(s.store[p], i)], s.store[Child(s.store[p], i + 1)];
            r.empty >= KEY_NODE * (|l.keys| - split)
  {
    hide Inv, Snug, Bytes, JoinedBucket;
    PairKeySizes(s, g, p, i);
    var l, r, sep := s.store[Child(s.store[p], i)], s.store[Child(s.store[p], i + 1)], s.store[p].keys[i];
    LeftToRightKeys(l, sep, r, split);
    MovedBytes(l, sep, r, split);
    BytesPositive(l.keys[split+1..]);
  }

  lemma MovedBytes(l: Bucket, sep: KeyNode, r: Bucket, split: nat)
    requires split < |l.keys|
    ensures Bytes(TakenInFront(l, sep, r, split).keys) == Bytes(l.keys[split+1..]) + Cost(sep) + Bytes(r.keys)
  {
    hide Bytes;
    var sep' := sep.(child := l.next);
    BytesPush(l.keys[split+1..], sep');
    BytesConcat(l.keys[split+1..] + [sep'], r.keys);
  }

  lemma DealRightToLeft(s: State, g: Shape, p: Loc, i: nat, split: nat)
    requires Deal(s, g, p, i, split) && split > |s.store[Child(s.store[p], i)].keys|
    ensures var l, r, sep := s.store[Child(s.store[p], i)], s.store[Child(s.store[p], i + 1)], s.store[p].keys[i];
            var m := split - |l.keys| - 1;
            && m < |r.keys|
            && var l', r' := TakenBehind(l, sep, r, m), FrontDropped(r, m);
               && Shares(s, p, i, split, l', r') && l'.keys != [] && r'.keys != []
               && PairKeys(s, p, i)[split] == r.keys[m]
               && !r'.packed && 1 <= r.keys[m].key.size <= KEY_MAX
  {
    hide Inv, Snug, Bytes, JoinedBucket, SpaceOk;
    PairParts(s, g, p, i);
    PairKeySizes(s, g, p, i);
    var l, r, sep := s.store[Child(s.store[p], i)], s.store[Child(s.store[p], i + 1)], s.store[p].keys[i];
    RightToLeftKeys(l, sep, r, split - |l.keys| - 1);
    RightToLeftSpace(l, sep, r, split - |l.keys| - 1);
  }

  method BalanceLeftToRight(s: State, p: Loc, i: nat, split: nat, ghost g: Shape) returns (s': State, ghost g': Shape)
    requires Deal(s, g, p, i, split) && split < |s.store[Child(s.store[p], i)].keys|
    ensures Tree(s', g') && SameUsed(s, s') && Filled(s') && NewOnly(s, s') && KeysFrom(s, s', None)
    ensures var l, r := Child(s.store[p], i), Child(s.store[p], i + 1);
            && l in s.store && r in s.store && l in s'.store && r in s'.store
            && var all := PairKeys(s, p, i);
               split < |all| && s'.store[l].keys == Kept(all[..split], split, 0) && s'.store[r].keys == all[split+1..]
    ensures DealsLevel(s, g, p, i, split) ==> Level(s', g', {})
  {
    hide Level, Ready, DealsLevel, Inv, Has, Snug, PackedBucket, Bytes, JoinedBucket, SharedState, MovedState,
         SharedShape, SpaceOk,
         DropState, GivenAway, TakenInFront, Adds, Fuller, Filled, Insertable, SameUsed, KeysFrom, FilledBut, Gap,
           Inside;
    PairParts(s, g, p, i);
    DealLeftToRight(s, g, p, i, split);
    var lLoc, rLoc, sep := Child(s.store[p], i), Child(s.store[p], i + 1), s.store[p].keys[i];
    var l, r := s.store[lLoc], s.store[rLoc];
    var k := l.keys[split];
    // room for the key nodes is there before any of them is set
    RoomInFront(s, g, p, i, split);
    assert r.empty >= KEY_NODE * (|l.keys| - split);
    var l', r' := GivenAway(l, split), TakenInFront(l, sep, r, split);
    var s1 := MovedState(s, p, i, l', r');
    MovedIsShared(s, p, i, l', r');
    SharedInsertable(s, g, p, i, split, l', r');
    DealLevel(s, g, p, i, split, l', r');
    ghost var g1 := SharedShape(s, g, p, i, EntryOf(k));
    SharedHeight(s, g, p, i, EntryOf(k));
    var s2;
    s2, g' := SetInternalKey(s1, p, i, k.rec, k.key, lLoc, rLoc, g1, {rLoc});
    assert {rLoc} - {rLoc} == {};
    DealDone(s, g, p, i, split, l', r', s2, g', lLoc);
    var left, zero := Pack(s2.store[lLoc], 0);
    s' := Replaced(s2, lLoc, left);
    PackPlace(s2, g', lLoc);
    PackedLevel(s2, g', lLoc);
    PackedFilled(s2, lLoc);
    RepackedKeys(s2.store[lLoc], l');
    SameUsedTransitive(s, s2, s');
  }

  /** Neighbours in a level tree, with two keys at least on either side of the key in the middle. */
  ghost predicate DealsLevel(s: State, g: Shape, p: Loc, i: nat, split: nat)
    requires p in s.store && i < |s.store[p].keys|
    requires Child(s.store[p], i) in s.store && Child(s.store[p], i + 1) in s.store
  {
    Level(s, g, {Child(s.store[p], i), Child(s.store[p], i + 1)}) && 2 <= split && split + 3 <= |PairKeys(s, p, i)|
  }

  lemma DealLevel(s: State, g: Shape, p: Loc, i: nat, split: nat, l': Bucket, r': Bucket)
    requires Pair(s, g, p, i) && Shares(s, p, i, split, l', r')
    ensures var l, r := Child(s.store[p], i), Child(s.store[p], i + 1);
            && l in s.store && r in s.store && l in g && r in g && split < |PairKeys(s, p, i)|
            && (DealsLevel(s, g, p, i, split) ==>
                  Ready(SharedState(s, p, i, l', r'), SharedShape(s, g, p, i, EntryOf(PairKeys(s, p, i)[split])), {}, p,
                    r))
  {
    hide Inv, Snug, Level, Ready, SharedState, SharedShape, SpaceOk, JoinedBucket;
    ShareLevel(s, g, p, i, split, l', r');
  }

  lemma PackedLevel(s: State, g: Shape, x: Loc)
    requires x in s.store
    ensures Level(s, g, {}) ==> Level(Replaced(s, x, PackedBucket(s.store[x], 0)), g, {})
  {
    hide Level, PackedBucket;
    if Level(s, g, {}) {
      PackLevel(s, g, {}, x, 0);
    }
  }

  lemma RepackedKeys(b: Bucket, b0: Bucket)
    requires SameBut(b0, b) && !b0.packed
    ensures PackedBucket(b, 0).keys == Kept(b0.keys, |b0.keys|, 0)
  {
  }

  lemma SharedHeight(s: State, g: Shape, p: Loc, i: nat, e: Entry)
    requires p in s.store && i < |s.store[p].keys| && Child(s.store[p], i) in g && Child(s.store[p], i + 1) in g
    requires p in g && p != Child(s.store[p], i) && p != Child(s.store[p], i + 1)
    ensures p in SharedShape(s, g, p, i, e) && SharedShape(s, g, p, i, e)[p] == g[p]
  {
  }

  lemma PackedFilled(s: State, x: Loc)
    requires Filled(s) && x in s.store
    ensures Filled(Replaced(s, x, PackedBucket(s.store[x], 0)))
  {
    PackedEmpty(s.store[x], 0);
    hide PackedBucket;
  }

  method BalanceRightToLeft(s: State, p: Loc, i: nat, split: nat, ghost g: Shape) returns (s': State, ghost g': Shape)
    requires Deal(s, g, p, i, split) && split > |s.store[Child(s.store[p], i)].keys|
    ensures Tree(s', g') && SameUsed(s, s') && Filled(s') && NewOnly(s, s') && KeysFrom(s, s', None)
    ensures var l, r := Child(s.store[p], i), Child(s.store[p], i + 1);
            && l in s.store && r in s.store && l in s'.store && r in s'.store
            && var all := PairKeys(s, p, i);
               split < |all| && s'.store[l].keys == all[..split]
                 && s'.store[r].keys == Kept(all[split+1..], |all| - split - 1, 0)
    ensures DealsLevel(s, g, p, i, split) ==> Level(s', g', {})
  {
    hide Level, Ready, DealsLevel, Inv, Has, Snug, PackedBucket, Bytes, JoinedBucket, SharedState, MovedState,
         SharedShape, SpaceOk,
         DropState, TakenBehind, FrontDropped, Adds, Fuller, Filled, Insertable, SameUsed, KeysFrom, FilledBut, Gap,
           Inside;
    PairParts(s, g, p, i);
    DealRightToLeft(s, g, p, i, split);
    var lLoc, rLoc, sep := Child(s.store[p], i), Child(s.store[p], i + 1), s.store[p].keys[i];
    var l, r := s.store[lLoc], s.store[rLoc];
    var m := split - |l.keys| - 1;
    var k := r.keys[m];
    var l', r' := TakenBehind(l, sep, r, m), FrontDropped(r, m);
    var s1 := MovedState(s, p, i, l', r');
    MovedIsShared(s, p, i, l', r');
    SharedInsertable(s, g, p, i, split, l', r');
    DealLevel(s, g, p, i, split, l', r');
    ghost var g1 := SharedShape(s, g, p, i, EntryOf(k));
    SharedHeight(s, g, p, i, EntryOf(k));
    var s2;
    s2, g' := SetInternalKey(s1, p, i, k.rec, k.key, lLoc, rLoc, g1, {rLoc});
    assert {rLoc} - {rLoc} == {};
    DealDone(s, g, p, i, split, l', r', s2, g', rLoc);
    var right, zero := Pack(s2.store[rLoc], 0);
    s' := Replaced(s2, rLoc, right);
    PackPlace(s2, g', rLoc);
    PackedLevel(s2, g', rLoc);
    PackedFilled(s2, rLoc);
    RepackedKeys(s2.store[rLoc], r');
    SameUsedTransitive(s, s2, s');
  }

  // ---- Merging, and balancing with the neighbours ----

  /** The packed size of a bucket. */
  method PackedDataSize(b: Bucket, ref: int) returns (size: int)
    requires SpaceOk(b)
    ensures size == Bytes(PackedBucket(b, ref).keys)
  {
    hide Bytes;
    if b.packed {
      return BUCKET_SIZE - b.empty - HEADER_SIZE;
    }
    NoBytes();
    size := 0;
    for j := 0 to |b.keys|
      invariant size == Bytes(Kept(b.keys, j, ref))
    {
      if MayDrop(b.keys, j, ref) {
        assert Kept(b.keys, j, ref) + [] == Kept(b.keys, j, ref);
        continue;
      }
      BytesPush(Kept(b.keys, j, ref), b.keys[j]);
      size := size + Cost(b.keys[j]);
    }
  }

  /** The index of a bucket among its parent's children. */
  method IndexInParent(s: State, loc: Loc, ghost g: Shape) returns (i: nat)
    requires Tree(s, g) && loc in s.store && loc != s.head
    ensures var p := s.store[loc].parent;
            p in s.store && i <= |s.store[p].keys| && Child(s.store[p], i) == loc
  {
    hide Inv;
    ParentOf(s, g, loc);
    var p := s.store[s.store[loc].parent];
    if p.next == loc {
      return |p.keys|;
    }
    i := 0;
    while i < |p.keys|
      invariant i <= |p.keys| && forall j | 0 <= j < i :: Child(p, j) != loc
    {
      if p.keys[i].child == loc {
        return;
      }
      i := i + 1;
    }
    assert false;
  }

  method CanMergeChildren(s: State, p: Loc, i: nat, ghost g: Shape) returns (can: bool)
    requires Neighbours(s, g, p, i)
    ensures Child(s.store[p], i) in s.store && Child(s.store[p], i + 1) in s.store
    ensures can <==> MergeFits(s, p, i)
  {
    hide Inv, PackedBucket, SpaceOk, Bytes;
    NeighbourParts(s, g, p, i);
    var l := PackedDataSize(s.store[Child(s.store[p], i)], 0);
    var r := PackedDataSize(s.store[Child(s.store[p], i + 1)], 0);
    return HEADER_SIZE + l + r + s.store[p].keys[i].key.size + KEY_NODE <= BUCKET_SIZE;
  }

  /** The only child of an empty bucket takes its place; it may become the root. */
  method ReplaceWithNextChild(s: State, loc: Loc, ghost g: Shape) returns (s': State, ghost g': Shape)
    requires Tree(s, g) && loc in s.store && s.store[loc].keys == [] && s.store[loc].next != NULL
    requires FilledBut(s, {loc})
    ensures Tree(s', g') && SameUsed(s, s') && Filled(s') && NewOnly(s, s') && KeysFrom(s, s', None) && loc !in s'.store
    ensures loc == s.head && Level(s, g, {loc}) ==> Level(s', g', {})
  {
    hide Level, Inv, Has, BypassedState, LoweredState;
    ParentlessTopOrNot(s, g, loc);
    if s.store[loc].parent == NULL {
      LowerKeeps(s, g);
      LowerLevel(s, g);
      s', g' := LoweredState(s), LoweredShape(s, g);
      forall e
        ensures Has(s', e) <==> Has(s, e)
      {
        LowerHas(s, g, e);
      }
      LowerKeys(s);
      SameKeysFrom(s, s');
    } else {
      var i := IndexInParent(s, loc, g);
      s', g' := Bypass(s, loc, i, g);
    }
  }

  lemma SameKeysFrom(s: State, s': State)
    requires forall x | x in s'.store :: x in s.store && s'.store[x].keys == s.store[x].keys
    ensures KeysFrom(s, s', None)
  {
    forall x, f | x in s'.store && Carries(s'.store[x], f)
      ensures Carried(s, f)
    {
      assert Carries(s.store[x], f);
    }
    NothingNew(s, s');
  }

  lemma BypassFrom(s: State, g: Shape, loc: Loc, p: Loc, i: nat)
    requires Bypassable(s, g, loc, p, i)
    ensures KeysFrom(s, BypassedState(s, loc, p, i), None)
  {
    hide Inv, BypassedState, SetChild;
    var s' := BypassedState(s, loc, p, i);
    BypassFrame(s, g, loc, p, i);
    forall x, f | x in s'.store && Carries(s'.store[x], f)
      ensures Carried(s, f)
    {
      if x == p {
        SetChildFrom(s.store[p], i, s.store[loc].next, f);
      }
      assert Carries(s.store[x], f);
    }
    NothingNew(s, s');
  }

  lemma SetChildFrom(b: Bucket, j: nat, c: Loc, f: Sized)
    requires j <= |b.keys| && Carries(SetChild(b, j, c), f)
    ensures Carries(b, f)
  {
    hide SetChild;
    SetChildAt(b, j, c, 0);
    var i :| 0 <= i < |SetChild(b, j, c).keys| && SizedOf(SetChild(b, j, c).keys[i]) == f;
    SetChildAt(b, j, c, i);
  }

  lemma ParentlessTopOrNot(s: State, g: Shape, x: Loc)
    requires Tree(s, g) && x in s.store
    ensures s.store[x].parent == NULL <==> x == s.head
    ensures s.head in s.store && s.head in g && NULL !in s.store
  {
    hide LocalOk, ChildrenOk, Attached;
    if x != s.head {
      ParentOf(s, g, x);
    }
  }

  lemma LowerKeys(s: State)
    requires s.head in s.store && s.store[s.head].next in s.store
    ensures forall x | x in LoweredState(s).store ::
              x in s.store && x != s.head && LoweredState(s).store[x].keys == s.store[x].keys
    ensures LoweredState(s).head == s.store[s.head].next && LoweredState(s).unusedFrom == s.unusedFrom
  {
  }

  /** An empty bucket leaves the tree; its only child, if there is one, takes its place under the parent. */
  method Bypass(s: State, loc: Loc, i: nat, ghost g: Shape) returns (s': State, ghost g': Shape)
    requires Tree(s, g) && loc in s.store && s.store[loc].keys == [] && loc != s.head && FilledBut(s, {loc})
    requires var p := s.store[loc].parent; p in s.store && i <= |s.store[p].keys| && Child(s.store[p], i) == loc
    ensures Tree(s', g') && SameUsed(s, s') && Filled(s') && NewOnly(s, s') && KeysFrom(s, s', None) && loc !in s'.store
  {
    hide Inv, Has, BypassedState, SetChild;
    var p := s.store[loc].parent;
    s', g' := BypassedState(s, loc, p, i), g - {loc};
    BypassKeeps(s, g, loc, p, i);
    BypassFrame(s, g, loc, p, i);
    SetChildAt(s.store[p], i, s.store[loc].next, 0);
    forall e
      ensures Has(s', e) <==> Has(s, e)
    {
      BypassHas(s, g, loc, p, i, e);
    }
    BypassFrom(s, g, loc, p, i);
  }

  /** Joins two neighbours into the left one, with the key between them; the parent may then be too small itself. */
  method DoMergeChildren(s: State, p: Loc, i: nat, ghost g: Shape, ghost fuel: nat) returns (s': State, ghost g': Shape)
    requires Neighbours(s, g, p, i)
    requires var l, r := Child(s.store[p], i), Child(s.store[p], i + 1);
             && l in s.store && r in s.store && FilledBut(s, {l, r}) && MergeFits(s, p, i)
             && p in g && s.head in g && g[s.head].height <= g[p].height + fuel
    ensures Tree(s', g') && SameUsed(s, s') && Filled(s') && NewOnly(s, s') && KeysFrom(s, s', None)
    ensures Child(s.store[p], i + 1) !in s'.store
    ensures MergesLevel(s, g, p, i) ==> Level(s', g', {})
    decreases fuel, 1
  {
    hide Level, MergesLevel, Inv, Has, Snug, PackedBucket, Bytes, MergedState, FittedShape, SpaceOk, DropState,
         Filled, SameUsed,
         KeysFrom, FilledBut, AbsorbedShape, Dropped, Rebalanced, NeedsBalance;
    NeighbourParts(s, g, p, i);
    PackPair(s, g, p, i);
    var lLoc, rLoc := Child(s.store[p], i), Child(s.store[p], i + 1);
    var l, zero := Pack(s.store[lLoc], 0);
    var r, zero' := Pack(s.store[rLoc], 0);
    var s1 := Replaced(Replaced(s, lLoc, l), rLoc, r);
    NeighbourParts(s1, g, p, i);
    ghost var g1 := FittedShape(s1, g);
    Refit(s1, g);
    MergeKeeps(s1, g1, p, i);
    MergeHas(s1, g1, p, i);
    MergeFrom(s1, g1, p, i);
    MergeFrame(s1, g1, p, i);
    MergingLevel(s, g, p, i);
    var s2 := MergedState(s1, p, i);
    ghost var g2 := AbsorbedShape(g1, Child(s.store[p], i), Child(s.store[p], i + 1));
    MergeFilled(s1, s2, p, i);
    SameUsedTransitive(s, s1, s2);
    DroppedAt(s.store[p], i, Child(s.store[p], i), i);
    if s2.store[p].keys == [] {
      s', g' := ReplaceWithNextChild(s2, p, g2);
    } else {
      var done;
      done, s', g' := MayBalanceWithNeighbors(s2, p, g2, fuel);
      if !done {
        FilledAll(s2, p);
        BigEnough(s2, p, g2);
      }
    }
    SameUsedTransitive(s, s2, s');
  }

  /** Neighbours in a level tree, with a key between them above the leaves. */
  ghost predicate MergesLevel(s: State, g: Shape, p: Loc, i: nat)
    requires p in s.store && i < |s.store[p].keys|
  {
    var l, r := Child(s.store[p], i), Child(s.store[p], i + 1);
    && l in s.store && r in s.store && l in g && Level(s, g, {l, r})
    && (g[l].height > 0 ==> |s.store[l].keys| + |s.store[r].keys| >= 1)
  }

  /** The merge itself: the parent has a key left, or was the root. */
  lemma MergingLevel(s: State, g: Shape, p: Loc, i: nat)
    requires Neighbours(s, g, p, i)
    ensures var l, r := Child(s.store[p], i), Child(s.store[p], i + 1);
            && l in s.store && r in s.store && l != r
            && var s1 := PackedPair(s, p, i);
               && Neighbours(s1, g, p, i)
               && var g1 := FittedShape(s1, g);
                  && l in s1.store && r in s1.store && l in g1 && r in g1 && Child(s1.store[p], i) == l
                  && Child(s1.store[p], i + 1) == r
                  && var s2, g2 := MergedState(s1, p, i), AbsorbedShape(g1, l, r);
                     && p in s2.store && p in g2
                     && (MergesLevel(s, g, p, i) ==>
                           Level(s2, g2, {p}) && Enough(s2, g2, p) && (s2.store[p].keys == [] ==> p == s2.head))
  {
    hide Inv, Snug, PackedBucket, MergedState, FittedShape, Level, Dropped, AbsorbedShape, SpaceOk;
    NeighbourParts(s, g, p, i);
    PackPair(s, g, p, i);
    var l, r := Child(s.store[p], i), Child(s.store[p], i + 1);
    var s1 := PackedPair(s, p, i);
    NeighbourParts(s1, g, p, i);
    Refit(s1, g);
    MergeFrame(s1, FittedShape(s1, g), p, i);
    MergeLevel(s1, FittedShape(s1, g), p, i);
    DroppedRest(s1.store[p], i, l);
    if MergesLevel(s, g, p, i) {
      PackedPairLevel(s, g, p, i);
      PairLevel(s, g, {l, r}, p, i);
      WideParent(s, g, p, l, r);
    }
  }

  /** A bucket that was not balanced had keys enough. */
  lemma BigEnough(s: State, p: Loc, g: Shape)
    requires Tree(s, g) && p in s.store && p in g && s.store[p].keys != [] && !NeedsBalance(s, p)
    ensures Level(s, g, {p}) ==> Level(s, g, {})
  {
    hide Inv, NeedsBalance, PackedBucket;
    if Level(s, g, {p}) {
      if p != s.head && g[p].height > 0 {
        NoNeed(s, g, p);
      }
      assert WideAt(s, g, p);
    }
  }

  /** In a level tree every bucket but the root has a neighbour. */
  lemma HasNeighbour(s: State, g: Shape, p: Loc, loc: Loc)
    requires Tree(s, g) && Level(s, g, {loc}) && loc in s.store && loc != s.head && p == s.store[loc].parent
    ensures p != NULL && exists i: nat :: Beside(s, p, i, loc)
  {
    hide Inv;
    ParentOf(s, g, loc);
    ParentlessTopOrNot(s, g, loc);
    var b := s.store[p];
    assert WideAt(s, g, p);
    var j :| 0 <= j <= |b.keys| && Child(b, j) == loc;
    var i := if j == |b.keys| then j - 1 else j;
    KidAt(s, g, {loc}, p, i);
    KidAt(s, g, {loc}, p, i + 1);
    ChildAt(s, g, p, i);
    ChildAt(s, g, p, i + 1);
    assert Beside(s, p, i, loc);
  }

  lemma NoNeed(s: State, g: Shape, p: Loc)
    requires Tree(s, g) && Level(s, g, {p}) && p in s.store && p != s.head && !NeedsBalance(s, p) && p in g
             && g[p].height > 0
    ensures |s.store[p].keys| >= 2
  {
    hide Inv, PackedBucket, Bytes, Level, Beside;
    HasNeighbour(s, g, s.store[p].parent, p);
    PackLevel(s, g, {p}, p, 0);
    LocalAt(s, g, {}, p);
    MarkWide(s.store[p].keys);
  }

  lemma FilledAll(s: State, p: Loc)
    requires FilledBut(s, {p}) && p in s.store && s.store[p].keys != []
    ensures Filled(s)
  {
  }

  lemma MergeFilled(s: State, s': State, p: Loc, i: nat)
    requires p in s.store && i < |s.store[p].keys|
    requires var l, r := Child(s.store[p], i), Child(s.store[p], i + 1);
             && FilledBut(s, {l, r}) && s'.head == s.head && s'.store.Keys == s.store.Keys - {r} && l in s'.store
             && s'.store[l].keys != []
             && forall x | x in s'.store && x != l && x != p :: s'.store[x].keys == s.store[x].keys
    ensures FilledBut(s', {p})
  {
  }

  /** The bucket at `loc` is child `i` or `i + 1` of the one at `p`, and both are there. */
  ghost predicate Beside(s: State, p: Loc, i: nat, loc: Loc) {
    && p in s.store && i < |s.store[p].keys| && Child(s.store[p], i) in s.store && Child(s.store[p], i + 1) in s.store
    && (Child(s.store[p], i) == loc || Child(s.store[p], i + 1) == loc)
  }

  /** A bucket other than the root is below the low-water mark and has a neighbour. */
  ghost predicate NeedsBalance(s: State, loc: Loc)
    requires loc in s.store
  {
    && s.store[loc].parent != NULL && Bytes(PackedBucket(s.store[loc], 0).keys) < LOW_WATER
    && exists i: nat :: Beside(s, s.store[loc].parent, i, loc)
  }

  /** Of the two, the bucket at `loc` is the left one. */
  ghost predicate LeftOne(s: State, p: Loc, i: nat, loc: Loc) {
    Beside(s, p, i, loc) && Child(s.store[p], i) == loc
  }

  /** The neighbour to the right of it, if there is one, fits into one bucket with it. */
  ghost predicate RightFits(s: State, p: Loc, loc: Loc) {
    forall j: nat | LeftOne(s, p, j, loc) :: MergeFits(s, p, j)
  }

  ghost predicate NoneRight(s: State, p: Loc, loc: Loc) {
    forall j: nat :: !LeftOne(s, p, j, loc)
  }

  /**
   It has shared keys with a neighbour, or has been merged with one because no neighbour was too big for that.
   The one to the left comes in only if the one to the right does not.
   */
  ghost predicate Rebalanced(s: State, loc: Loc, s': State)
    requires loc in s.store
  {
    var p := s.store[loc].parent;
    exists i: nat | Beside(s, p, i, loc) ::
      if MergeFits(s, p, i) then
        && Child(s.store[p], i + 1) !in s'.store && (forall j: nat | Beside(s, p, j, loc) :: MergeFits(s, p, j))
        && (LeftOne(s, p, i, loc) || NoneRight(s, p, loc))
      else Dealt(s, s', p, i) && (LeftOne(s, p, i, loc) || RightFits(s, p, loc))
  }

  lemma BesideOnly(s: State, g: Shape, p: Loc, i: nat, loc: Loc)
    requires Tree(s, g) && p in s.store && i <= |s.store[p].keys| && Child(s.store[p], i) == loc && loc in s.store
    ensures forall j: nat | Beside(s, p, j, loc) :: j == i || j + 1 == i
    ensures forall j: nat | LeftOne(s, p, j, loc) :: j == i
    ensures forall j: nat | j <= |s.store[p].keys| :: Child(s.store[p], j) != NULL ==> Child(s.store[p], j) in s.store
    ensures NULL !in s.store
  {
    hide LocalOk, Attached, ChildrenOk;
    forall j: nat | Beside(s, p, j, loc)
      ensures j == i || j + 1 == i
      ensures LeftOne(s, p, j, loc) ==> j == i
    {
      OnlySlot(s, g, p, i, if Child(s.store[p], j) == loc then j else j + 1);
    }
    forall j: nat | j <= |s.store[p].keys| && Child(s.store[p], j) != NULL
      ensures Child(s.store[p], j) in s.store
    {
      ChildAt(s, g, p, j);
    }
    ParentlessHead(s, g);
  }

  /**
   Balances or merges a bucket that has become too small with a neighbour; says whether
   there was one to do it with.
   */
  method MayBalanceWithNeighbors(s: State, loc: Loc, ghost g: Shape, ghost fuel: nat) returns (done: bool, s': State,
      ghost g': Shape)
    requires Tree(s, g) && loc in s.store && FilledBut(s, {loc}) && s.head in g
             && g[s.head].height <= g[loc].height + fuel
    ensures Tree(s', g') && SameUsed(s, s') && NewOnly(s, s') && KeysFrom(s, s', None)
    ensures done <==> NeedsBalance(s, loc)
    ensures done ==> Filled(s') && Rebalanced(s, loc, s')
    ensures !done ==> s' == s && g' == g
    ensures done && Level(s, g, {loc}) && Enough(s, g, loc) ==> Level(s', g', {})
    decreases fuel, 0
  {
    hide Level, Enough, MergesLevel, Inv, Has, PackedBucket, Bytes, SpaceOk, Filled, SameUsed, KeysFrom, FilledBut,
         MergeFits, Dealt;
    NothingChanged(s);
    ParentlessTopOrNot(s, g, loc);
    LocalAt(s, g, {}, loc);
    if s.store[loc].parent == NULL {
      return false, s, g;
    }
    var size := PackedDataSize(s.store[loc], 0);
    if size >= LOW_WATER {
      return false, s, g;
    }
    var p := s.store[loc].parent;
    var i := IndexInParent(s, loc, g);
    ParentOf(s, g, loc);
    var b := s.store[p];
    var right := i < |b.keys| && Child(b, i + 1) != NULL;
    var left := i > 0 && Child(b, i - 1) != NULL;
    BesideOnly(s, g, p, i, loc);
    assert right ==> Beside(s, p, i, loc);
    assert left ==> Beside(s, p, i - 1, loc);
    if right {
      var can := CanMergeChildren(s, p, i, g);
      FilledMore(s, loc, Child(b, i + 1));
      LevelBeside(s, g, p, i, loc);
      if !can {
        s', g' := DoBalanceChildren(s, p, i, g);
        return true, s', g';
      }
    }
    if left {
      var can := CanMergeChildren(s, p, i - 1, g);
      FilledMore(s, loc, Child(b, i - 1));
      LevelBeside(s, g, p, i - 1, loc);
      if !can {
        s', g' := DoBalanceChildren(s, p, i - 1, g);
        return true, s', g';
      }
    }
    if right {
      s', g' := DoMergeChildren(s, p, i, g, fuel - 1);
      return true, s', g';
    } else if left {
      s', g' := DoMergeChildren(s, p, i - 1, g, fuel - 1);
      return true, s', g';
    }
    return false, s, g;
  }

  lemma LevelBeside(s: State, g: Shape, p: Loc, i: nat, loc: Loc)
    requires Neighbours(s, g, p, i) && (Child(s.store[p], i) == loc || Child(s.store[p], i + 1) == loc)
    ensures Level(s, g, {loc}) && Enough(s, g, loc) ==>
              Level(s, g, {Child(s.store[p], i), Child(s.store[p], i + 1)}) && MergesLevel(s, g, p, i)
  {
    hide Inv, Level;
    NeighbourParts(s, g, p, i);
    if Level(s, g, {loc}) && Enough(s, g, loc) {
      PairLevel(s, g, {loc}, p, i);
      LevelLess(s, g, {loc}, {Child(s.store[p], i), Child(s.store[p], i + 1)});
    }
  }

  lemma NothingChanged(s: State)
    ensures SameUsed(s, s) && NewOnly(s, s) && KeysFrom(s, s, None)
  {
  }

  lemma FilledMore(s: State, a: Loc, b: Loc)
    requires FilledBut(s, {a})
    ensures FilledBut(s, {a, b}) && FilledBut(s, {b, a})
  {
  }
}
