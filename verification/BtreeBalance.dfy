/** Merging a bucket with a neighbour, and sharing keys out between two neighbours. */
module BtreeBalance {
  import opened Basics
  import opened Bucket
  import opened BtreeShape
  import opened BtreePack
  import opened BtreeSplit
  import opened BtreeInsert
  import opened BtreeOrder
  import opened BtreeDrop
  import opened BtreeJoin

  ghost predicate SameUsed(s: State, s': State) {
    forall e :: Has(s', e) <==> Has(s, e)
  }

  /** Every bucket but the root and those named has a key. */
  ghost predicate FilledBut(s: State, these: set<Loc>) {
    forall x | x in s.store && x != s.head && x !in these :: s.store[x].keys != []
  }

  // ---- Two neighbours under one parent ----

  /** Children `i` and `i + 1` of the bucket at `p` are both there. */
  ghost predicate Pair(s: State, g: Shape, p: Loc, i: nat) {
    && Tree(s, g) && Snug(s, g) && p in s.store && i < |s.store[p].keys|
    && Child(s.store[p], i) != NULL && Child(s.store[p], i + 1) != NULL
  }

  lemma PairParts(s: State, g: Shape, p: Loc, i: nat)
    requires Pair(s, g, p, i)
    ensures var l, r, sep := Child(s.store[p], i), Child(s.store[p], i + 1), s.store[p].keys[i];
            && l in s.store && r in s.store && l in g && r in g && p in g && l != r && l != p && r != p
            && l != s.head && r != s.head
            && p != NULL && l != NULL && r != NULL && s.store[l].parent == p && s.store[r].parent == p
            && g[l].height < g[p].height && g[r].height < g[p].height <= g[s.head].height
            && LocalOk(s.store[l], g[l]) && LocalOk(s.store[r], g[r]) && LocalOk(s.store[p], g[p])
            && g[l].lo == SlotLo(s.store[p], g[p], i) && g[l].hi == Some(EntryOf(sep))
            && g[r].lo == Some(EntryOf(sep)) && g[r].hi == SlotHi(s.store[p], g[p], i + 1)
            && s.head in s.store && s.head in g && NULL !in s.store
  {
    hide LocalOk, Attached;
    ChildAt(s, g, p, i);
    ChildAt(s, g, p, i + 1);
    assert SnugAt(s, g, p, i) && SnugAt(s, g, p, i + 1);
    assert ChildrenOk(s, g, p);
  }

  /** With the key between them taken out, the right one hangs loose and can be joined to the left one. */
  lemma PairAbsorbable(s: State, g: Shape, p: Loc, i: nat)
    requires Pair(s, g, p, i)
    ensures var l, r, sep := Child(s.store[p], i), Child(s.store[p], i + 1), s.store[p].keys[i];
            Absorbable(DropState(s, p, i, l), g, {r}, p, i, l, r, sep)
  {
    hide Inv, DropState, Dropped, SpaceOk, Snug;
    var b := s.store[p];
    PairParts(s, g, p, i);
    var l, r, sep := Child(b, i), Child(b, i + 1), b.keys[i];
    DropKeeps(s, g, {}, p, i, l, r);
    assert Loosened({}, r) == {r};
    DropFrame(s, p, i, l);
    DroppedAt(b, i, l, i);
    DroppedSlots(b, g[p], i, l, i);
    InsideItself(JoinedInfo(g[l], g[r]));
    LessTransitive(EntryOf(sep), EntryOf(sep), EntryOf(sep));
  }

  lemma PairHas(s: State, g: Shape, p: Loc, i: nat, e: Entry)
    requires Pair(s, g, p, i)
    ensures var l, r, sep := Child(s.store[p], i), Child(s.store[p], i + 1), s.store[p].keys[i];
            && l in s.store && r in s.store && l != r && l in DropState(s, p, i, l).store
            && r in DropState(s, p, i, l).store
            && (Has(AbsorbedState(DropState(s, p, i, l), l, r, sep), e) <==> Has(s, e))
  {
    hide Inv, DropState, Dropped, SpaceOk, Snug, AbsorbedState, Absorbable, Has;
    PairParts(s, g, p, i);
    var l, r, sep := Child(s.store[p], i), Child(s.store[p], i + 1), s.store[p].keys[i];
    PairAbsorbable(s, g, p, i);
    DropFrame(s, p, i, l);
    DropHas(s, p, i, l, e);
    AbsorbHas(DropState(s, p, i, l), g, {r}, p, i, l, r, sep, e);
  }

  /** The space accounting does not matter for the links. */
  lemma RespaceKeeps(s: State, g: Shape, loose: set<Loc>, loc: Loc, b: Bucket)
    requires Links(s, g, loose) && loc in s.store
    requires b.keys == s.store[loc].keys && b.next == s.store[loc].next && b.parent == s.store[loc].parent
    ensures Links(Replaced(s, loc, b), g, loose)
  {
    hide ChildrenOk, IsChildOf;
    var s' := Replaced(s, loc, b);
    assert s'.store.Keys == s.store.Keys;
    forall x | x in s'.store
      ensures ChildrenOk(s', g, x)
    {
      forall c | c in s.store && c in g && IsChildOf(s.store[x], c)
        ensures Inside(g[c], g[c].lo, g[c].hi)
      {
        InsideItself(g[c]);
      }
      OtherChildren(s, s', g, g, x);
    }
    forall x, c | x in s'.store && c in loose
      ensures !IsChildOf(s'.store[x], c)
    {
      SameIsChildOf(s.store[x], s'.store[x], c);
    }
    forall c | c in s'.store && c != s'.head && c !in loose
      ensures Attached(s', c)
    {
      assert Attached(s, c);
      SameIsChildOf(s.store[s.store[c].parent], s'.store[s.store[c].parent], c);
    }
  }

  /** After the join: the joined bucket is in order, and all others are what they were. */
  lemma AbsorbedLocals(s: State, g: Shape, loose: set<Loc>, p: Loc, j: nat, l: Loc, r: Loc, sep: KeyNode)
    requires Absorbable(s, g, loose, p, j, l, r, sep)
    ensures var a, ga := AbsorbedState(s, l, r, sep), AbsorbedShape(g, l, r);
            && Links(a, ga, loose - {r})
            && l in a.store && l in ga && Sorted(a.store[l].keys) && Within(a.store[l].keys, ga[l])
            && a.store[l] == JoinedBucket(s.store[l], sep, s.store[r])
            && r !in a.store && p in a.store && a.store[p] == s.store[p] && ga[p] == g[p] && r > NULL
            && (forall x | x in a.store && x != l :: x in ga && LocalOk(a.store[x], ga[x]))
            && (forall x | x in a.store && x != l ::
                 x in s.store && a.store[x].keys == s.store[x].keys && a.store[x].next == s.store[x].next)
            && a.store.Keys == s.store.Keys - {r} && a.head == s.head && a.unusedFrom == s.unusedFrom
            && r < s.unusedFrom
            && a.head in ga && ga[a.head] == g[s.head]
  {
    hide JoinedBucket, Separates, AbsorbedState, SpaceOk, IsChildOf, ChildrenOk, Attached, Sorted, Within, Inside,
         SlotLo, SlotHi;
    var a, ga := AbsorbedState(s, l, r, sep), AbsorbedShape(g, l, r);
    AbsorbKeeps(s, g, loose, p, j, l, r, sep);
    AbsorbFrame(s, g, loose, p, j, l, r, sep);
    assert LocalOk(s.store[l], g[l]) && LocalOk(s.store[r], g[r]);
    JoinedOrder(s.store[l], g[l], sep, s.store[r], g[r]);
    forall x | x in a.store && x != l
      ensures x in ga && LocalOk(a.store[x], ga[x])
    {
      SameLocal(s.store[x], a.store[x], g[x]);
    }
    LocsPositive(s, g, loose, r);
  }

  lemma LocsPositive(s: State, g: Shape, loose: set<Loc>, x: Loc)
    requires Links(s, g, loose) && x in s.store
    ensures x < s.unusedFrom && x > NULL
  {
  }

  // ---- Merging ----

  /** The keys of two packed neighbours with their separator, in a bucket of their own. */
  function Merged(l: Bucket, sep: KeyNode, r: Bucket): Bucket {
    JoinedBucket(l, sep, r).(empty := l.empty - Cost(sep) - Bytes(r.keys))
  }

  function MergedState(s: State, p: Loc, i: nat): State
    requires p in s.store && i < |s.store[p].keys|
    requires Child(s.store[p], i) in s.store && Child(s.store[p], i + 1) in s.store
             && Child(s.store[p], i) != Child(s.store[p], i + 1)
  {
    var l, r, sep := Child(s.store[p], i), Child(s.store[p], i + 1), s.store[p].keys[i];
    var d := DropState(s, p, i, l);
    Replaced(AbsorbedState(d, l, r, sep), l, Merged(d.store[l], sep, d.store[r]))
  }

  lemma MergedSpace(l: Bucket, sep: KeyNode, r: Bucket)
    requires SpaceOk(l) && l.packed && SpaceOk(r) && 1 <= sep.key.size <= KEY_MAX
    requires Bytes(l.keys) + Cost(sep) + Bytes(r.keys) <= BODY
    ensures SpaceOk(Merged(l, sep, r))
  {
    hide Bytes;
    JoinedBytes(l.keys, sep.(child := l.next), r.keys);
    BytesBounds(r.keys);
  }

  lemma MergeKeeps(s: State, g: Shape, p: Loc, i: nat)
    requires Pair(s, g, p, i)
    ensures var l, r, sep := Child(s.store[p], i), Child(s.store[p], i + 1), s.store[p].keys[i];
            && l in s.store && r in s.store && l in g && r in g && l != r
            && (s.store[l].packed && Bytes(s.store[l].keys) + Cost(sep) + Bytes(s.store[r].keys) <= BODY ==>
                  Tree(MergedState(s, p, i), AbsorbedShape(g, l, r)))
  {
    hide Inv, DropState, Dropped, Snug, Absorbable, AbsorbedState, JoinedBucket, Merged, Bytes, Sorted, Within;
    PairParts(s, g, p, i);
    var l, r, sep := Child(s.store[p], i), Child(s.store[p], i + 1), s.store[p].keys[i];
    if s.store[l].packed && Bytes(s.store[l].keys) + Cost(sep) + Bytes(s.store[r].keys) <= BODY {
      PairAbsorbable(s, g, p, i);
      var d := DropState(s, p, i, l);
      DropFrame(s, p, i, l);
      AbsorbedLocals(d, g, {r}, p, i, l, r, sep);
      var a, ga := AbsorbedState(d, l, r, sep), AbsorbedShape(g, l, r);
      var m := Merged(d.store[l], sep, d.store[r]);
      MergedSpace(d.store[l], sep, d.store[r]);
      MergedSame(d.store[l], sep, d.store[r]);
      RespaceKeeps(a, ga, {r} - {r}, l, m);
      assert {r} - {r} == {};
      AllLocal(Replaced(a, l, m), ga, l);
    }
  }

  lemma MergedSame(l: Bucket, sep: KeyNode, r: Bucket)
    ensures var m, j := Merged(l, sep, r), JoinedBucket(l, sep, r);
            m.keys == j.keys && m.next == j.next && m.parent == j.parent && m.packed == l.packed && m.keys != []
  {
  }

  lemma AllLocal(s: State, g: Shape, l: Loc)
    requires Links(s, g, {}) && l in s.store && l in g && LocalOk(s.store[l], g[l])
    requires forall x | x in s.store && x != l :: x in g && LocalOk(s.store[x], g[x])
    ensures Tree(s, g)
  {
    hide Links, LocalOk;
  }

  lemma MergeHas(s: State, g: Shape, p: Loc, i: nat)
    requires Pair(s, g, p, i)
    ensures var l, r := Child(s.store[p], i), Child(s.store[p], i + 1);
            l in s.store && r in s.store && l != r && SameUsed(s, MergedState(s, p, i))
  {
    hide Inv, DropState, Dropped, Snug, Absorbable, AbsorbedState, JoinedBucket, Merged, Has;
    PairParts(s, g, p, i);
    var l, r, sep := Child(s.store[p], i), Child(s.store[p], i + 1), s.store[p].keys[i];
    var d := DropState(s, p, i, l);
    DropFrame(s, p, i, l);
    PairAbsorbable(s, g, p, i);
    AbsorbedLocals(d, g, {r}, p, i, l, r, sep);
    var a := AbsorbedState(d, l, r, sep);
    var m := Merged(d.store[l], sep, d.store[r]);
    MergedSame(d.store[l], sep, d.store[r]);
    forall e
      ensures Has(MergedState(s, p, i), e) <==> Has(s, e)
    {
      PairHas(s, g, p, i, e);
      SameKeysHold(a.store[l], m, e);
      ReplaceHas(a, l, m, e);
    }
  }

  lemma SameKeysHold(a: Bucket, b: Bucket, e: Entry)
    requires a.keys == b.keys
    ensures Holds(a, e) <==> Holds(b, e)
  {
  }

  /** What a merge leaves alone. */
  lemma MergeFrame(s: State, g: Shape, p: Loc, i: nat)
    requires Pair(s, g, p, i)
    ensures var l, r := Child(s.store[p], i), Child(s.store[p], i + 1);
            && l in s.store && r in s.store && l != r && r in g && l in g
            && var s' := MergedState(s, p, i);
               var g' := AbsorbedShape(g, l, r);
               && s'.store.Keys == s.store.Keys - {r} && s'.head == s.head && s'.unusedFrom == s.unusedFrom
               && r < s.unusedFrom && s'.store[l].keys != []
               && p in s'.store && s'.store[p] == Dropped(s.store[p], i, l) && p in g' && g'[p] == g[p]
               && s'.head in g' && g'[s'.head] == g[s.head]
               && (forall x | x in s'.store && x != l && x != p :: s'.store[x].keys == s.store[x].keys)
  {
    hide Inv, DropState, Dropped, Snug, Absorbable, AbsorbedState, JoinedBucket, Merged, Links, LocalOk, Sorted, Within,
         SlotLo, SlotHi;
    PairParts(s, g, p, i);
    var l, r, sep := Child(s.store[p], i), Child(s.store[p], i + 1), s.store[p].keys[i];
    var d := DropState(s, p, i, l);
    DropFrame(s, p, i, l);
    PairAbsorbable(s, g, p, i);
    AbsorbedLocals(d, g, {r}, p, i, l, r, sep);
    MergedSame(d.store[l], sep, d.store[r]);
  }

  // ---- Sharing out ----

  /** The keys of two neighbours are in the buckets `l'` and `r'` now, with key `split` of them all left out. */
  function SharedState(s: State, p: Loc, i: nat, l': Bucket, r': Bucket): State
    requires p in s.store && i < |s.store[p].keys|
  {
    var l, r := Child(s.store[p], i), Child(s.store[p], i + 1);
    s.(store := map x | x in s.store ::
         if x == l then l' else if x == r then r' else if x == p then Dropped(s.store[p], i, l)
         else if x in Kids(r') then s.store[x].(parent := r) else if x in Kids(l') then s.store[x].(parent := l)
         else s.store[x])
  }

  /** What the two new buckets must be, given all keys together. */
  ghost predicate Shares(s: State, p: Loc, i: nat, split: nat, l': Bucket, r': Bucket)
    requires p in s.store && i < |s.store[p].keys|
  {
    var l, r, sep := Child(s.store[p], i), Child(s.store[p], i + 1), s.store[p].keys[i];
    && l in s.store && r in s.store
    && var all := JoinedBucket(s.store[l], sep, s.store[r]);
       && split < |all.keys| && SpaceOk(l') && SpaceOk(r')
       && l'.parent == p && l'.keys == all.keys[..split] && l'.next == all.keys[split].child
       && r'.parent == p && r'.keys == all.keys[split+1..] && r'.next == all.next
  }

  /** The two neighbours joined into one bucket, for the proof: the buckets in between need not fit. */
  ghost function PairJoined(s: State, p: Loc, i: nat): State
    requires p in s.store && i < |s.store[p].keys|
    requires Child(s.store[p], i) in s.store && Child(s.store[p], i + 1) in s.store
             && Child(s.store[p], i) != Child(s.store[p], i + 1)
  {
    AbsorbedState(DropState(s, p, i, Child(s.store[p], i)), Child(s.store[p], i), Child(s.store[p], i + 1),
      s.store[p].keys[i])
  }

  ghost function PairShape(s: State, g: Shape, p: Loc, i: nat): Shape
    requires p in s.store && i < |s.store[p].keys| && Child(s.store[p], i) in g && Child(s.store[p], i + 1) in g
  {
    AbsorbedShape(g, Child(s.store[p], i), Child(s.store[p], i + 1))
  }

  /** What is known of the joined state. */
  lemma JoinedFacts(s: State, g: Shape, p: Loc, i: nat)
    requires Pair(s, g, p, i)
    ensures var b := s.store[p];
            var l, r, sep := Child(b, i), Child(b, i + 1), b.keys[i];
            && l in s.store && r in s.store && l in g && r in g && p in g && l != r && l != p && p != r && r != NULL
            && s.store[l].parent == p
            && l != s.head && r != s.head && s.head in g && s.head in s.store
            && var a, ga := PairJoined(s, p, i), PairShape(s, g, p, i);
               && Links(a, ga, {}) && l in a.store && l in ga && p in ga && ga[p] == g[p] && r > NULL
               && r < s.unusedFrom && r !in a.store && a.head in ga
               && Sorted(a.store[l].keys) && Within(a.store[l].keys, ga[l])
               && a.store[l] == JoinedBucket(s.store[l], sep, s.store[r])
               && p in a.store && a.store[p] == Dropped(b, i, l) && i <= |a.store[p].keys| && Child(a.store[p], i) == l
               && (forall x | x in a.store && x != l :: x in ga && LocalOk(a.store[x], ga[x]))
               && (forall x | x in a.store && x != l && x != p :: x in s.store && a.store[x].keys == s.store[x].keys)
               && a.store.Keys == s.store.Keys - {r} && a.head == s.head && a.unusedFrom == s.unusedFrom
               && ga[a.head] == g[s.head]
  {
    hide Inv, DropState, Dropped, Snug, Absorbable, AbsorbedState, JoinedBucket;
    PairParts(s, g, p, i);
    var l, r, sep := Child(s.store[p], i), Child(s.store[p], i + 1), s.store[p].keys[i];
    DropFrame(s, p, i, l);
    DroppedAt(s.store[p], i, l, i);
    PairAbsorbable(s, g, p, i);
    AbsorbedLocals(DropState(s, p, i, l), g, {r}, p, i, l, r, sep);
    assert {r} - {r} == {};
  }

  /** Where the children of the two neighbours point to, before and after. */
  lemma JoinedParents(s: State, g: Shape, p: Loc, i: nat, x: Loc)
    requires Pair(s, g, p, i) && x in s.store && x != Child(s.store[p], i) && x != Child(s.store[p], i + 1)
    ensures var b := s.store[p];
            var l, r, sep := Child(b, i), Child(b, i + 1), b.keys[i];
            && l in s.store && r in s.store && l != r
            && var a, all := PairJoined(s, p, i), JoinedBucket(s.store[l], sep, s.store[r]);
               && x in a.store
               && (IsChildOf(all, x) ==>
                    x != p && a.store[x] == s.store[x].(parent := l)
                      && (IsChildOf(s.store[r], x) || s.store[x].parent == l))
               && (!IsChildOf(all, x) ==> a.store[x] == if x == p then Dropped(b, i, l) else s.store[x])
  {
    hide Inv, DropState, Dropped, Snug, Absorbable, AbsorbedState, JoinedBucket, IsChildOf;
    PairParts(s, g, p, i);
    var l, r, sep := Child(s.store[p], i), Child(s.store[p], i + 1), s.store[p].keys[i];
    var d := DropState(s, p, i, l);
    DropFrame(s, p, i, l);
    PairAbsorbable(s, g, p, i);
    AbsorbFrame(d, g, {r}, p, i, l, r, sep);
    JoinedChildren(s.store[l], sep, s.store[r], x);
    if IsChildOf(s.store[l], x) {
      TreeParent(s, g, l, x);
    }
    if IsChildOf(s.store[r], x) {
      TreeParent(s, g, r, x);
    }
  }

  lemma TreeParent(s: State, g: Shape, x: Loc, c: Loc)
    requires Tree(s, g) && x in s.store && c in s.store && IsChildOf(s.store[x], c)
    ensures s.store[c].parent == x && g[c].height < g[x].height
  {
    hide LocalOk, ChildrenOk, IsChildOf, Attached;
    ParentIs(s, g, x, c);
  }

  /** Sharing out is joining and splitting again, at another key. */
  lemma SharedIs(s: State, g: Shape, p: Loc, i: nat, split: nat, l': Bucket, r': Bucket)
    requires Pair(s, g, p, i) && Shares(s, p, i, split, l', r')
    ensures var l, r := Child(s.store[p], i), Child(s.store[p], i + 1);
            && l != r && l in PairJoined(s, p, i).store && split < |PairJoined(s, p, i).store[l].keys|
            && SharedState(s, p, i, l', r') ==
                 Replaced(Replaced(SplitState(PairJoined(s, p, i), l, split, r), l, l'), r, r')
  {
    hide Inv, Dropped, Snug, JoinedBucket, IsChildOf, PairJoined, SplitState, LeftHalf, RightHalf, Links, LocalOk,
         SpaceOk, Sorted, Within;
    JoinedFacts(s, g, p, i);
    var l, r, sep := Child(s.store[p], i), Child(s.store[p], i + 1), s.store[p].keys[i];
    var a, all := PairJoined(s, p, i), JoinedBucket(s.store[l], sep, s.store[r]);
    LinksDomain(a, PairShape(s, g, p, i), {}, l, r);
    SplitFrame(a, PairShape(s, g, p, i), l, split, r);
    var one, two := SharedState(s, p, i, l', r'), Replaced(Replaced(SplitState(a, l, split, r), l, l'), r, r');
    forall x | x in s.store && x != l && x != r
      ensures one.store[x] == two.store[x]
    {
      JoinedParents(s, g, p, i, x);
      HalvesChildren(all, split, x);
      HalvesKids(all, split, l', r', x);
      if IsChildOf(s.store[r], x) {
        JoinedChildren(s.store[l], sep, s.store[r], x);
      }
    }
    assert one.store == two.store;
  }

  lemma HalvesKids(all: Bucket, split: nat, l': Bucket, r': Bucket, x: Loc)
    requires split < |all.keys| && l'.keys == all.keys[..split] && l'.next == all.keys[split].child
    requires r'.keys == all.keys[split+1..] && r'.next == all.next
    ensures x in Kids(l') <==> IsChildOf(LeftHalf(all, split), x)
    ensures x in Kids(r') <==> IsChildOf(RightHalf(all, split), x)
  {
    hide Bytes;
    SameIsChildOf(l', LeftHalf(all, split), x);
    SameIsChildOf(r', RightHalf(all, split), x);
  }

  ghost function SharedShape(s: State, g: Shape, p: Loc, i: nat, e: Entry): Shape
    requires p in s.store && i < |s.store[p].keys| && Child(s.store[p], i) in g && Child(s.store[p], i + 1) in g
  {
    var l, r, ga := Child(s.store[p], i), Child(s.store[p], i + 1), PairShape(s, g, p, i);
    ga[l := ga[l].(hi := Some(e))][r := Info(ga[l].height, Some(e), ga[l].hi)]
  }

  /** All keys of the two neighbours, in order. */
  ghost function PairKeys(s: State, p: Loc, i: nat): seq<KeyNode>
    requires p in s.store && i < |s.store[p].keys| && Child(s.store[p], i) in s.store
             && Child(s.store[p], i + 1) in s.store
  {
    JoinedBucket(s.store[Child(s.store[p], i)], s.store[p].keys[i], s.store[Child(s.store[p], i + 1)]).keys
  }

  /** After sharing out, the key left out can go into the parent, between the two neighbours. */
  lemma SharedInsertable(s: State, g: Shape, p: Loc, i: nat, split: nat, l': Bucket, r': Bucket)
    requires Pair(s, g, p, i) && Shares(s, p, i, split, l', r')
    ensures var l, r := Child(s.store[p], i), Child(s.store[p], i + 1);
            && l in s.store && r in s.store && l in g && r in g && split < |PairKeys(s, p, i)|
            && var e := EntryOf(PairKeys(s, p, i)[split]);
               Insertable(SharedState(s, p, i, l', r'), SharedShape(s, g, p, i, e), {r}, p, i, e, l, r)
  {
    hide Inv, Dropped, Snug, JoinedBucket, IsChildOf, PairJoined, SplitState, LeftHalf, RightHalf, SpaceOk, Sorted,
         Links, LocalOk, PairShape, SharedState, Inside, Gap;
    JoinedFacts(s, g, p, i);
    SharedIs(s, g, p, i, split, l', r');
    var l, r, sep := Child(s.store[p], i), Child(s.store[p], i + 1), s.store[p].keys[i];
    var a, ga := PairJoined(s, p, i), PairShape(s, g, p, i);
    var k := a.store[l].keys[split];
    var e := EntryOf(k);
    var s', g' := SharedState(s, p, i, l', r'), SharedShape(s, g, p, i, e);
    LinksDomain(a, ga, {}, l, r);
    LinksDomain(a, ga, {}, p, r);
    SplitFrame(a, ga, l, split, r);
    SharedInv(s, g, p, i, split, l', r');
    PlaceUnder(a, ga, p, i, l, e);
    NoKidUp(a, ga, l, p);
    HalvesChildren(a.store[l], split, p);
    assert s'.store[p] == a.store[p];
    RightInside(ga[l], e, SlotLo(a.store[p], ga[p], i), SlotHi(a.store[p], ga[p], i));
    LessTransitive(e, e, e);
  }

  /** A parent is not a child of its child. */
  lemma NoKidUp(a: State, ga: Shape, l: Loc, p: Loc)
    requires Links(a, ga, {}) && l in a.store && p in a.store && IsChildOf(a.store[p], l)
    ensures !IsChildOf(a.store[l], p)
  {
    hide ChildrenOk, IsChildOf, Attached;
    ParentIs(a, ga, p, l);
    if IsChildOf(a.store[l], p) {
      ParentIs(a, ga, l, p);
    }
  }

  /** An entry inside a child's interval has its place in the parent next to that child. */
  lemma PlaceUnder(a: State, ga: Shape, p: Loc, j: nat, l: Loc, e: Entry)
    requires Links(a, ga, {}) && p in a.store && p in ga && LocalOk(a.store[p], ga[p]) && j <= |a.store[p].keys|
             && Child(a.store[p], j) == l
    requires l in a.store && l in ga && Above(ga[l].lo, e) && Below(e, ga[l].hi)
    ensures Gap(a.store[p], ga[p], j, e) && ga[l].height < ga[p].height && IsChildOf(a.store[p], l)
    ensures Inside(ga[l], SlotLo(a.store[p], ga[p], j), SlotHi(a.store[p], ga[p], j))
  {
    hide Attached, SpaceOk, ChildrenOk;
    ChildParent(a, ga, {}, p, j);
    PromoteGap(a.store[p], ga[p], j, ga[l], e);
  }

  lemma SharedInv(s: State, g: Shape, p: Loc, i: nat, split: nat, l': Bucket, r': Bucket)
    requires Pair(s, g, p, i) && Shares(s, p, i, split, l', r')
    ensures var l, r := Child(s.store[p], i), Child(s.store[p], i + 1);
            && l in s.store && r in s.store && l in g && r in g && split < |PairKeys(s, p, i)|
            && Inv(SharedState(s, p, i, l', r'), SharedShape(s, g, p, i, EntryOf(PairKeys(s, p, i)[split])), {r})
  {
    hide Inv, Dropped, Snug, JoinedBucket, IsChildOf, PairJoined, SplitState, LeftHalf, RightHalf, SpaceOk, Sorted,
         Within, Links, PairShape, SharedState;
    JoinedFacts(s, g, p, i);
    SharedIs(s, g, p, i, split, l', r');
    var l, r, sep := Child(s.store[p], i), Child(s.store[p], i + 1), s.store[p].keys[i];
    var a, ga := PairJoined(s, p, i), PairShape(s, g, p, i);
    var s', g' := SharedState(s, p, i, l', r'), SharedShape(s, g, p, i, EntryOf(PairKeys(s, p, i)[split]));
    var c := SplitState(a, l, split, r);
    LinksDomain(a, ga, {}, l, r);
    SplitFrame(a, ga, l, split, r);
    SplitKeepsLinks(a, ga, {}, l, split, r);
    assert {} + {r} == {r};
    JoinedAt(s.store[l], sep, s.store[r], 0);
    HalvesAre(a.store[l], split);
    RespaceKeeps(c, g', {r}, l, l');
    RespaceKeeps(Replaced(c, l, l'), g', {r}, r, r');
    HalvesOrder(a.store[l].keys, ga[l], split);
    forall x | x in s'.store
      ensures LocalOk(s'.store[x], g'[x])
    {
      if x != l && x != r {
        SameLocal(a.store[x], s'.store[x], ga[x]);
      }
    }
    InvFrom(s', g', {r});
  }

  lemma InvFrom(s: State, g: Shape, loose: set<Loc>)
    requires Links(s, g, loose) && forall x | x in s.store :: x in g && LocalOk(s.store[x], g[x])
    ensures Inv(s, g, loose)
  {
    hide Links, LocalOk;
  }

  lemma HalvesAre(b: Bucket, split: nat)
    requires split < |b.keys|
    ensures var l, r := LeftHalf(b, split), RightHalf(b, split);
            && l.keys == b.keys[..split] && l.next == b.keys[split].child && l.parent == b.parent
            && r.keys == b.keys[split+1..] && r.next == b.next && r.parent == b.parent
  {
  }

  lemma HalvesOrder(keys: seq<KeyNode>, info: Info, split: nat)
    requires Sorted(keys) && Within(keys, info) && split < |keys|
    ensures var e := Some(EntryOf(keys[split]));
            && Sorted(keys[..split]) && Within(keys[..split], info.(hi := e))
            && Sorted(keys[split+1..]) && Within(keys[split+1..], Info(info.height, e, info.hi))
  {
  }

  /** Sharing out takes just the key in the middle out of the tree. */
  lemma SharedHas(s: State, g: Shape, p: Loc, i: nat, split: nat, l': Bucket, r': Bucket, e: Entry)
    requires Pair(s, g, p, i) && Shares(s, p, i, split, l', r')
    ensures var l, r := Child(s.store[p], i), Child(s.store[p], i + 1);
            && l in s.store && r in s.store && split < |PairKeys(s, p, i)|
            && var k := PairKeys(s, p, i)[split];
               Has(s, e) <==> Has(SharedState(s, p, i, l', r'), e) || (!Unused(k) && e == EntryOf(k))
  {
    hide Inv, Dropped, Snug, JoinedBucket, IsChildOf, SplitState, LeftHalf, RightHalf, SpaceOk, Sorted, Within,
         Links, SharedState, LocalOk, Has, PairJoined;
    JoinedFacts(s, g, p, i);
    SharedIs(s, g, p, i, split, l', r');
    var l, r, sep := Child(s.store[p], i), Child(s.store[p], i + 1), s.store[p].keys[i];
    var a, ga := PairJoined(s, p, i), PairShape(s, g, p, i);
    var c := SplitState(a, l, split, r);
    PairHasJoined(s, g, p, i, e);
    SplitHas(a, ga, {}, l, split, r, e);
    LinksDomain(a, ga, {}, l, r);
    SplitFrame(a, ga, l, split, r);
    HalvesAre(a.store[l], split);
    SameKeysHold(c.store[l], l', e);
    ReplaceHas(c, l, l', e);
    SameKeysHold(c.store[r], r', e);
    ReplaceHas(Replaced(c, l, l'), r, r', e);
  }

  lemma PairHasJoined(s: State, g: Shape, p: Loc, i: nat, e: Entry)
    requires Pair(s, g, p, i)
    ensures var l, r := Child(s.store[p], i), Child(s.store[p], i + 1);
            l in s.store && r in s.store && l != r && (Has(PairJoined(s, p, i), e) <==> Has(s, e))
  {
    hide Inv, Snug, Has, AbsorbedState, DropState;
    PairHas(s, g, p, i, e);
  }

  /** The buckets after sharing out, apart from the parent, have the keys they had or the ones dealt to them. */
  lemma SharedFrame(s: State, g: Shape, p: Loc, i: nat, l': Bucket, r': Bucket)
    requires Pair(s, g, p, i)
    ensures var l, r, s' := Child(s.store[p], i), Child(s.store[p], i + 1), SharedState(s, p, i, l', r');
            && s'.store.Keys == s.store.Keys && s'.head == s.head && s'.unusedFrom == s.unusedFrom && l in s.store
            && r in s.store
            && s'.store[l] == l' && s'.store[r] == r'
            && forall x | x in s.store && x != l && x != r && x != p :: s'.store[x].keys == s.store[x].keys
  {
    hide Inv, Snug, Dropped, Kids;
    PairParts(s, g, p, i);
  }

  // ---- Balancing two neighbours ----

  ghost predicate Neighbours(s: State, g: Shape, p: Loc, i: nat) {
    && Tree(s, g) && p in s.store && i < |s.store[p].keys|
    && Child(s.store[p], i) != NULL && Child(s.store[p], i + 1) != NULL
  }

  lemma NeighbourParts(s: State, g: Shape, p: Loc, i: nat)
    requires Neighbours(s, g, p, i)
    ensures var l, r := Child(s.store[p], i), Child(s.store[p], i + 1);
            && l in s.store && r in s.store && l != r && l != p && r != p && l in g && r in g && p in g
            && l != s.head && r != s.head && s.head in g && s.head in s.store && p != NULL
            && SpaceOk(s.store[l]) && SpaceOk(s.store[r]) && SpaceOk(s.store[p])
            && g[l].height < g[p].height && g[r].height < g[p].height <= g[s.head].height
            && s.store[l].parent == p && s.store[r].parent == p
            && Pair(s, FittedShape(s, g), p, i)
  {
    hide Sorted, Within, Attached, Snug;
    ChildAt(s, g, p, i);
    ChildAt(s, g, p, i + 1);
    assert ChildrenOk(s, g, p);
    Refit(s, g);
    assert LocalOk(s.store[p], g[p]) && LocalOk(s.store[Child(s.store[p], i)], g[Child(s.store[p], i)])
           && LocalOk(s.store[Child(s.store[p], i + 1)], g[Child(s.store[p], i + 1)]);
  }

  /** A bucket packed in place: the same tree with the same used entries, and no bucket emptied. */
  lemma PackPlace(s: State, g: Shape, x: Loc)
    requires Tree(s, g) && x in s.store
    ensures var s' := Replaced(s, x, PackedBucket(s.store[x], 0));
            && Tree(s', g) && SameUsed(s, s') && KeysFrom(s, s', None)
            && (s'.store[x].keys == [] <==> s.store[x].keys == [])
            && s'.store[x].packed && s'.store[x].parent == s.store[x].parent && SpaceOk(s'.store[x])
  {
    hide PackedBucket, Has, LocalOk, ChildrenOk, Attached, HeadOk, SpaceOk, KeysFrom;
    PackKeeps(s, g, {}, x, 0);
    PackFrom(s, x, 0);
    PackedRest(s.store[x], 0);
    PackedEmpty(s.store[x], 0);
    LocalAt(Replaced(s, x, PackedBucket(s.store[x], 0)), g, {}, x);
    forall e
      ensures Has(Replaced(s, x, PackedBucket(s.store[x], 0)), e) <==> Has(s, e)
    {
      PackHolds(s.store[x], g[x], 0, e);
      ReplaceHas(s, x, PackedBucket(s.store[x], 0), e);
    }
  }

  function PackedPair(s: State, p: Loc, i: nat): State
    requires p in s.store && i < |s.store[p].keys| && Child(s.store[p], i) in s.store
             && Child(s.store[p], i + 1) in s.store
  {
    var l, r := Child(s.store[p], i), Child(s.store[p], i + 1);
    Replaced(Replaced(s, l, PackedBucket(s.store[l], 0)), r, PackedBucket(s.store[r], 0))
  }

  lemma PackPair(s: State, g: Shape, p: Loc, i: nat)
    requires Neighbours(s, g, p, i)
    ensures var l, r := Child(s.store[p], i), Child(s.store[p], i + 1);
            && l in s.store && r in s.store
            && var s1 := PackedPair(s, p, i);
               && Neighbours(s1, g, p, i) && SameUsed(s, s1) && KeysFrom(s, s1, None) && s1.store[p] == s.store[p]
               && s1.unusedFrom == s.unusedFrom
               && s1.store.Keys == s.store.Keys
               && (FilledBut(s, {l, r}) ==> FilledBut(s1, {l, r}))
               && s1.store[l] == PackedBucket(s.store[l], 0) && s1.store[r] == PackedBucket(s.store[r], 0)
               && s1.store[l].packed && s1.store[r].packed && s1.head == s.head
  {
    hide Inv, PackedBucket, Has, Stored;
    NeighbourParts(s, g, p, i);
    var l, r := Child(s.store[p], i), Child(s.store[p], i + 1);
    PackPlace(s, g, l);
    PackPlace(Replaced(s, l, PackedBucket(s.store[l], 0)), g, r);
  }

  /** Sharing out from left to right: what is behind `split` goes over, then the separator. */
  function GivenAway(l: Bucket, split: nat): Bucket
    requires split < |l.keys|
  {
    l.(keys := l.keys[..split], next := l.keys[split].child, packed := false)
  }

  function TakenInFront(l: Bucket, sep: KeyNode, r: Bucket, split: nat): Bucket
    requires split < |l.keys|
  {
    r.(keys := l.keys[split+1..] + [sep.(child := l.next)] + r.keys,
      empty := r.empty - Bytes(l.keys[split+1..]) - Cost(sep))
  }

  /** Sharing out from right to left: the separator, then what is before key `m`. */
  function TakenBehind(l: Bucket, sep: KeyNode, r: Bucket, m: nat): Bucket
    requires m < |r.keys|
  {
    l.(keys := l.keys + [sep.(child := l.next)] + r.keys[..m], next := r.keys[m].child,
       empty := l.empty - Cost(sep) - Bytes(r.keys[..m]))
  }

  function FrontDropped(r: Bucket, m: nat): Bucket
    requires m < |r.keys|
  {
    r.(keys := r.keys[m+1..], packed := false)
  }

  lemma LeftToRightKeys(l: Bucket, sep: KeyNode, r: Bucket, split: nat)
    requires split < |l.keys|
    ensures var all := JoinedBucket(l, sep, r);
            && split < |all.keys| && all.keys[split] == l.keys[split] && all.next == r.next
            && GivenAway(l, split).keys == all.keys[..split]
            && TakenInFront(l, sep, r, split).keys == all.keys[split+1..]
            && GivenAway(l, split).next == all.keys[split].child
  {
  }

  lemma LeftToRightSpace(l: Bucket, sep: KeyNode, r: Bucket, split: nat)
    requires split < |l.keys| && SpaceOk(l) && SpaceOk(r) && r.packed && 1 <= sep.key.size <= KEY_MAX
    requires Bytes(JoinedBucket(l, sep, r).keys[split+1..]) <= BODY
    ensures SpaceOk(GivenAway(l, split)) && SpaceOk(TakenInFront(l, sep, r, split))
  {
    hide Bytes;
    LeftToRightKeys(l, sep, r, split);
    BytesTail(l.keys, split);
    var sep' := sep.(child := l.next);
    BytesPush(l.keys[split+1..], sep');
    BytesConcat(l.keys[split+1..] + [sep'], r.keys);
  }

  lemma RightToLeftKeys(l: Bucket, sep: KeyNode, r: Bucket, m: nat)
    requires m < |r.keys|
    ensures var all := JoinedBucket(l, sep, r);
            var split := |l.keys| + 1 + m;
            && split < |all.keys| && all.keys[split] == r.keys[m] && all.next == r.next
            && TakenBehind(l, sep, r, m).keys == all.keys[..split] && FrontDropped(r, m).keys == all.keys[split+1..]
            && TakenBehind(l, sep, r, m).next == all.keys[split].child
  {
  }

  lemma RightToLeftSpace(l: Bucket, sep: KeyNode, r: Bucket, m: nat)
    requires m < |r.keys| && SpaceOk(l) && SpaceOk(r) && l.packed && 1 <= sep.key.size <= KEY_MAX
    requires Bytes(JoinedBucket(l, sep, r).keys[..|l.keys|+1+m]) <= BODY
    ensures SpaceOk(TakenBehind(l, sep, r, m)) && SpaceOk(FrontDropped(r, m))
  {
    hide Bytes;
    RightToLeftKeys(l, sep, r, m);
    BytesTail(r.keys, m + 1);
    var sep' := sep.(child := l.next);
    BytesPush(l.keys, sep');
    BytesConcat(l.keys + [sep'], r.keys[..m]);
  }

  // ---- No key comes from nowhere ----

  lemma JoinedFrom(l: Bucket, sep: KeyNode, r: Bucket, f: Sized)
    requires Carries(JoinedBucket(l, sep, r), f)
    ensures Carries(l, f) || Carries(r, f) || f == SizedOf(sep)
  {
    hide JoinedBucket;
    var b := JoinedBucket(l, sep, r);
    JoinedAt(l, sep, r, 0);
    var i :| 0 <= i < |b.keys| && SizedOf(b.keys[i]) == f;
    JoinedAt(l, sep, r, i);
  }

  lemma DroppedFrom(b: Bucket, pos: nat, c: Loc, f: Sized)
    requires pos < |b.keys| && Carries(Dropped(b, pos, c), f)
    ensures Carries(b, f)
  {
    hide Dropped;
    DroppedRest(b, pos, c);
    var i :| 0 <= i < |Dropped(b, pos, c).keys| && SizedOf(Dropped(b, pos, c).keys[i]) == f;
    DroppedAt(b, pos, c, i);
    assert SizedOf(b.keys[if i < pos then i else i + 1]) == f;
  }

  /** The keys of a pair are all stored. */
  lemma PairCarried(s: State, p: Loc, i: nat, f: Sized)
    requires p in s.store && i < |s.store[p].keys| && Child(s.store[p], i) in s.store
             && Child(s.store[p], i + 1) in s.store
    requires Carries(JoinedBucket(s.store[Child(s.store[p], i)], s.store[p].keys[i],
             s.store[Child(s.store[p], i + 1)]), f)
    ensures Carried(s, f)
  {
    hide JoinedBucket, Carries;
    JoinedFrom(s.store[Child(s.store[p], i)], s.store[p].keys[i], s.store[Child(s.store[p], i + 1)], f);
    KeyIsThere(s.store[p], i);
  }

  lemma KeyIsThere(b: Bucket, i: nat)
    requires i < |b.keys|
    ensures Carries(b, SizedOf(b.keys[i]))
  {
  }

  lemma MergeFrom(s: State, g: Shape, p: Loc, i: nat)
    requires Pair(s, g, p, i)
    ensures var l, r := Child(s.store[p], i), Child(s.store[p], i + 1);
            l in s.store && r in s.store && l != r && KeysFrom(s, MergedState(s, p, i), None)
  {
    hide Inv, Snug, MergedState, JoinedBucket, Dropped, Carried;
    PairParts(s, g, p, i);
    MergeFrame(s, g, p, i);
    MergedContents(s, g, p, i);
    var l, r := Child(s.store[p], i), Child(s.store[p], i + 1);
    var s' := MergedState(s, p, i);
    forall x, f | x in s'.store && Carries(s'.store[x], f)
      ensures Carried(s, f)
    {
      if x == l {
        PairCarried(s, p, i, f);
      } else if x == p {
        DroppedFrom(s.store[p], i, l, f);
        CarriedAt(s, p, f);
      } else {
        CarriedAt(s, x, f);
      }
    }
    NothingNew(s, s');
  }

  lemma CarriedAt(s: State, x: Loc, f: Sized)
    requires x in s.store && Carries(s.store[x], f)
    ensures Carried(s, f)
  {
  }

  lemma MergedContents(s: State, g: Shape, p: Loc, i: nat)
    requires Pair(s, g, p, i)
    ensures var l, r := Child(s.store[p], i), Child(s.store[p], i + 1);
            && l in s.store && r in s.store && l != r && l in MergedState(s, p, i).store
            && MergedState(s, p, i).store[l].keys == JoinedBucket(s.store[l], s.store[p].keys[i], s.store[r]).keys
  {
    hide Inv, DropState, Dropped, Snug, AbsorbedState, JoinedBucket, Merged;
    PairParts(s, g, p, i);
    var l, r, sep := Child(s.store[p], i), Child(s.store[p], i + 1), s.store[p].keys[i];
    DropFrame(s, p, i, l);
    MergedSame(DropState(s, p, i, l).store[l], sep, DropState(s, p, i, l).store[r]);
  }

  lemma SharedFrom(s: State, g: Shape, p: Loc, i: nat, split: nat, l': Bucket, r': Bucket)
    requires Pair(s, g, p, i) && Shares(s, p, i, split, l', r')
    ensures var l, r := Child(s.store[p], i), Child(s.store[p], i + 1);
            && l in s.store && r in s.store && split < |PairKeys(s, p, i)|
            && KeysFrom(s, SharedState(s, p, i, l', r'), None) && Carried(s, SizedOf(PairKeys(s, p, i)[split]))
  {
    hide Inv, Snug, JoinedBucket, Dropped, Carried, SharedState;
    PairParts(s, g, p, i);
    SharedFrame(s, g, p, i, l', r');
    SharedParent(s, g, p, i, l', r');
    var l, r, s' := Child(s.store[p], i), Child(s.store[p], i + 1), SharedState(s, p, i, l', r');
    var all := JoinedBucket(s.store[l], s.store[p].keys[i], s.store[r]);
    KeyIsThere(all, split);
    PairCarried(s, p, i, SizedOf(all.keys[split]));
    forall x, f | x in s'.store && Carries(s'.store[x], f)
      ensures Carried(s, f)
    {
      if x == l || x == r {
        DealtFrom(all, split, l', r', f);
        PairCarried(s, p, i, f);
      } else if x == p {
        DroppedFrom(s.store[p], i, l, f);
        CarriedAt(s, p, f);
      } else {
        CarriedAt(s, x, f);
      }
    }
    NothingNew(s, s');
  }

  lemma SharedParent(s: State, g: Shape, p: Loc, i: nat, l': Bucket, r': Bucket)
    requires Pair(s, g, p, i)
    ensures p in SharedState(s, p, i, l', r').store
    ensures SharedState(s, p, i, l', r').store[p] == Dropped(s.store[p], i, Child(s.store[p], i))
  {
    hide Inv, Snug, Dropped, Kids;
    PairParts(s, g, p, i);
  }

  lemma DealtFrom(all: Bucket, split: nat, l': Bucket, r': Bucket, f: Sized)
    requires split < |all.keys| && l'.keys == all.keys[..split] && r'.keys == all.keys[split+1..]
    ensures Carries(l', f) || Carries(r', f) ==> Carries(all, f)
  {
    if Carries(l', f) {
      var i :| 0 <= i < |l'.keys| && SizedOf(l'.keys[i]) == f;
      assert SizedOf(all.keys[i]) == f;
    }
    if Carries(r', f) {
      var i :| 0 <= i < |r'.keys| && SizedOf(r'.keys[i]) == f;
      assert SizedOf(all.keys[split+1+i]) == f;
    }
  }
}
