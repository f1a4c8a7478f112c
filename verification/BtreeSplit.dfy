/** Splitting a bucket off to the right, and growing a new root. */
module BtreeSplit {
  import opened Basics
  import opened Bucket
  import opened BtreeShape

  /** The right half, on its own: packed, nothing dead in it. */
  function RightHalf(b: Bucket, split: nat): Bucket
    requires split < |b.keys|
  {
    Bucket(b.parent, b.next, b.keys[split+1..], BODY - Bytes(b.keys[split+1..]), true)
  }

  /** The left half: the promoted key's left child becomes the last child. */
  function LeftHalf(b: Bucket, split: nat): Bucket
    requires split < |b.keys|
  {
    b.(keys := b.keys[..split], next := b.keys[split].child, packed := false)
  }

  function Kids(b: Bucket): set<Loc> { set i | 0 <= i <= |b.keys| :: Child(b, i) }

  /** All children of the bucket at `r` get it as their parent. */
  function Adopted(store: map<Loc, Bucket>, kids: set<Loc>, r: Loc): map<Loc, Bucket> {
    map x | x in store :: if x in kids then store[x].(parent := r) else store[x]
  }

  function SplitState(s: State, loc: Loc, split: nat, r: Loc): State
    requires loc in s.store && split < |s.store[loc].keys|
  {
    var b := s.store[loc];
    State(Adopted(s.store[loc := LeftHalf(b, split)][r := RightHalf(b, split)], Kids(RightHalf(b, split)), r),
          s.head, if r < s.unusedFrom then s.unusedFrom else r + 1)
  }

  ghost function SplitShape(s: State, g: Shape, loc: Loc, split: nat, r: Loc): Shape
    requires loc in s.store && loc in g && split < |s.store[loc].keys|
  {
    var e := EntryOf(s.store[loc].keys[split]);
    g[loc := g[loc].(hi := Some(e))][r := Info(g[loc].height, Some(e), g[loc].hi)]
  }

  lemma HalvesAt(b: Bucket, split: nat, i: nat)
    requires split < |b.keys|
    ensures i <= split ==> Child(LeftHalf(b, split), i) == Child(b, i)
    ensures i < split ==> LeftHalf(b, split).keys[i] == b.keys[i]
    ensures i <= |b.keys| - split - 1 ==> Child(RightHalf(b, split), i) == Child(b, split + 1 + i)
    ensures i < |b.keys| - split - 1 ==> RightHalf(b, split).keys[i] == b.keys[split+1+i]
    ensures |LeftHalf(b, split).keys| == split && |RightHalf(b, split).keys| == |b.keys| - split - 1
  {
    hide Bytes;
  }

  lemma HalvesSlots(b: Bucket, info: Info, split: nat, i: nat)
    requires split < |b.keys|
    ensures var e := Some(EntryOf(b.keys[split]));
            && (i <= split ==> && SlotLo(LeftHalf(b, split), info.(hi := e), i) == SlotLo(b, info, i)
                               && SlotHi(LeftHalf(b, split), info.(hi := e), i) == SlotHi(b, info, i))
            && (i <= |b.keys| - split - 1 ==>
                  && SlotLo(RightHalf(b, split), info.(lo := e), i) == SlotLo(b, info, split + 1 + i)
                  && SlotHi(RightHalf(b, split), info.(lo := e), i) == SlotHi(b, info, split + 1 + i))
  {
    hide Bytes;
    HalvesAt(b, split, i);
    if i > 0 {
      HalvesAt(b, split, i - 1);
    }
  }

  lemma HalvesSpace(b: Bucket, split: nat)
    requires split < |b.keys| && SpaceOk(b)
    ensures SpaceOk(LeftHalf(b, split)) && SpaceOk(RightHalf(b, split))
  {
    hide Bytes;
    BytesSplit(b.keys, split);
    BytesBounds(b.keys[..split]);
    BytesBounds(b.keys[split+1..]);
  }

  lemma HalvesLocal(b: Bucket, info: Info, split: nat)
    requires split < |b.keys| && LocalOk(b, info)
    ensures var e := Some(EntryOf(b.keys[split]));
            LocalOk(LeftHalf(b, split), info.(hi := e)) && LocalOk(RightHalf(b, split), info.(lo := e))
  {
    hide Bytes, SpaceOk;
    HalvesSpace(b, split);
  }

  lemma HalvesChildren(b: Bucket, split: nat, c: Loc)
    requires split < |b.keys|
    ensures IsChildOf(b, c) <==> IsChildOf(LeftHalf(b, split), c) || IsChildOf(RightHalf(b, split), c)
    ensures IsChildOf(RightHalf(b, split), c) <==> c in Kids(RightHalf(b, split))
  {
    hide LeftHalf, RightHalf;
    var n := |b.keys|;
    HalvesAt(b, split, 0);
    if IsChildOf(b, c) {
      var i :| 0 <= i <= n && Child(b, i) == c;
      HalvesAt(b, split, if i <= split then i else i - split - 1);
    }
    if IsChildOf(LeftHalf(b, split), c) {
      var i :| 0 <= i <= split && Child(LeftHalf(b, split), i) == c;
      HalvesAt(b, split, i);
    }
    if IsChildOf(RightHalf(b, split), c) {
      var i :| 0 <= i <= n - split - 1 && Child(RightHalf(b, split), i) == c;
      HalvesAt(b, split, i);
    }
  }

  /** No child is on both sides. */
  lemma HalvesDisjoint(s: State, g: Shape, loc: Loc, split: nat, c: Loc)
    requires loc in s.store && loc in g && ChildrenOk(s, g, loc) && split < |s.store[loc].keys| && c != NULL
    ensures var b := s.store[loc];
            !(IsChildOf(LeftHalf(b, split), c) && IsChildOf(RightHalf(b, split), c))
  {
    hide LeftHalf, RightHalf;
    var b := s.store[loc];
    HalvesAt(b, split, 0);
    if IsChildOf(LeftHalf(b, split), c) && IsChildOf(RightHalf(b, split), c) {
      var i :| 0 <= i <= split && Child(LeftHalf(b, split), i) == c;
      var j :| 0 <= j <= |b.keys| - split - 1 && Child(RightHalf(b, split), j) == c;
      HalvesAt(b, split, i);
      HalvesAt(b, split, j);
    }
  }

  /** What a split leaves alone. */
  lemma SplitFrame(s: State, g: Shape, loc: Loc, split: nat, r: Loc)
    requires loc in s.store && loc in g && split < |s.store[loc].keys| && r !in s.store
    requires !IsChildOf(s.store[loc], loc) && !IsChildOf(s.store[loc], r)
    ensures var b := s.store[loc];
            var s' := SplitState(s, loc, split, r);
            && s'.store.Keys == s.store.Keys + {r} && s'.head == s.head
            && s'.unusedFrom == (if r < s.unusedFrom then s.unusedFrom else r + 1)
            && s'.store[loc] == LeftHalf(b, split) && s'.store[r] == RightHalf(b, split)
            && forall x | x in s.store && x != loc ::
                 s'.store[x] == if IsChildOf(RightHalf(b, split), x) then s.store[x].(parent := r) else s.store[x]
  {
    var b := s.store[loc];
    forall c: Loc | c in s.store || c == r
      ensures IsChildOf(RightHalf(b, split), c) <==> c in Kids(RightHalf(b, split))
      ensures IsChildOf(RightHalf(b, split), c) ==> IsChildOf(b, c)
    {
      HalvesChildren(b, split, c);
    }
    hide LeftHalf, RightHalf, Kids, IsChildOf;
  }

  lemma SplitOwnChildren(s: State, g: Shape, loose: set<Loc>, loc: Loc, split: nat, r: Loc)
    requires Links(s, g, loose) && loc in s.store && r !in s.store && r > NULL && split < |s.store[loc].keys|
    ensures var s' := SplitState(s, loc, split, r);
            var g' := SplitShape(s, g, loc, split, r);
            && loc in s'.store && r in s'.store && ChildrenOk(s', g', loc) && ChildrenOk(s', g', r)
  {
    hide LeftHalf, RightHalf, LocalOk, Attached, HeadOk, SplitState, Inside, SlotLo, SlotHi;
    var b := s.store[loc];
    var s', g' := SplitState(s, loc, split, r), SplitShape(s, g, loc, split, r);
    NotOwnChild(s, g, loose, loc, r);
    SplitFrame(s, g, loc, split, r);
    HalvesAt(b, split, 0);
    assert ChildrenOk(s, g, loc);
    forall i | 0 <= i <= split
      ensures ChildOk(s', g', loc, i)
    {
      HalvesAt(b, split, i);
      HalvesSlots(b, g[loc], split, i);
      var c := Child(b, i);
      assert ChildOk(s, g, loc, i);
      assert IsChildOf(LeftHalf(b, split), c);
      if c != NULL {
        HalvesDisjoint(s, g, loc, split, c);
        assert c != loc && c != r;
      }
    }
    forall i | 0 <= i <= |b.keys| - split - 1
      ensures ChildOk(s', g', r, i)
    {
      HalvesAt(b, split, i);
      HalvesSlots(b, g[loc], split, i);
      var c := Child(b, split + 1 + i);
      assert ChildOk(s, g, loc, split + 1 + i);
      assert IsChildOf(RightHalf(b, split), c);
      SameSlots(RightHalf(b, split), g'[r], g[loc].(lo := g'[r].lo), i);
    }
    forall i, j | 0 <= i < j <= split
      ensures Child(s'.store[loc], i) == Child(s'.store[loc], j) ==> Child(s'.store[loc], i) == NULL
    {
      HalvesAt(b, split, i);
      HalvesAt(b, split, j);
    }
    forall i, j | 0 <= i < j <= |b.keys| - split - 1
      ensures Child(s'.store[r], i) == Child(s'.store[r], j) ==> Child(s'.store[r], i) == NULL
    {
      HalvesAt(b, split, i);
      HalvesAt(b, split, j);
    }
  }

  lemma SameSlots(b: Bucket, info: Info, info': Info, i: nat)
    requires info.lo == info'.lo && info.hi == info'.hi && i <= |b.keys|
    ensures SlotLo(b, info, i) == SlotLo(b, info', i) && SlotHi(b, info, i) == SlotHi(b, info', i)
  {
  }

  /** A bucket is not its own child, and nothing has a child that is not there. */
  lemma NotOwnChild(s: State, g: Shape, loose: set<Loc>, loc: Loc, r: Loc)
    requires Links(s, g, loose) && loc in s.store && r !in s.store && r != NULL
    ensures !IsChildOf(s.store[loc], loc) && !IsChildOf(s.store[loc], r) && r !in loose
  {
    hide Attached, HeadOk;
    assert ChildrenOk(s, g, loc);
    forall i | 0 <= i <= |s.store[loc].keys|
      ensures Child(s.store[loc], i) != loc && Child(s.store[loc], i) != r
    {
      assert ChildOk(s, g, loc, i);
    }
  }

  lemma SplitOtherChildren(s: State, g: Shape, loose: set<Loc>, loc: Loc, split: nat, r: Loc, x: Loc)
    requires Links(s, g, loose) && loc in s.store && r !in s.store && r > NULL && split < |s.store[loc].keys|
             && x in s.store && x != loc
    requires Within(s.store[loc].keys, g[loc])
    ensures x in SplitState(s, loc, split, r).store
            && ChildrenOk(SplitState(s, loc, split, r), SplitShape(s, g, loc, split, r), x)
  {
    hide LeftHalf, RightHalf, Attached, HeadOk, SplitState, ChildrenOk, SpaceOk, Sorted;
    var b := s.store[loc];
    var s', g' := SplitState(s, loc, split, r), SplitShape(s, g, loc, split, r);
    NotOwnChild(s, g, loose, loc, r);
    SplitFrame(s, g, loc, split, r);
    forall c | c in s.store && c in g && IsChildOf(s.store[x], c)
      ensures c in s'.store && c in g' && s'.store[c].parent == s.store[c].parent
              && g'[c].height == g[c].height && Inside(g'[c], g[c].lo, g[c].hi)
    {
      ParentIs(s, g, x, c);
      HalvesChildren(b, split, c);
      if IsChildOf(b, c) {
        ParentIs(s, g, loc, c);
      }
      if c == loc {
        LeftHalfParent(b, split);
      }
    }
    OtherChildren(s, s', g, g', x);
  }

  lemma LeftHalfParent(b: Bucket, split: nat)
    requires split < |b.keys|
    ensures LeftHalf(b, split).parent == b.parent
  {
  }

  lemma ParentIs(s: State, g: Shape, x: Loc, c: Loc)
    requires x in s.store && x in g && ChildrenOk(s, g, x) && c in s.store && c != NULL && IsChildOf(s.store[x], c)
    ensures s.store[c].parent == x && c in g && g[c].height < g[x].height
  {
    var i :| 0 <= i <= |s.store[x].keys| && Child(s.store[x], i) == c;
    assert ChildOk(s, g, x, i);
  }

  lemma SplitLinks(s: State, g: Shape, loose: set<Loc>, loc: Loc, split: nat, r: Loc)
    requires Links(s, g, loose) && loc in s.store && r !in s.store && r > NULL && split < |s.store[loc].keys|
    ensures var s' := SplitState(s, loc, split, r);
            && (forall x, c | x in s'.store && c in loose + {r} :: !IsChildOf(s'.store[x], c))
            && (forall c | c in s'.store && c != s'.head && c !in loose + {r} :: Attached(s', c))
  {
    hide LeftHalf, RightHalf, HeadOk, SplitState, ChildrenOk, LocalOk, IsChildOf;
    var b := s.store[loc];
    var s' := SplitState(s, loc, split, r);
    NotOwnChild(s, g, loose, loc, r);
    SplitFrame(s, g, loc, split, r);
    LeftHalfParent(b, split);
    forall x, c | x in s'.store && c in loose + {r}
      ensures !IsChildOf(s'.store[x], c)
    {
      HalvesChildren(b, split, c);
      if x in s.store {
        NotOwnChild(s, g, loose, x, r);
        SameIsChildOf(s.store[x], s'.store[x], c);
      }
    }
    forall c | c in s'.store && c != s'.head && c !in loose + {r}
      ensures Attached(s', c)
    {
      assert Attached(s, c);
      var p := s.store[c].parent;
      HalvesChildren(b, split, c);
      if IsChildOf(b, c) {
        ParentIs(s, g, loc, c);
        assert c != loc;
      } else {
        SameIsChildOf(s.store[p], s'.store[p], c);
      }
    }
  }

  /** Splitting a bucket other than the root leaves consistent links, with the right half loose. */
  lemma SplitKeepsLinks(s: State, g: Shape, loose: set<Loc>, loc: Loc, split: nat, r: Loc)
    requires Links(s, g, loose) && loc in s.store && r !in s.store && r > NULL && loc != s.head && loc !in loose
    requires split < |s.store[loc].keys| && Within(s.store[loc].keys, g[loc])
    ensures Links(SplitState(s, loc, split, r), SplitShape(s, g, loc, split, r), loose + {r})
  {
    hide LeftHalf, RightHalf, SplitState, ChildrenOk, IsChildOf, Attached, Within;
    var s', g' := SplitState(s, loc, split, r), SplitShape(s, g, loc, split, r);
    NotOwnChild(s, g, loose, loc, r);
    NotOwnChild(s, g, loose, s.head, r);
    SplitFrame(s, g, loc, split, r);
    SplitLinks(s, g, loose, loc, split, r);
    SplitOwnChildren(s, g, loose, loc, split, r);
    HeadParent(s, g, loose, loc, split, r);
    forall x | x in s'.store
      ensures ChildrenOk(s', g', x)
    {
      if x != r && x != loc {
        SplitOtherChildren(s, g, loose, loc, split, r, x);
      }
    }
  }

  /** The right half holds the keys behind the split and what was behind them, packed; the left half the rest. */
  lemma HalvesHeld(s: State, loc: Loc, split: nat, r: Loc)
    requires loc in s.store && r !in s.store && split < |s.store[loc].keys|
    ensures var keys := s.store[loc].keys;
            var after := SplitState(s, loc, split, r).store;
            && loc in after && r in after
            && after[loc].keys == keys[..split] && after[loc].next == keys[split].child
            && after[r].keys == keys[split+1..] && after[r].next == s.store[loc].next
            && after[r].packed && after[r].empty == BODY - Bytes(keys[split+1..])
  {
    hide Bytes, Kids;
  }

  /** Splitting a bucket other than the root leaves a well-formed tree with the right half loose. */
  lemma SplitKeeps(s: State, g: Shape, loose: set<Loc>, loc: Loc, split: nat, r: Loc)
    requires Inv(s, g, loose) && loc in s.store && r !in s.store && r > NULL && loc != s.head && loc !in loose
    requires split < |s.store[loc].keys|
    ensures Inv(SplitState(s, loc, split, r), SplitShape(s, g, loc, split, r), loose + {r})
  {
    hide LeftHalf, RightHalf, SplitState, Links, IsChildOf, SpaceOk, Sorted, Within;
    var b := s.store[loc];
    LinksDomain(s, g, loose, loc, r);
    var s', g' := SplitState(s, loc, split, r), SplitShape(s, g, loc, split, r);
    SplitFrame(s, g, loc, split, r);
    assert LocalOk(b, g[loc]);
    SplitKeepsLinks(s, g, loose, loc, split, r);
    HalvesLocal(b, g[loc], split);
    forall x | x in s'.store
      ensures LocalOk(s'.store[x], g'[x])
    {
      if x == r {
        SameInfo(RightHalf(b, split), g[loc].(lo := g'[r].lo), g'[r]);
      } else if x != loc {
        SameLocal(s.store[x], s'.store[x], g[x]);
      }
    }
  }

  lemma LinksDomain(s: State, g: Shape, loose: set<Loc>, loc: Loc, r: Loc)
    requires Links(s, g, loose) && loc in s.store && r !in s.store && r != NULL
    ensures g.Keys == s.store.Keys && !IsChildOf(s.store[loc], loc) && !IsChildOf(s.store[loc], r) && r !in loose
  {
    NotOwnChild(s, g, loose, loc, r);
  }

  /** The next bucket to be allocated is nowhere yet. */
  lemma FreshLoc(s: State, g: Shape, loose: set<Loc>, loc: Loc)
    requires Inv(s, g, loose) && loc in s.store
    ensures s.unusedFrom !in s.store && s.unusedFrom !in loose && s.unusedFrom > NULL
    ensures !IsChildOf(s.store[loc], loc) && !IsChildOf(s.store[loc], s.unusedFrom)
  {
    hide LocalOk, ChildrenOk, Attached, IsChildOf;
    NotOwnChild(s, g, loose, loc, s.unusedFrom);
  }

  lemma SameInfo(b: Bucket, info: Info, info': Info)
    requires LocalOk(b, info) && info.lo == info'.lo && info.hi == info'.hi
    ensures LocalOk(b, info')
  {
  }

  lemma HeadParent(s: State, g: Shape, loose: set<Loc>, loc: Loc, split: nat, r: Loc)
    requires Links(s, g, loose) && loc in s.store && r !in s.store && r > NULL && loc != s.head
             && split < |s.store[loc].keys|
    ensures s.head in SplitState(s, loc, split, r).store && SplitState(s, loc, split, r).store[s.head].parent == NULL
  {
    hide LeftHalf, RightHalf, SplitState, ChildrenOk, LocalOk, Attached;
    var b := s.store[loc];
    NotOwnChild(s, g, loose, loc, r);
    SplitFrame(s, g, loc, split, r);
    HalvesChildren(b, split, s.head);
    if IsChildOf(b, s.head) {
      ParentIs(s, g, loc, s.head);
    }
  }

  lemma SplitHas(s: State, g: Shape, loose: set<Loc>, loc: Loc, split: nat, r: Loc, e: Entry)
    requires Links(s, g, loose) && loc in s.store && r !in s.store && r > NULL && split < |s.store[loc].keys|
    ensures var k := s.store[loc].keys[split];
            Has(s, e) <==> Has(SplitState(s, loc, split, r), e) || (!Unused(k) && e == EntryOf(k))
  {
    hide LeftHalf, RightHalf, SplitState, ChildrenOk, LocalOk, Attached, HeadOk, IsChildOf;
    var b := s.store[loc];
    var s' := SplitState(s, loc, split, r);
    NotOwnChild(s, g, loose, loc, r);
    SplitFrame(s, g, loc, split, r);
    HalvesHold(b, split, e);
    assert forall x | x in s.store && x != loc :: Holds(s'.store[x], e) <==> Holds(s.store[x], e);
    assert loc in s'.store && r in s'.store;
    if Has(s', e) {
      var x :| x in s'.store && Holds(s'.store[x], e);
    }
  }

  lemma HalvesHold(b: Bucket, split: nat, e: Entry)
    requires split < |b.keys|
    ensures Holds(b, e) <==> Holds(LeftHalf(b, split), e) || Holds(RightHalf(b, split), e)
                             || (!Unused(b.keys[split]) && e == EntryOf(b.keys[split]))
  {
    hide LeftHalf, RightHalf;
    HalvesAt(b, split, 0);
    if Holds(b, e) {
      var i :| 0 <= i < |b.keys| && !Unused(b.keys[i]) && EntryOf(b.keys[i]) == e;
      if i != split {
        HalvesAt(b, split, if i < split then i else i - split - 1);
      }
    }
    if Holds(LeftHalf(b, split), e) {
      var i :| 0 <= i < split && !Unused(LeftHalf(b, split).keys[i]) && EntryOf(LeftHalf(b, split).keys[i]) == e;
      HalvesAt(b, split, i);
    }
    if Holds(RightHalf(b, split), e) {
      var i :| 0 <= i < |b.keys| - split - 1 && !Unused(RightHalf(b, split).keys[i])
        && EntryOf(RightHalf(b, split).keys[i]) == e;
      HalvesAt(b, split, i);
    }
  }

  // ---- A new root ----

  /** A fresh, still empty bucket above the root; the old root is its only child. */
  function GrownState(s: State): State
    requires s.head in s.store
  {
    var p := s.unusedFrom;
    State(s.store[s.head := s.store[s.head].(parent := p)][p := Bucket(NULL, s.head, [], BODY, true)], p, p + 1)
  }

  ghost function GrownShape(s: State, g: Shape): Shape
    requires s.head in g
  {
    g[s.unusedFrom := Info(g[s.head].height + 1, None, None)]
  }

  lemma GrowKeeps(s: State, g: Shape, loose: set<Loc>)
    requires Inv(s, g, loose)
    ensures Inv(GrownState(s), GrownShape(s, g), loose)
  {
    hide LocalOk;
    var s', g', p := GrownState(s), GrownShape(s, g), s.unusedFrom;
    assert p !in s.store;
    NoBytes();
    assert LocalOk(s'.store[p], g'[p]) by { EmptyLocal(s'.store[p], g'[p]); }
    assert ChildOk(s', g', p, 0);
    GrowChildren(s, g, loose);
    forall x | x in s.store
      ensures LocalOk(s'.store[x], g'[x])
    {
      SameLocal(s.store[x], s'.store[x], g[x]);
    }
    GrowLinks(s, g, loose);
  }

  lemma EmptyLocal(b: Bucket, info: Info)
    requires b.keys == [] && b.empty == BODY
    ensures LocalOk(b, info)
  {
  }

  lemma GrowChildren(s: State, g: Shape, loose: set<Loc>)
    requires Inv(s, g, loose)
    ensures forall x | x in s.store :: x in GrownState(s).store && ChildrenOk(GrownState(s), GrownShape(s, g), x)
  {
    hide LocalOk, ChildrenOk, Attached;
    var s', g' := GrownState(s), GrownShape(s, g);
    forall x | x in s.store
      ensures ChildrenOk(s', g', x)
    {
      forall c | c in s.store && c in g && IsChildOf(s.store[x], c)
        ensures s'.store[c].parent == s.store[c].parent && Inside(g'[c], g[c].lo, g[c].hi)
      {
        ParentIs(s, g, x, c);
      }
      OtherChildren(s, s', g, g', x);
    }
  }

  lemma GrowLinks(s: State, g: Shape, loose: set<Loc>)
    requires Inv(s, g, loose)
    ensures var s' := GrownState(s);
            && (forall x, c | x in s'.store && c in loose :: !IsChildOf(s'.store[x], c))
            && (forall c | c in s'.store && c != s'.head && c !in loose :: Attached(s', c))
  {
    hide LocalOk, ChildrenOk;
    var s', p := GrownState(s), s.unusedFrom;
    assert Child(s'.store[p], 0) == s.head;
    assert IsChildOf(s'.store[p], s.head);
    forall x, c | x in s'.store && c in loose
      ensures !IsChildOf(s'.store[x], c)
    {
      if x in s.store {
        SameIsChildOf(s.store[x], s'.store[x], c);
      }
    }
    forall c | c in s'.store && c != s'.head && c !in loose
      ensures Attached(s', c)
    {
      if c != s.head {
        assert Attached(s, c);
        SameIsChildOf(s.store[s.store[c].parent], s'.store[s.store[c].parent], c);
      }
    }
  }

  lemma GrowHas(s: State, e: Entry)
    requires s.head in s.store && s.unusedFrom !in s.store
    ensures Has(GrownState(s), e) <==> Has(s, e)
  {
    var s' := GrownState(s);
    assert forall x | x in s.store :: s'.store[x].keys == s.store[x].keys;
    assert forall x | x in s.store :: Holds(s'.store[x], e) <==> Holds(s.store[x], e);
    if Has(s', e) {
      var x :| x in s'.store && Holds(s'.store[x], e);
      assert x in s.store;
    }
    if Has(s, e) {
      var x :| x in s.store && Holds(s.store[x], e);
      assert x in s'.store;
    }
  }
}
