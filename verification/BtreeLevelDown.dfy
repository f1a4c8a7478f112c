/** Taking keys out, merging and sharing keep the leaves equally deep. */
module BtreeLevelDown {
  import opened Bucket
  import opened BtreeShape
  import opened BtreeSplit
  import opened BtreeOrder
  import opened BtreeLevel
  import opened BtreeDrop
  import opened BtreeJoin
  import opened BtreeBalance

  lemma KidAt(s: State, g: Shape, but: set<Loc>, loc: Loc, i: nat)
    requires Level(s, g, but) && loc in s.store && i <= |s.store[loc].keys|
    ensures loc in g && KidLevel(g, g[loc].height, Child(s.store[loc], i))
  {
    hide WideAt;
    assert LevelAt(s, g, loc);
  }

  /** A key taken out, with a child of the right level left in its place. */
  lemma DropLevel(s: State, g: Shape, but: set<Loc>, loc: Loc, pos: nat, c: Loc)
    requires Level(s, g, but) && loc in s.store && pos < |s.store[loc].keys| && loc in g
             && KidLevel(g, g[loc].height, c)
    ensures Level(DropState(s, loc, pos, c), g, but + {loc})
    ensures g[loc].height == 0 ==> Level(DropState(s, loc, pos, c), g, but)
  {
    hide DropState, Dropped;
    var s' := DropState(s, loc, pos, c);
    DropFrame(s, loc, pos, c);
    DroppedRest(s.store[loc], pos, c);
    forall y | y in s'.store
      ensures LevelAt(s', g, y) && (y !in but + {loc} ==> WideAt(s', g, y))
      ensures y == loc && g[loc].height == 0 ==> WideAt(s', g, y)
    {
      assert LevelAt(s, g, y) && (y !in but ==> WideAt(s, g, y));
      forall i | 0 <= i <= |s'.store[y].keys|
        ensures KidLevel(g, g[y].height, Child(s'.store[y], i))
      {
        if y == loc {
          DroppedAt(s.store[loc], pos, c, i);
          assert i != pos ==> KidLevel(g, g[loc].height, Child(s.store[loc], if i < pos then i else i + 1));
        } else {
          assert KidLevel(g, g[y].height, Child(s.store[y], i));
        }
      }
    }
  }

  /** After a key was taken out between them, it can be replaced by another one. */
  lemma DropReady(s: State, g: Shape, but: set<Loc>, loc: Loc, pos: nat)
    requires Level(s, g, but) && loc in s.store && pos < |s.store[loc].keys| && loc !in but
    requires forall x | x in but :: x in g && loc in g && g[x].height < g[loc].height
    ensures Ready(DropState(s, loc, pos, Child(s.store[loc], pos)), g, but, loc, Child(s.store[loc], pos + 1))
  {
    hide DropState, Dropped, LevelAt;
    KidAt(s, g, but, loc, pos);
    KidAt(s, g, but, loc, pos + 1);
    DropLevel(s, g, but, loc, pos, Child(s.store[loc], pos));
    DropFrame(s, loc, pos, Child(s.store[loc], pos));
    DroppedRest(s.store[loc], pos, Child(s.store[loc], pos));
    assert WideAt(s, g, loc);
  }

  // ---- Two neighbours ----

  /** Neighbours in a level tree are at the same height, one below their parent. */
  lemma PairLevel(s: State, g: Shape, but: set<Loc>, p: Loc, i: nat)
    requires Level(s, g, but) && p in s.store && i < |s.store[p].keys| && Child(s.store[p], i) != NULL
    ensures var l, r := Child(s.store[p], i), Child(s.store[p], i + 1);
            && p in g && l in g && r in g && g[l].height + 1 == g[p].height == g[r].height + 1
            && KidLevel(g, g[p].height, l)
  {
    hide Level;
    KidAt(s, g, but, p, i);
    KidAt(s, g, but, p, i + 1);
  }

  /** The children of the joined bucket are those of the two. */
  lemma JoinedKids(s: State, g: Shape, l: Loc, r: Loc, sep: KeyNode, g': Shape, i: nat)
    requires LevelAt(s, g, l) && LevelAt(s, g, r) && g[l].height == g[r].height
    requires i <= |JoinedBucket(s.store[l], sep, s.store[r]).keys|
    requires forall c | c in g && g[c].height < g[l].height :: c in g' && g'[c].height == g[c].height
    ensures KidLevel(g', g[l].height, Child(JoinedBucket(s.store[l], sep, s.store[r]), i))
  {
    hide JoinedBucket;
    var lb, rb := s.store[l], s.store[r];
    JoinedAt(lb, sep, rb, 0);
    JoinedAt(lb, sep, rb, i);
    if i <= |lb.keys| {
      assert KidLevel(g, g[l].height, Child(lb, i));
    } else {
      assert KidLevel(g, g[r].height, Child(rb, i - |lb.keys| - 1));
    }
  }

  /** Merging two neighbours leaves only their parent with perhaps too few keys. */
  lemma MergeLevel(s: State, g: Shape, p: Loc, i: nat)
    requires Pair(s, g, p, i)
    ensures var l, r := Child(s.store[p], i), Child(s.store[p], i + 1);
            && l in s.store && r in s.store && l != r && l in g && r in g
            && (Level(s, g, {l, r}) && (g[l].height > 0 ==> |s.store[l].keys| + |s.store[r].keys| >= 1) ==>
                  Level(MergedState(s, p, i), AbsorbedShape(g, l, r), {p}))
  {
    hide Inv, DropState, Dropped, Snug, Absorbable, AbsorbedState, JoinedBucket, Merged, Level, LocalOk, SlotLo, SlotHi;
    PairParts(s, g, p, i);
    var l, r := Child(s.store[p], i), Child(s.store[p], i + 1);
    if Level(s, g, {l, r}) && (g[l].height > 0 ==> |s.store[l].keys| + |s.store[r].keys| >= 1) {
      MergedIsLevel(s, g, p, i, l, r, s.store[p].keys[i]);
    }
  }

  lemma MergedIsLevel(s: State, g: Shape, p: Loc, i: nat, l: Loc, r: Loc, sep: KeyNode)
    requires Pair(s, g, p, i) && l == Child(s.store[p], i) && r == Child(s.store[p], i + 1) && sep == s.store[p].keys[i]
    requires l in s.store && r in s.store && l != r && l in g && r in g && l != p && r != p && l != s.head && p in g
    requires Level(s, g, {l, r}) && (g[l].height > 0 ==> |s.store[l].keys| + |s.store[r].keys| >= 1)
    ensures Level(MergedState(s, p, i), AbsorbedShape(g, l, r), {p})
  {
    hide Inv, DropState, Dropped, Snug, Absorbable, AbsorbedState, JoinedBucket, Merged, LocalOk, IsChildOf;
    var d := DropState(s, p, i, l);
    DropFrame(s, p, i, l);
    DroppedRest(s.store[p], i, l);
    PairAbsorbable(s, g, p, i);
    AbsorbFrame(d, g, {r}, p, i, l, r, sep);
    NobodysKid(d, g, {r}, p, i, l, r, sep);
    MergedSame(d.store[l], sep, d.store[r]);
    PairLevel(s, g, {l, r}, p, i);
    DropLevel(s, g, {l, r}, p, i, l);
    var s', g' := MergedState(s, p, i), AbsorbedShape(g, l, r);
    JoinedAt(s.store[l], sep, s.store[r], 0);
    assert LevelAt(s, g, l) && LevelAt(s, g, r);
    forall y | y in s'.store
      ensures LevelAt(s', g', y) && (y !in {p} ==> WideAt(s', g', y))
    {
      if y == l {
        forall j | 0 <= j <= |s'.store[l].keys|
          ensures KidLevel(g', g'[l].height, Child(s'.store[l], j))
        {
          JoinedKids(s, g, l, r, sep, g', j);
        }
      } else {
        assert LevelAt(d, g, y);
        assert y != p ==> WideAt(s, g, y) && s'.store[y].keys == s.store[y].keys;
        OtherKids(d, g, y, s', g', r);
      }
    }
  }

  lemma NobodysKid(d: State, g: Shape, loose: set<Loc>, p: Loc, j: nat, l: Loc, r: Loc, sep: KeyNode)
    requires Absorbable(d, g, loose, p, j, l, r, sep)
    ensures forall y | y in d.store :: !IsChildOf(d.store[y], r)
  {
    hide IsChildOf, LocalOk, ChildrenOk, Attached;
  }

  /** A bucket other than the joined ones keeps its children, none of which is the one that goes. */
  lemma OtherKids(d: State, g: Shape, y: Loc, s': State, g': Shape, r: Loc)
    requires LevelAt(d, g, y) && y in s'.store && y in g' && g'[y].height == g[y].height
    requires s'.store[y].keys == d.store[y].keys && s'.store[y].next == d.store[y].next
    requires !IsChildOf(d.store[y], r) && forall c | c in g && c != r :: c in g' && g'[c].height == g[c].height
    ensures LevelAt(s', g', y)
  {
    forall j | 0 <= j <= |s'.store[y].keys|
      ensures KidLevel(g', g'[y].height, Child(s'.store[y], j))
    {
      assert Child(s'.store[y], j) == Child(d.store[y], j);
      assert KidLevel(g, g[y].height, Child(d.store[y], j));
    }
  }

  /** With their keys shared out, the two neighbours have enough of them, and the separator can go up. */
  lemma ShareLevel(s: State, g: Shape, p: Loc, i: nat, split: nat, l': Bucket, r': Bucket)
    requires Pair(s, g, p, i) && Shares(s, p, i, split, l', r')
    ensures var l, r := Child(s.store[p], i), Child(s.store[p], i + 1);
            && l in s.store && r in s.store && l in g && r in g && split < |PairKeys(s, p, i)|
            && (Level(s, g, {l, r}) && (g[l].height > 0 ==> |l'.keys| >= 2 && |r'.keys| >= 2) ==>
                  Ready(SharedState(s, p, i, l', r'), SharedShape(s, g, p, i, EntryOf(PairKeys(s, p, i)[split])), {}, p,
                    r))
  {
    hide Inv, Dropped, Snug, JoinedBucket, Level, LocalOk, SlotLo, SlotHi, SharedState, SharedShape, SpaceOk, Ready;
    PairParts(s, g, p, i);
    var l, r := Child(s.store[p], i), Child(s.store[p], i + 1);
    if Level(s, g, {l, r}) && (g[l].height > 0 ==> |l'.keys| >= 2 && |r'.keys| >= 2) {
      SharedIsReady(s, g, p, i, split, l', r', l, r);
    }
  }

  lemma SharedIsReady(s: State, g: Shape, p: Loc, i: nat, split: nat, l': Bucket, r': Bucket, l: Loc, r: Loc)
    requires Pair(s, g, p, i) && Shares(s, p, i, split, l', r') && l == Child(s.store[p], i)
             && r == Child(s.store[p], i + 1)
    requires l in s.store && r in s.store && l != r && l in g && r in g && l != p && r != p && p in g && l != s.head
             && r != s.head
    requires Level(s, g, {l, r}) && (g[l].height > 0 ==> |l'.keys| >= 2 && |r'.keys| >= 2)
    ensures split < |PairKeys(s, p, i)|
    ensures Ready(SharedState(s, p, i, l', r'), SharedShape(s, g, p, i, EntryOf(PairKeys(s, p, i)[split])), {}, p, r)
  {
    hide Inv, Dropped, Snug, JoinedBucket, LocalOk, SlotLo, SlotHi, SharedState, SpaceOk, IsChildOf, Level, DropState;
    PairLevel(s, g, {l, r}, p, i);
    KidAt(s, g, {l, r}, p, i + 1);
    DropLevel(s, g, {l, r}, p, i, l);
    DropFrame(s, p, i, l);
    DroppedRest(s.store[p], i, l);
    SharedKeys(s, p, i, l', r', l, r);
    var s', g' := SharedState(s, p, i, l', r'), SharedShape(s, g, p, i, EntryOf(PairKeys(s, p, i)[split]));
    SharedHeightsSame(s, g, p, i, EntryOf(PairKeys(s, p, i)[split]), l, r);
    forall y | y in s'.store
      ensures LevelAt(s', g', y) && (y !in {p} ==> WideAt(s', g', y))
    {
      SharedIsLevel(s, g, p, i, split, l', r', l, r, s', g', y);
    }
    LevelAll(s', g', p);
    WideParent(s, g, p, l, r);
  }

  lemma LevelAll(s: State, g: Shape, p: Loc)
    requires forall y | y in s.store :: LevelAt(s, g, y) && (y !in {p} ==> WideAt(s, g, y))
    ensures Level(s, g, {} + {p})
  {
  }

  lemma WideParent(s: State, g: Shape, p: Loc, l: Loc, r: Loc)
    requires Level(s, g, {l, r}) && p in s.store && p != l && p != r
    ensures WideAt(s, g, p)
  {
  }

  /** What the buckets hold after sharing out. */
  lemma SharedKeys(s: State, p: Loc, i: nat, l': Bucket, r': Bucket, l: Loc, r: Loc)
    requires p in s.store && i < |s.store[p].keys| && l == Child(s.store[p], i) && r == Child(s.store[p], i + 1)
    requires l in s.store && r in s.store && l != r && l != p && r != p
    ensures var s' := SharedState(s, p, i, l', r');
            && s'.store.Keys == s.store.Keys && s'.head == s.head && s'.store[l] == l' && s'.store[r] == r'
            && s'.store[p] == Dropped(s.store[p], i, l)
            && forall y | y in s.store && y != l && y != r && y != p ::
                 s'.store[y].keys == s.store[y].keys && s'.store[y].next == s.store[y].next
  {
    hide Dropped, Kids;
  }

  lemma SharedHeightsSame(s: State, g: Shape, p: Loc, i: nat, e: Entry, l: Loc, r: Loc)
    requires p in s.store && i < |s.store[p].keys| && l == Child(s.store[p], i) && r == Child(s.store[p], i + 1)
    requires l in g && r in g && g[l].height == g[r].height
    ensures forall x | x in g ::
              x in SharedShape(s, g, p, i, e) && SharedShape(s, g, p, i, e)[x].height == g[x].height
  {
  }

  lemma SharedIsLevel(s: State, g: Shape, p: Loc, i: nat, split: nat, l': Bucket, r': Bucket, l: Loc, r: Loc, s': State,
                      g': Shape, y: Loc)
    requires p in s.store && i < |s.store[p].keys| && l == Child(s.store[p], i) && r == Child(s.store[p], i + 1)
             && l != NULL && l in g && r in g
    requires Shares(s, p, i, split, l', r') && Level(s, g, {l, r}) && l != r && l != p && r != p
    requires g[l].height > 0 ==> |l'.keys| >= 2 && |r'.keys| >= 2
    requires y in s'.store && s'.store.Keys == s.store.Keys && s'.head == s.head && l != s.head && r != s.head
    requires s'.store[l] == l' && s'.store[r] == r' && s'.store[p] == Dropped(s.store[p], i, l)
    requires forall x | x in s.store && x != l && x != r && x != p ::
               s'.store[x].keys == s.store[x].keys && s'.store[x].next == s.store[x].next
    requires forall x | x in g :: x in g' && g'[x].height == g[x].height
    ensures LevelAt(s', g', y) && (y !in {p} ==> WideAt(s', g', y))
  {
    hide Dropped, JoinedBucket, IsChildOf, SpaceOk, DropState;
    PairLevel(s, g, {l, r}, p, i);
    assert LevelAt(s, g, y) && (y !in {l, r} ==> WideAt(s, g, y));
    if y == l || y == r {
      var all := JoinedBucket(s.store[l], s.store[p].keys[i], s.store[r]);
      assert LevelAt(s, g, l) && LevelAt(s, g, r);
      forall j | 0 <= j <= |s'.store[y].keys|
        ensures KidLevel(g', g'[y].height, Child(s'.store[y], j))
      {
        var k := if y == l then j else split + 1 + j;
        assert Child(s'.store[y], j) == Child(all, k);
        JoinedKids(s, g, l, r, s.store[p].keys[i], g', k);
      }
    } else if y == p {
      DropFrame(s, p, i, l);
      DropLevel(s, g, {l, r}, p, i, l);
      var d := DropState(s, p, i, l);
      assert LevelAt(d, g, p);
      OwnKids(d.store[p], s'.store[p]);
      SameKids(d, g, p, s', g', p);
    } else {
      OwnKids(s.store[y], s'.store[y]);
      SameKids(s, g, y, s', g', y);
    }
  }

  // ---- A lower root ----

  lemma LowerLevel(s: State, g: Shape)
    requires Inv(s, g, {}) && s.store[s.head].keys == [] && s.store[s.head].next != NULL
             && s.store[s.head].next in s.store
    ensures Level(s, g, {s.head}) ==> Level(LoweredState(s), LoweredShape(s, g), {})
  {
    hide LocalOk, IsChildOf, ChildrenOk, Attached;
    LowerFrame(s, g);
    if Level(s, g, {s.head}) {
      var c := s.store[s.head].next;
      KidAt(s, g, {s.head}, s.head, 0);
      var s', g' := LoweredState(s), LoweredShape(s, g);
      forall y | y in s'.store
        ensures LevelAt(s', g', y) && WideAt(s', g', y)
      {
        assert LevelAt(s, g, y) && WideAt(s, g, y);
        OwnKids(s.store[y], s'.store[y]);
        SameKids(s, g, y, s', g', y);
      }
    }
  }

  // ---- How deep the leaves are ----

  /** The number of buckets above the one at `x`. */
  ghost function Depth(s: State, g: Shape, x: Loc): nat
    requires Tree(s, g) && x in s.store
    decreases if x in g && s.head in g then g[s.head].height - g[x].height else 0
  {
    if x == s.head then 0 else
      ParentOf(s, g, x);
      1 + Depth(s, g, s.store[x].parent)
  }

  lemma {:induction false} DepthAndHeight(s: State, g: Shape, but: set<Loc>, x: Loc)
    requires Tree(s, g) && Level(s, g, but) && x in s.store
    ensures x in g && s.head in g && Depth(s, g, x) + g[x].height == g[s.head].height
    decreases if x in g && s.head in g then g[s.head].height - g[x].height else 0
  {
    hide Inv, Level;
    LocalOf(s, g, x);
    if x != s.head {
      ParentOf(s, g, x);
      var p := s.store[x].parent;
      DepthAndHeight(s, g, but, p);
      var i :| 0 <= i <= |s.store[p].keys| && Child(s.store[p], i) == x;
      KidAt(s, g, but, p, i);
    }
  }

  lemma LocalOf(s: State, g: Shape, x: Loc)
    requires Tree(s, g) && x in s.store
    ensures x in g && s.head in g && s.head in s.store && g[x].height <= g[s.head].height && x != NULL
  {
  }

  /** All buckets that lack a child are equally deep, and lack all of them. */
  lemma LeavesEquallyDeep(s: State, g: Shape, x: Loc, i: nat, y: Loc, j: nat)
    requires Tree(s, g) && Level(s, g, {}) && x in s.store && y in s.store
    requires i <= |s.store[x].keys| && Child(s.store[x], i) == NULL
    requires j <= |s.store[y].keys| && Child(s.store[y], j) == NULL
    ensures Depth(s, g, x) == Depth(s, g, y)
    ensures forall k | 0 <= k <= |s.store[x].keys| :: Child(s.store[x], k) == NULL
  {
    hide Inv, Level;
    DepthAndHeight(s, g, {}, x);
    DepthAndHeight(s, g, {}, y);
    KidAt(s, g, {}, x, i);
    KidAt(s, g, {}, y, j);
    forall k | 0 <= k <= |s.store[x].keys|
      ensures Child(s.store[x], k) == NULL
    {
      KidAt(s, g, {}, x, k);
    }
  }
}
