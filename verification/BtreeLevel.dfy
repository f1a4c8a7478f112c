/**
 Trees whose leaves are all equally deep: every bucket has either no children at all or a
 child in every slot, one level below it. Above the leaves a bucket has at least two keys,
 the root at least one.
 */
module BtreeLevel {
  import opened Bucket
  import opened BtreeShape
  import opened BtreePack
  import opened BtreeSplit

  /** What stands in the slots of a bucket of height `h`. */
  ghost predicate KidLevel(g: Shape, h: nat, c: Loc) {
    if h == 0 then c == NULL else c != NULL && c in g && g[c].height + 1 == h
  }

  ghost predicate LevelAt(s: State, g: Shape, x: Loc) {
    && x in s.store && x in g
    && forall i | 0 <= i <= |s.store[x].keys| :: KidLevel(g, g[x].height, Child(s.store[x], i))
  }

  ghost predicate WideAt(s: State, g: Shape, x: Loc) {
    x in s.store && x in g && (g[x].height > 0 ==> |s.store[x].keys| >= if x == s.head then 1 else 2)
  }

  /** All buckets are level, and all but those named are wide. */
  ghost predicate Level(s: State, g: Shape, but: set<Loc>) {
    forall x | x in s.store :: LevelAt(s, g, x) && (x !in but ==> WideAt(s, g, x))
  }

  /** With one key more, the bucket would be wide. */
  ghost predicate Enough(s: State, g: Shape, loc: Loc) {
    loc in s.store && loc in g && (g[loc].height > 0 && loc != s.head ==> s.store[loc].keys != [])
  }

  /** A key with `r` to its right may be put into the bucket at `loc`, as far as levels go. */
  ghost predicate Ready(s: State, g: Shape, but: set<Loc>, loc: Loc, r: Loc) {
    && Level(s, g, but + {loc}) && Enough(s, g, loc) && KidLevel(g, g[loc].height, r)
    && forall x | x in but :: x in g && g[x].height < g[loc].height
  }

  lemma LevelLess(s: State, g: Shape, but: set<Loc>, more: set<Loc>)
    requires Level(s, g, but) && but <= more
    ensures Level(s, g, more)
  {
    hide LevelAt, WideAt;
  }

  /** A bucket whose children are among those of a level bucket of the same height is level. */
  lemma SameKids(s: State, g: Shape, x: Loc, s': State, g': Shape, x': Loc)
    requires LevelAt(s, g, x) && x' in s'.store && x' in g' && g'[x'].height == g[x].height
    requires forall i | 0 <= i <= |s'.store[x'].keys| :: IsChildOf(s.store[x], Child(s'.store[x'], i))
    requires forall c | c in g && IsChildOf(s.store[x], c) :: c in g' && g'[c].height == g[c].height
    ensures LevelAt(s', g', x')
  {
    forall i | 0 <= i <= |s'.store[x'].keys|
      ensures KidLevel(g', g'[x'].height, Child(s'.store[x'], i))
    {
      var c := Child(s'.store[x'], i);
      var j :| 0 <= j <= |s.store[x].keys| && Child(s.store[x], j) == c;
      assert KidLevel(g, g[x].height, Child(s.store[x], j));
    }
  }

  lemma OwnKids(b: Bucket, b': Bucket)
    requires b'.keys == b.keys && b'.next == b.next
    ensures forall i | 0 <= i <= |b'.keys| :: IsChildOf(b, Child(b', i))
  {
    forall i | 0 <= i <= |b'.keys|
      ensures IsChildOf(b, Child(b', i))
    {
      assert Child(b', i) == Child(b, i);
    }
  }

  /** Only the heights matter, not the intervals. */
  lemma SameHeights(s: State, g: Shape, g': Shape, but: set<Loc>)
    requires forall x | x in g :: x in g' && g'[x].height == g[x].height
    ensures Level(s, g, but) ==> Level(s, g', but)
  {
    if Level(s, g, but) {
      forall x | x in s.store
        ensures LevelAt(s, g', x) && (x !in but ==> WideAt(s, g', x))
      {
        assert LevelAt(s, g, x) && (x !in but ==> WideAt(s, g, x));
        OwnKids(s.store[x], s.store[x]);
        SameKids(s, g, x, s, g', x);
      }
    }
  }

  /** Nor does what a bucket holds besides its children and the number of its keys. */
  lemma ReplaceLevel(s: State, g: Shape, but: set<Loc>, x: Loc, b: Bucket)
    requires x in s.store && |b.keys| == |s.store[x].keys|
    requires forall i | 0 <= i <= |b.keys| :: Child(b, i) == Child(s.store[x], i)
    ensures Level(s, g, but) ==> Level(Replaced(s, x, b), g, but)
  {
    var s' := Replaced(s, x, b);
    if Level(s, g, but) {
      forall y | y in s'.store
        ensures LevelAt(s', g, y) && (y !in but ==> WideAt(s', g, y))
      {
        assert LevelAt(s, g, y) && (y !in but ==> WideAt(s, g, y));
        assert forall i | 0 <= i <= |s'.store[y].keys| :: Child(s'.store[y], i) == Child(s.store[y], i);
      }
    }
  }

  /** Where a bucket of a level tree lacks a child, a key without children may be put in. */
  lemma LeafReady(s: State, g: Shape, loc: Loc, i: nat)
    requires Level(s, g, {}) && loc in s.store && i <= |s.store[loc].keys| && Child(s.store[loc], i) == NULL
    ensures Ready(s, g, {}, loc, NULL)
  {
    hide WideAt;
    assert LevelAt(s, g, loc);
    assert KidLevel(g, g[loc].height, Child(s.store[loc], i));
    LevelLess(s, g, {}, {} + {loc});
  }

  // ---- Packing ----

  /** In a bucket with a child in every slot, no key may be dropped. */
  lemma {:induction false} AllKept(keys: seq<KeyNode>, k: nat, ref: int)
    requires k <= |keys| && forall i | 0 <= i < k :: keys[i].child != NULL
    ensures Kept(keys, k, ref) == keys[..k]
  {
    if k > 0 {
      AllKept(keys, k - 1, ref);
      assert keys[..k] == keys[..k-1] + [keys[k-1]];
    }
  }

  lemma PackedKids(b: Bucket, ref: int)
    ensures forall i | 0 <= i <= |PackedBucket(b, ref).keys| :: IsChildOf(b, Child(PackedBucket(b, ref), i))
    ensures (forall i | 0 <= i < |b.keys| :: b.keys[i].child != NULL) ==> PackedBucket(b, ref).keys == b.keys
  {
    hide Bytes;
    var b' := PackedBucket(b, ref);
    if b.packed {
      OwnKids(b, b');
    } else {
      forall i | 0 <= i <= |b'.keys|
        ensures IsChildOf(b, Child(b', i))
      {
        assert Child(b', i) == Child(b, ChildSource(b.keys, ref, i));
      }
      if forall i | 0 <= i < |b.keys| :: b.keys[i].child != NULL {
        AllKept(b.keys, |b.keys|, ref);
        assert b.keys[..|b.keys|] == b.keys;
      }
    }
  }

  lemma LevelKids(s: State, g: Shape, x: Loc)
    requires LevelAt(s, g, x) && g[x].height > 0
    ensures forall i | 0 <= i < |s.store[x].keys| :: s.store[x].keys[i].child != NULL
  {
    forall i | 0 <= i < |s.store[x].keys|
      ensures s.store[x].keys[i].child != NULL
    {
      assert KidLevel(g, g[x].height, Child(s.store[x], i));
    }
  }

  /** Packing a bucket keeps the tree level, and above the leaves drops nothing. */
  lemma PackLevel(s: State, g: Shape, but: set<Loc>, x: Loc, ref: int)
    requires Level(s, g, but) && x in s.store
    ensures Level(Replaced(s, x, PackedBucket(s.store[x], ref)), g, but)
    ensures x in g && g[x].height > 0 ==> PackedBucket(s.store[x], ref).keys == s.store[x].keys
  {
    hide PackedBucket, IsChildOf;
    var s' := Replaced(s, x, PackedBucket(s.store[x], ref));
    assert LevelAt(s, g, x);
    PackedKids(s.store[x], ref);
    if g[x].height > 0 {
      LevelKids(s, g, x);
    }
    forall y | y in s'.store
      ensures LevelAt(s', g, y) && (y !in but ==> WideAt(s', g, y))
    {
      assert LevelAt(s, g, y) && (y !in but ==> WideAt(s, g, y));
      OwnKids(s.store[y], s.store[y]);
      SameKids(s, g, y, s', g, y);
    }
  }

  // ---- Putting a key in ----

  lemma InsertLevel(s: State, g: Shape, but: set<Loc>, loc: Loc, pos: nat, rec: int, key: Key, l: Loc, r: Loc)
    requires Ready(s, g, but, loc, r) && pos <= |s.store[loc].keys| && Child(s.store[loc], pos) == l && r != loc
    ensures Level(InsertedState(s, loc, pos, rec, key, l, r), g, but)
  {
    hide InsertedState, Inserted, IsChildOf;
    var s' := InsertedState(s, loc, pos, rec, key, l, r);
    InsertFrame(s, loc, pos, rec, key, l, r);
    InsertedRest(s.store[loc], pos, rec, key, l, r);
    forall y | y in s'.store
      ensures LevelAt(s', g, y) && (y !in but ==> WideAt(s', g, y))
    {
      assert LevelAt(s, g, y) && (y !in but + {loc} ==> WideAt(s, g, y));
      if y == loc {
        forall i | 0 <= i <= |s'.store[loc].keys|
          ensures KidLevel(g, g[loc].height, Child(s'.store[loc], i))
        {
          InsertedAt(s.store[loc], pos, rec, key, l, r, i);
          if i != pos + 1 {
            assert KidLevel(g, g[loc].height, Child(s.store[loc], if i <= pos then i else i - 1));
          }
        }
      } else {
        OwnKids(s.store[y], s'.store[y]);
        SameKids(s, g, y, s', g, y);
      }
    }
  }

  // ---- A new root ----

  lemma GrowLevel(s: State, g: Shape, but: set<Loc>)
    requires Level(s, g, but) && s.head in but && s.head in s.store && g.Keys == s.store.Keys
             && s.unusedFrom !in s.store
             && NULL !in s.store
    ensures Level(GrownState(s), GrownShape(s, g), but + {s.unusedFrom})
    ensures KidLevel(GrownShape(s, g), GrownShape(s, g)[s.unusedFrom].height, s.head)
  {
    var s', g', p := GrownState(s), GrownShape(s, g), s.unusedFrom;
    hide GrownState, IsChildOf;
    forall y | y in s'.store
      ensures LevelAt(s', g', y) && (y !in but + {p} ==> WideAt(s', g', y))
    {
      if y == p {
        assert s'.store[p] == Bucket(NULL, s.head, [], BODY, true);
      } else {
        assert LevelAt(s, g, y) && (y !in but ==> WideAt(s, g, y));
        assert s'.store[y].keys == s.store[y].keys && s'.store[y].next == s.store[y].next;
        OwnKids(s.store[y], s'.store[y]);
        SameKids(s, g, y, s', g', y);
      }
    }
  }

  // ---- Splitting off the right half ----

  lemma SplitLevel(s: State, g: Shape, but: set<Loc>, loc: Loc, split: nat, r: Loc)
    requires Level(s, g, but) && loc in but && loc in s.store && split < |s.store[loc].keys|
    requires g.Keys == s.store.Keys && r !in s.store && loc in g
    requires !IsChildOf(s.store[loc], loc) && !IsChildOf(s.store[loc], r)
    ensures Level(SplitState(s, loc, split, r), SplitShape(s, g, loc, split, r), but + {r})
    ensures r in SplitShape(s, g, loc, split, r) && SplitShape(s, g, loc, split, r)[r].height == g[loc].height
    ensures forall x | x in g ::
              x in SplitShape(s, g, loc, split, r) && SplitShape(s, g, loc, split, r)[x].height == g[x].height
  {
    hide SplitState, LeftHalf, RightHalf, IsChildOf;
    var s', g' := SplitState(s, loc, split, r), SplitShape(s, g, loc, split, r);
    SplitFrame(s, g, loc, split, r);
    forall y | y in s'.store
      ensures LevelAt(s', g', y) && (y !in but + {r} ==> WideAt(s', g', y))
    {
      assert LevelAt(s, g, if y == r then loc else y);
      if y == loc || y == r {
        HalvesAreKids(s.store[loc], split);
        SameKids(s, g, loc, s', g', y);
      } else {
        assert y !in but ==> WideAt(s, g, y);
        OwnKids(s.store[y], s'.store[y]);
        SameKids(s, g, y, s', g', y);
      }
    }
  }

  lemma HalvesAreKids(b: Bucket, split: nat)
    requires split < |b.keys|
    ensures forall i | 0 <= i <= |LeftHalf(b, split).keys| :: IsChildOf(b, Child(LeftHalf(b, split), i))
    ensures forall i | 0 <= i <= |RightHalf(b, split).keys| :: IsChildOf(b, Child(RightHalf(b, split), i))
  {
    hide LeftHalf, RightHalf;
    HalvesAt(b, split, 0);
    forall i | 0 <= i <= |LeftHalf(b, split).keys|
      ensures IsChildOf(b, Child(LeftHalf(b, split), i))
    {
      HalvesAt(b, split, i);
    }
    forall i | 0 <= i <= |RightHalf(b, split).keys|
      ensures IsChildOf(b, Child(RightHalf(b, split), i))
    {
      HalvesAt(b, split, i);
    }
  }

  // ---- How many keys there are in a given space ----

  /** The half that the pending key of a full bucket does not go to has two keys at least. */
  lemma SplitWide(keys: seq<KeyNode>, keypos: nat, size: int, split: int)
    requires KeySizes(keys) && 1 <= size <= KEY_MAX && keypos <= |keys|
    requires Bytes(keys) <= BODY < Bytes(keys) + size + KEY_NODE
    requires split == Clamp(Halfway(keys, |keys|, Bytes(keys) / if keypos == |keys| then 10 else 2), |keys|)
    ensures keypos <= split ==> |keys| - split - 1 >= 2
    ensures keypos > split ==> split >= 2
  {
    hide Bytes, Halfway, Clamp, KeySizes;
    var limit := Bytes(keys) / if keypos == |keys| then 10 else 2;
    BytesBounds(keys);
    NoTail(keys);
    HalfwayBounds(keys, |keys|, limit);
    var r := Halfway(keys, |keys|, limit);
    HalfwayHere(keys, r, limit);
    BytesSplit(keys, r);
    SliceSizes(keys, r);
    BytesBounds(keys[r+1..]);
    BytesBounds(keys[..r]);
    WideHalves(|keys|, keypos, Bytes(keys), limit, r, Bytes(keys[..r]), Cost(keys[r]), Bytes(keys[r+1..]));
  }

  lemma HalfwayHere(keys: seq<KeyNode>, r: int, limit: int)
    requires -1 <= r < |keys| && (r == -1 ==> Bytes(keys) <= limit) && limit < Bytes(keys)
    ensures r >= 0
  {
  }

  lemma SliceSizes(keys: seq<KeyNode>, r: nat)
    requires KeySizes(keys) && r < |keys|
    ensures KeySizes(keys[..r]) && KeySizes(keys[r+1..]) && Bytes(keys[r..]) == Cost(keys[r]) + Bytes(keys[r+1..])
    ensures Cost(keys[r]) <= KEY_MAX + KEY_NODE
  {
    hide Bytes;
    BytesSplit(keys, r);
  }

  lemma WideHalves(n: nat, keypos: nat, total: int, limit: int, r: nat, before: int, cost: int, after: int)
    requires total == before + cost + after && total + KEY_MAX + KEY_NODE > BODY && r < n && keypos <= n
    requires cost <= KEY_MAX + KEY_NODE && after <= limit < after + cost
    requires before <= r * (KEY_MAX + KEY_NODE) && after <= (n - r - 1) * (KEY_MAX + KEY_NODE)
    requires total <= n * (KEY_MAX + KEY_NODE) && limit <= total / 2 && (keypos < n ==> limit == total / 2)
    ensures var split := Clamp(r, n);
            (keypos <= split ==> n - split - 1 >= 2) && (keypos > split ==> split >= 2)
  {
  }

  /** So have both neighbours that have shared out more than a bucket's size. */
  lemma ShareWide(keys: seq<KeyNode>)
    requires KeySizes(keys) && Bytes(keys) > BODY
    ensures var r := Clamp(Halfway(keys, |keys|, Bytes(keys) / 2), |keys|); 2 <= r <= |keys| - 3
  {
    hide Bytes, Halfway, Clamp, KeySizes;
    HalfwayInside(keys);
    var r := Halfway(keys, |keys|, Bytes(keys) / 2);
    SliceSizes(keys, r);
    BytesBounds(keys[r+1..]);
    BytesBounds(keys[..r]);
    WideShares(|keys|, r, Bytes(keys), Bytes(keys[..r]), Cost(keys[r]), Bytes(keys[r+1..]));
  }

  lemma WideShares(n: nat, r: nat, total: int, before: int, cost: int, after: int)
    requires total == before + cost + after && total > BODY && r < n && cost <= KEY_MAX + KEY_NODE
    requires after <= total / 2 < after + cost
    requires before <= r * (KEY_MAX + KEY_NODE) && after <= (n - r - 1) * (KEY_MAX + KEY_NODE)
    ensures 2 <= Clamp(r, n) <= n - 3
  {
  }

  /** And so has a bucket that is not below the low-water mark. */
  lemma MarkWide(keys: seq<KeyNode>)
    requires KeySizes(keys) && Bytes(keys) >= LOW_WATER
    ensures |keys| >= 2
  {
    hide Bytes;
    BytesBounds(keys);
  }
}
