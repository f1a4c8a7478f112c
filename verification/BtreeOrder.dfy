/**
 The whole tree as one ordered sequence: descent finds every entry there is, and the
 in-order walk lists the used entries in strictly increasing order.
 */
module BtreeOrder {
  import opened Basics
  import opened Bucket
  import opened BtreeShape
  import opened BtreeSplit

  /** A well-formed tree. */
  ghost predicate Tree(s: State, g: Shape) { Inv(s, g, {}) }

  lemma ParentOf(s: State, g: Shape, x: Loc)
    requires Tree(s, g) && x in s.store && x != s.head
    ensures var p := s.store[x].parent;
            && p in s.store && p in g && x in g && IsChildOf(s.store[p], x)
            && g[x].height < g[p].height <= g[s.head].height
  {
    hide LocalOk, Inside;
    assert Attached(s, x);
    ParentIs(s, g, s.store[x].parent, x);
  }

  /** The bucket at `x` is at or below the one at `loc`. */
  ghost predicate Under(s: State, g: Shape, x: Loc, loc: Loc)
    requires Tree(s, g) && x in s.store
    decreases g[s.head].height - g[x].height
  {
    x == loc || (x != s.head && (ParentOf(s, g, x); Under(s, g, s.store[x].parent, loc)))
  }

  lemma {:induction false} AllUnderHead(s: State, g: Shape, x: Loc)
    requires Tree(s, g) && x in s.store
    ensures Under(s, g, x, s.head)
    decreases g[s.head].height - g[x].height
  {
    hide LocalOk, ChildrenOk, Attached;
    if x != s.head {
      ParentOf(s, g, x);
      AllUnderHead(s, g, s.store[x].parent);
    }
  }

  /** A bucket whose interval holds `e` hangs below exactly the child the search for `e` goes to. */
  lemma {:induction false} SearchNarrows(s: State, g: Shape, x: Loc, loc: Loc, pos: nat, e: Entry)
    requires Tree(s, g) && x in s.store && loc in s.store && Under(s, g, x, loc) && x != loc
    requires Above(g[x].lo, e) && Below(e, g[x].hi) && Gap(s.store[loc], g[loc], pos, e)
    ensures var c := Child(s.store[loc], pos);
            c in s.store && Under(s, g, x, c)
    decreases g[s.head].height - g[x].height
  {
    hide LocalOk, ChildrenOk, Attached, Gap;
    ParentOf(s, g, x);
    var p := s.store[x].parent;
    GapIndex(s, g, p, x, e, pos);
    if p != loc {
      SearchNarrows(s, g, p, loc, pos, e);
    }
  }

  /** An entry inside a child's interval is inside its parent's, and searched for at that child. */
  lemma GapIndex(s: State, g: Shape, p: Loc, x: Loc, e: Entry, pos: nat)
    requires Tree(s, g) && p in s.store && x in s.store && IsChildOf(s.store[p], x)
    requires Above(g[x].lo, e) && Below(e, g[x].hi)
    ensures Above(g[p].lo, e) && Below(e, g[p].hi)
    ensures Gap(s.store[p], g[p], pos, e) ==> pos <= |s.store[p].keys| && Child(s.store[p], pos) == x
  {
    hide SpaceOk, Attached;
    var b := s.store[p];
    var i :| 0 <= i <= |b.keys| && Child(b, i) == x;
    assert ChildrenOk(s, g, p) && ChildOk(s, g, p, i) && LocalOk(b, g[p]);
    InsideGap(b, g[p], i, g[x], e);
    if Gap(b, g[p], pos, e) {
      GapUnique(b, g[p], i, pos, e);
    }
  }

  lemma InsideGap(b: Bucket, info: Info, i: nat, inner: Info, e: Entry)
    requires Within(b.keys, info) && i <= |b.keys| && Inside(inner, SlotLo(b, info, i), SlotHi(b, info, i))
    requires Above(inner.lo, e) && Below(e, inner.hi)
    ensures Gap(b, info, i, e)
  {
    if i > 0 {
      LessTransitive(EntryOf(b.keys[i-1]), inner.lo.value, e);
      if info.lo.Some? {
        LessTransitive(info.lo.value, EntryOf(b.keys[i-1]), e);
      }
    } else if info.lo.Some? {
      LessTransitive(info.lo.value, inner.lo.value, e);
    }
    if i < |b.keys| {
      LessTransitive(e, inner.hi.value, EntryOf(b.keys[i]));
      if info.hi.Some? {
        LessTransitive(e, EntryOf(b.keys[i]), info.hi.value);
      }
    } else if info.hi.Some? {
      LessTransitive(e, inner.hi.value, info.hi.value);
    }
  }

  lemma GapUnique(b: Bucket, info: Info, i: nat, j: nat, e: Entry)
    requires Sorted(b.keys) && Gap(b, info, i, e) && Gap(b, info, j, e)
    ensures i == j
  {
    if i < j {
      var x, y := EntryOf(b.keys[i]), EntryOf(b.keys[j-1]);
      LessTransitive(e, x, y);
      LessTransitive(e, y, e);
    } else if j < i {
      var x, y := EntryOf(b.keys[j]), EntryOf(b.keys[i-1]);
      LessTransitive(e, x, y);
      LessTransitive(e, y, e);
    }
  }

  /** Every bucket that has the entry is at or below `loc`. */
  ghost predicate OnlyUnder(s: State, g: Shape, loc: Loc, e: Entry)
    requires Tree(s, g)
  {
    forall x | x in s.store && HasKey(s.store[x], e) :: Under(s, g, x, loc)
  }

  lemma KeyInside(s: State, g: Shape, x: Loc, e: Entry)
    requires Tree(s, g) && x in s.store && HasKey(s.store[x], e)
    ensures Above(g[x].lo, e) && Below(e, g[x].hi)
  {
    hide SpaceOk, ChildrenOk, Attached;
    assert LocalOk(s.store[x], g[x]);
  }

  /** Going down to the child at the gap loses no entry. */
  lemma Descend(s: State, g: Shape, loc: Loc, pos: nat, e: Entry)
    requires Tree(s, g) && loc in s.store && OnlyUnder(s, g, loc, e) && !HasKey(s.store[loc], e)
    requires Gap(s.store[loc], g[loc], pos, e)
    ensures var c := Child(s.store[loc], pos);
            if c in s.store then OnlyUnder(s, g, c, e) else forall x | x in s.store :: !HasKey(s.store[x], e)
  {
    hide LocalOk, ChildrenOk, Attached, Gap, HasKey;
    GapIsPos(s.store[loc], g[loc], pos, e);
    forall x | x in s.store && HasKey(s.store[x], e)
      ensures var c := Child(s.store[loc], pos); c in s.store && Under(s, g, x, c)
    {
      KeyInside(s, g, x, e);
      SearchNarrows(s, g, x, loc, pos, e);
    }
  }

  lemma GapIsPos(b: Bucket, info: Info, pos: nat, e: Entry)
    requires Gap(b, info, pos, e)
    ensures pos <= |b.keys|
  {
  }

  // ---- In order ----

  lemma ChildAt(s: State, g: Shape, loc: Loc, i: nat)
    requires Tree(s, g) && loc in s.store && i <= |s.store[loc].keys| && Child(s.store[loc], i) != NULL
    ensures var c := Child(s.store[loc], i);
            && c in s.store && c in g && s.store[c].parent == loc && g[c].height < g[loc].height
            && Inside(g[c], SlotLo(s.store[loc], g[loc], i), SlotHi(s.store[loc], g[loc], i))
  {
    hide LocalOk, Attached;
    assert ChildrenOk(s, g, loc) && ChildOk(s, g, loc, i);
  }

  ghost function OwnEntry(k: KeyNode): seq<Entry> { if Unused(k) then [] else [EntryOf(k)] }

  /** The used entries of the first `i` children and keys, in order. */
  ghost function Walk(s: State, g: Shape, loc: Loc, i: nat): seq<Entry>
    requires Tree(s, g) && loc in s.store && i <= |s.store[loc].keys|
    decreases g[loc].height, i, 0
  {
    if i == 0 then []
    else Walk(s, g, loc, i - 1) + WalkChild(s, g, loc, i - 1) + OwnEntry(s.store[loc].keys[i-1])
  }

  ghost function WalkChild(s: State, g: Shape, loc: Loc, i: nat): seq<Entry>
    requires Tree(s, g) && loc in s.store && i <= |s.store[loc].keys|
    decreases g[loc].height, i, 1
  {
    var c := Child(s.store[loc], i);
    if c == NULL then []
    else
      ChildAt(s, g, loc, i);
      Walk(s, g, c, |s.store[c].keys|) + WalkChild(s, g, c, |s.store[c].keys|)
  }

  /** The used entries at and below a bucket, in order. */
  ghost function InOrder(s: State, g: Shape, loc: Loc): seq<Entry>
    requires Tree(s, g) && loc in s.store
  {
    Walk(s, g, loc, |s.store[loc].keys|) + WalkChild(s, g, loc, |s.store[loc].keys|)
  }

  predicate Increasing(es: seq<Entry>) {
    forall i, j | 0 <= i < j < |es| :: Less(es[i], es[j])
  }

  predicate Between(es: seq<Entry>, lo: Option<Entry>, hi: Option<Entry>) {
    forall x | x in es :: Above(lo, x) && Below(x, hi)
  }

  lemma IncreasingJoin(a: seq<Entry>, b: seq<Entry>)
    requires Increasing(a) && Increasing(b) && forall x, y | x in a && y in b :: Less(x, y)
    ensures Increasing(a + b)
  {
    var c := a + b;
    forall i, j | 0 <= i < j < |c|
      ensures Less(c[i], c[j])
    {
      if i < |a| <= j {
        assert c[i] in a && c[j] in b;
      }
    }
  }

  /** Everything walked so far is at most the last key passed. */
  predicate UpTo(es: seq<Entry>, lo: Option<Entry>, keys: seq<KeyNode>, i: nat)
    requires i <= |keys|
  {
    if i == 0 then es == [] else forall x | x in es :: Above(lo, x) && !Less(EntryOf(keys[i-1]), x)
  }

  lemma UpToLess(es: seq<Entry>, b: Bucket, info: Info, i: nat, x: Entry, y: Entry)
    requires i <= |b.keys| && UpTo(es, info.lo, b.keys, i) && x in es && Above(SlotLo(b, info, i), y)
    ensures Less(x, y)
  {
    LessTransitive(x, EntryOf(b.keys[i-1]), y);
  }

  lemma WalkStep(b: Bucket, info: Info, i: nat, before: seq<Entry>, child: seq<Entry>)
    requires i < |b.keys| && Sorted(b.keys) && Within(b.keys, info)
    requires Increasing(before) && UpTo(before, info.lo, b.keys, i)
    requires Increasing(child) && Between(child, SlotLo(b, info, i), SlotHi(b, info, i))
    ensures var all := before + child + OwnEntry(b.keys[i]);
            Increasing(all) && UpTo(all, info.lo, b.keys, i + 1)
  {
    var e := EntryOf(b.keys[i]);
    forall x, y | x in before && y in child
      ensures Less(x, y)
    {
      UpToLess(before, b, info, i, x, y);
    }
    IncreasingJoin(before, child);
    forall x | x in before + child
      ensures Less(x, e) && Above(info.lo, x)
    {
      if x in before {
        UpToLess(before, b, info, i, x, e);
      } else if i > 0 {
        assert Less(EntryOf(b.keys[i-1]), x);
        if info.lo.Some? {
          LessTransitive(info.lo.value, EntryOf(b.keys[i-1]), x);
        }
      }
    }
    IncreasingJoin(before + child, OwnEntry(b.keys[i]));
    forall x | x in before + child + OwnEntry(b.keys[i])
      ensures Above(info.lo, x) && !Less(e, x)
    {
      if x in before + child {
        LessTransitive(x, e, x);
      }
    }
  }

  lemma {:induction false} WalkChildAscends(s: State, g: Shape, loc: Loc, i: nat)
    requires Tree(s, g) && loc in s.store && i <= |s.store[loc].keys|
    ensures Increasing(WalkChild(s, g, loc, i))
    ensures Between(WalkChild(s, g, loc, i), SlotLo(s.store[loc], g[loc], i), SlotHi(s.store[loc], g[loc], i))
    decreases g[loc].height, i, 1
  {
    hide LocalOk, ChildrenOk, Attached, Inside, SlotLo, SlotHi;
    var c := Child(s.store[loc], i);
    if c != NULL {
      ChildAt(s, g, loc, i);
      InOrderAscends(s, g, c);
      BetweenWiden(WalkChild(s, g, loc, i), g[c], SlotLo(s.store[loc], g[loc], i), SlotHi(s.store[loc], g[loc], i));
    }
  }

  lemma BetweenWiden(es: seq<Entry>, info: Info, lo: Option<Entry>, hi: Option<Entry>)
    requires Between(es, info.lo, info.hi) && Inside(info, lo, hi)
    ensures Between(es, lo, hi)
  {
    forall x | x in es
      ensures Above(lo, x) && Below(x, hi)
    {
      if lo.Some? { LessTransitive(lo.value, info.lo.value, x); }
      if hi.Some? { LessTransitive(x, info.hi.value, hi.value); }
    }
  }

  lemma {:induction false} WalkAscends(s: State, g: Shape, loc: Loc, i: nat)
    requires Tree(s, g) && loc in s.store && i <= |s.store[loc].keys|
    ensures Increasing(Walk(s, g, loc, i)) && UpTo(Walk(s, g, loc, i), g[loc].lo, s.store[loc].keys, i)
    decreases g[loc].height, i, 0
  {
    hide ChildrenOk, Attached, Inside, SpaceOk, UpTo, WalkChild;
    if i == 0 {
      assert UpTo([], g[loc].lo, s.store[loc].keys, 0) by { UpToNothing(g[loc].lo, s.store[loc].keys); }
    } else {
      WalkAscends(s, g, loc, i - 1);
      WalkChildAscends(s, g, loc, i - 1);
      assert LocalOk(s.store[loc], g[loc]);
      WalkStep(s.store[loc], g[loc], i - 1, Walk(s, g, loc, i - 1), WalkChild(s, g, loc, i - 1));
    }
  }

  lemma UpToNothing(lo: Option<Entry>, keys: seq<KeyNode>)
    ensures UpTo([], lo, keys, 0)
  {
  }

  /** The in-order walk is strictly increasing, and stays inside the interval of the bucket. */
  lemma {:induction false} InOrderAscends(s: State, g: Shape, loc: Loc)
    requires Tree(s, g) && loc in s.store
    ensures Increasing(InOrder(s, g, loc)) && Between(InOrder(s, g, loc), g[loc].lo, g[loc].hi)
    decreases g[loc].height, |s.store[loc].keys|, 2
  {
    hide ChildrenOk, Attached, Inside, SpaceOk, Walk, WalkChild;
    var b := s.store[loc];
    var n := |b.keys|;
    WalkAscends(s, g, loc, n);
    WalkChildAscends(s, g, loc, n);
    assert LocalOk(b, g[loc]);
    WalkEnd(b, g[loc], Walk(s, g, loc, n), WalkChild(s, g, loc, n));
  }

  lemma WalkEnd(b: Bucket, info: Info, before: seq<Entry>, child: seq<Entry>)
    requires Sorted(b.keys) && Within(b.keys, info)
    requires Increasing(before) && UpTo(before, info.lo, b.keys, |b.keys|)
    requires Increasing(child) && Between(child, SlotLo(b, info, |b.keys|), SlotHi(b, info, |b.keys|))
    ensures Increasing(before + child) && Between(before + child, info.lo, info.hi)
  {
    var n := |b.keys|;
    forall x, y | x in before && y in child
      ensures Less(x, y)
    {
      UpToLess(before, b, info, n, x, y);
    }
    IncreasingJoin(before, child);
    forall x | x in before + child
      ensures Above(info.lo, x) && Below(x, info.hi)
    {
      if x in before {
        if info.hi.Some? {
          LessTransitive(x, EntryOf(b.keys[n-1]), info.hi.value);
        }
      } else if n > 0 && info.lo.Some? {
        LessTransitive(info.lo.value, EntryOf(b.keys[n-1]), x);
      }
    }
  }

  lemma {:induction false} WalkCovers(s: State, g: Shape, loc: Loc, i: nat, j: nat)
    requires Tree(s, g) && loc in s.store && i < j <= |s.store[loc].keys|
    ensures forall x | x in WalkChild(s, g, loc, i) :: x in Walk(s, g, loc, j)
    ensures !Unused(s.store[loc].keys[i]) ==> EntryOf(s.store[loc].keys[i]) in Walk(s, g, loc, j)
    decreases j
  {
    hide Inv, WalkChild;
    if i + 1 < j {
      WalkCovers(s, g, loc, i, j - 1);
    }
  }

  lemma OwnInOrder(s: State, g: Shape, loc: Loc, e: Entry)
    requires Tree(s, g) && loc in s.store && Holds(s.store[loc], e)
    ensures e in InOrder(s, g, loc)
  {
    hide Inv, Walk, WalkChild;
    var i :| 0 <= i < |s.store[loc].keys| && !Unused(s.store[loc].keys[i]) && EntryOf(s.store[loc].keys[i]) == e;
    WalkCovers(s, g, loc, i, |s.store[loc].keys|);
  }

  lemma ChildInOrder(s: State, g: Shape, p: Loc, x: Loc, e: Entry)
    requires Tree(s, g) && p in s.store && x in s.store && IsChildOf(s.store[p], x) && e in InOrder(s, g, x)
    ensures e in InOrder(s, g, p)
  {
    var i :| 0 <= i <= |s.store[p].keys| && Child(s.store[p], i) == x;
    ChildAt(s, g, p, i);
    assert WalkChild(s, g, p, i) == InOrder(s, g, x);
    if i < |s.store[p].keys| {
      WalkCovers(s, g, p, i, |s.store[p].keys|);
    }
  }

  lemma {:induction false} ClimbInOrder(s: State, g: Shape, x: Loc, e: Entry)
    requires Tree(s, g) && x in s.store && e in InOrder(s, g, x)
    ensures e in InOrder(s, g, s.head)
    decreases g[s.head].height - g[x].height
  {
    hide LocalOk, ChildrenOk, Attached, InOrder;
    if x != s.head {
      ParentOf(s, g, x);
      ChildInOrder(s, g, s.store[x].parent, x, e);
      ClimbInOrder(s, g, s.store[x].parent, e);
    }
  }

  lemma {:induction false} WalkHas(s: State, g: Shape, loc: Loc, i: nat, e: Entry)
    requires Tree(s, g) && loc in s.store && i <= |s.store[loc].keys| && e in Walk(s, g, loc, i)
    ensures Has(s, e)
    decreases g[loc].height, i, 0
  {
    hide LocalOk, ChildrenOk, Attached;
    if i > 0 {
      if e in Walk(s, g, loc, i - 1) {
        WalkHas(s, g, loc, i - 1, e);
      } else if e in WalkChild(s, g, loc, i - 1) {
        WalkChildHas(s, g, loc, i - 1, e);
      } else {
        assert Holds(s.store[loc], e);
      }
    }
  }

  lemma {:induction false} WalkChildHas(s: State, g: Shape, loc: Loc, i: nat, e: Entry)
    requires Tree(s, g) && loc in s.store && i <= |s.store[loc].keys| && e in WalkChild(s, g, loc, i)
    ensures Has(s, e)
    decreases g[loc].height, i, 1
  {
    hide LocalOk, ChildrenOk, Attached, Has;
    var c := Child(s.store[loc], i);
    if c != NULL {
      ChildAt(s, g, loc, i);
      var n := |s.store[c].keys|;
      if e in Walk(s, g, c, n) {
        WalkHas(s, g, c, n, e);
      } else {
        WalkChildHas(s, g, c, n, e);
      }
    }
  }

  /** The in-order walk from the root is the strictly increasing list of exactly the used entries. */
  lemma InOrderIsSorted(s: State, g: Shape)
    requires Tree(s, g)
    ensures Increasing(InOrder(s, g, s.head))
    ensures forall e :: e in InOrder(s, g, s.head) <==> Has(s, e)
  {
    hide LocalOk, ChildrenOk, Attached, Increasing, Walk, WalkChild, Holds;
    InOrderAscends(s, g, s.head);
    forall e
      ensures e in InOrder(s, g, s.head) <==> Has(s, e)
    {
      var n := |s.store[s.head].keys|;
      if e in Walk(s, g, s.head, n) {
        WalkHas(s, g, s.head, n, e);
      } else if e in WalkChild(s, g, s.head, n) {
        WalkChildHas(s, g, s.head, n, e);
      }
      if Has(s, e) {
        var x :| x in s.store && Holds(s.store[x], e);
        OwnInOrder(s, g, x, e);
        ClimbInOrder(s, g, x, e);
      }
    }
  }

  /** In the walk keys ascend, and for equal keys records do. */
  lemma KeysAscend(s: State, g: Shape)
    requires Tree(s, g)
    ensures s.head in s.store
    ensures var es := InOrder(s, g, s.head);
            forall i, j | 0 <= i < j < |es| ::
              es[i].ord < es[j].ord || (es[i].ord == es[j].ord && es[i].rec < es[j].rec)
  {
    hide Walk, WalkChild, InOrder;
    InOrderIsSorted(s, g);
  }

  // ---- Intervals as wide as the slots ----

  /** The slot in which a bucket hangs. */
  ghost function SlotOf(b: Bucket, c: Loc): (i: nat)
    requires IsChildOf(b, c)
    ensures i <= |b.keys| && Child(b, i) == c
  {
    var i :| 0 <= i <= |b.keys| && Child(b, i) == c;
    i
  }

  /** The interval of a bucket as its ancestors leave it: that of its slot. */
  ghost function Fitted(s: State, g: Shape, x: Loc): Info
    requires Tree(s, g) && x in s.store
    decreases g[s.head].height - g[x].height
  {
    if x == s.head then g[x]
    else
      ParentOf(s, g, x);
      var p := s.store[x].parent;
      var up := Fitted(s, g, p);
      var i := SlotOf(s.store[p], x);
      Info(g[x].height, SlotLo(s.store[p], up, i), SlotHi(s.store[p], up, i))
  }

  ghost function FittedShape(s: State, g: Shape): Shape
    requires Tree(s, g)
  {
    map x | x in s.store :: Fitted(s, g, x)
  }

  lemma WiderSlots(b: Bucket, info: Info, up: Info, i: nat, a: Info)
    requires i <= |b.keys| && Inside(info, up.lo, up.hi) && Inside(a, SlotLo(b, info, i), SlotHi(b, info, i))
    ensures Inside(a, SlotLo(b, up, i), SlotHi(b, up, i))
  {
  }

  lemma {:induction false} FittedWider(s: State, g: Shape, x: Loc)
    requires Tree(s, g) && x in s.store
    ensures Inside(g[x], Fitted(s, g, x).lo, Fitted(s, g, x).hi) && Fitted(s, g, x).height == g[x].height
    decreases g[s.head].height - g[x].height
  {
    hide LocalOk, ChildrenOk, Attached, Inside, SlotLo, SlotHi, SlotOf;
    if x == s.head {
      InsideNone(g[x]);
    } else {
      ParentOf(s, g, x);
      var p := s.store[x].parent;
      FittedWider(s, g, p);
      var i := SlotOf(s.store[p], x);
      NotNull(s, g, x);
      ChildAt(s, g, p, i);
      WiderSlots(s.store[p], g[p], Fitted(s, g, p), i, g[x]);
    }
  }

  lemma InsideNone(a: Info)
    ensures a.lo == None && a.hi == None ==> Inside(a, None, None)
  {
  }

  lemma NotNull(s: State, g: Shape, x: Loc)
    requires Tree(s, g) && x in s.store
    ensures x != NULL
  {
  }

  lemma FittedLocal(b: Bucket, info: Info, wide: Info)
    requires LocalOk(b, info) && Inside(info, wide.lo, wide.hi)
    ensures LocalOk(b, wide)
  {
    hide SpaceOk;
    forall i | 0 <= i < |b.keys|
      ensures Above(wide.lo, EntryOf(b.keys[i])) && Below(EntryOf(b.keys[i]), wide.hi)
    {
      if wide.lo.Some? { LessTransitive(wide.lo.value, info.lo.value, EntryOf(b.keys[i])); }
      if wide.hi.Some? { LessTransitive(EntryOf(b.keys[i]), info.hi.value, wide.hi.value); }
    }
  }

  /** Every child's interval is exactly its slot. */
  ghost predicate Snug(s: State, g: Shape) {
    forall loc, i | loc in s.store && 0 <= i <= |s.store[loc].keys| :: SnugAt(s, g, loc, i)
  }

  ghost predicate SnugAt(s: State, g: Shape, loc: Loc, i: nat)
    requires loc in s.store && i <= |s.store[loc].keys|
  {
    var c := Child(s.store[loc], i);
    c == NULL ||
    (&& c in g && loc in g && g[c].lo == SlotLo(s.store[loc], g[loc], i) && g[c].hi == SlotHi(s.store[loc], g[loc], i))
  }

  lemma FittedChild(s: State, g: Shape, loc: Loc, i: nat)
    requires Tree(s, g) && loc in s.store && i <= |s.store[loc].keys|
    ensures SnugAt(s, FittedShape(s, g), loc, i) && ChildOk(s, FittedShape(s, g), loc, i)
  {
    hide LocalOk, Attached;
    var c := Child(s.store[loc], i);
    if c != NULL {
      ChildAt(s, g, loc, i);
      ParentlessHead(s, g);
      assert IsChildOf(s.store[loc], c);
      FittedWider(s, g, c);
      FittedWider(s, g, loc);
      assert ChildrenOk(s, g, loc);
      assert SlotOf(s.store[loc], c) == i;
      InsideSelf(FittedShape(s, g)[c]);
    }
  }

  lemma InsideSelf(a: Info)
    ensures Inside(a, a.lo, a.hi)
  {
    if a.lo.Some? { LessTransitive(a.lo.value, a.lo.value, a.lo.value); }
    if a.hi.Some? { LessTransitive(a.hi.value, a.hi.value, a.hi.value); }
  }

  lemma ParentlessHead(s: State, g: Shape)
    requires Tree(s, g)
    ensures s.head in s.store && s.store[s.head].parent == NULL && NULL !in s.store
  {
  }

  /** Any well-formed tree can be annotated with intervals that are exactly the slots. */
  lemma Refit(s: State, g: Shape)
    requires Tree(s, g)
    ensures Tree(s, FittedShape(s, g)) && Snug(s, FittedShape(s, g))
    ensures FittedShape(s, g).Keys == g.Keys && forall x | x in g :: FittedShape(s, g)[x].height == g[x].height
  {
    hide LocalOk, Attached, ChildOk, Inside, SlotLo, SlotHi, Fitted;
    var g' := FittedShape(s, g);
    assert s.head in g';
    forall x | x in s.store
      ensures LocalOk(s.store[x], g'[x]) && g'[x].height == g[x].height && ChildrenOk(s, g', x)
    {
      FittedWider(s, g, x);
      FittedLocal(s.store[x], g[x], g'[x]);
      assert ChildrenOk(s, g, x);
      forall i | 0 <= i <= |s.store[x].keys|
        ensures ChildOk(s, g', x, i)
      {
        FittedChild(s, g, x, i);
      }
    }
    forall loc, i | loc in s.store && 0 <= i <= |s.store[loc].keys|
      ensures SnugAt(s, g', loc, i)
    {
      FittedChild(s, g, loc, i);
    }
    FittedHead(s, g);
  }

  lemma FittedHead(s: State, g: Shape)
    requires Tree(s, g)
    ensures Fitted(s, g, s.head) == g[s.head]
  {
  }
}
