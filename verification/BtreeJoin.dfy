/** Joining a loose bucket to its left neighbour, and bypassing an empty bucket. */
module BtreeJoin {
  import opened Basics
  import opened Bucket
  import opened BtreeShape
  import opened BtreeSplit

  /** Two buckets in one, with a key between them; space is accounted for elsewhere. */
  function JoinedBucket(l: Bucket, sep: KeyNode, r: Bucket): Bucket {
    l.(keys := Joined(l.keys, sep.(child := l.next), r.keys), next := r.next)
  }

  lemma JoinedAt(l: Bucket, sep: KeyNode, r: Bucket, i: nat)
    requires i <= |l.keys| + 1 + |r.keys|
    ensures var b := JoinedBucket(l, sep, r);
            && |b.keys| == |l.keys| + 1 + |r.keys| && b.parent == l.parent
            && Child(b, i) == (if i <= |l.keys| then Child(l, i) else Child(r, i - |l.keys| - 1))
            && (i < |b.keys| ==>
                  && EntryOf(b.keys[i]) ==
                       EntryOf(if i < |l.keys| then l.keys[i] else if i == |l.keys| then sep else r.keys[i-|l.keys|-1])
                  && b.keys[i].rec ==
                       (if i < |l.keys| then l.keys[i] else if i == |l.keys| then sep else r.keys[i-|l.keys|-1]).rec
                  && b.keys[i].key ==
                       (if i < |l.keys| then l.keys[i] else if i == |l.keys| then sep else r.keys[i-|l.keys|-1]).key)
  {
  }

  function Higher(a: nat, b: nat): nat { if a < b then b else a }

  /** The interval of two neighbours together. */
  function JoinedInfo(a: Info, b: Info): Info { Info(Higher(a.height, b.height), a.lo, b.hi) }

  /** The key `e` lies between the two intervals. */
  predicate Separates(e: Entry, a: Info, b: Info) {
    && Above(a.lo, e) && Below(e, b.hi)
    && a.hi.Some? && !Less(e, a.hi.value) && b.lo.Some? && !Less(b.lo.value, e)
  }

  lemma JoinedOrder(l: Bucket, li: Info, sep: KeyNode, r: Bucket, ri: Info)
    requires Sorted(l.keys) && Within(l.keys, li) && Sorted(r.keys) && Within(r.keys, ri)
             && Separates(EntryOf(sep), li, ri)
    ensures var b := JoinedBucket(l, sep, r);
            Sorted(b.keys) && Within(b.keys, JoinedInfo(li, ri))
  {
    hide JoinedBucket;
    var b := JoinedBucket(l, sep, r);
    var e := EntryOf(sep);
    JoinedAt(l, sep, r, 0);
    forall i | 0 <= i < |b.keys|
      ensures i < |l.keys| ==> Less(EntryOf(b.keys[i]), e)
      ensures i == |l.keys| ==> EntryOf(b.keys[i]) == e
      ensures i > |l.keys| ==> Less(e, EntryOf(b.keys[i]))
      ensures Above(li.lo, EntryOf(b.keys[i])) && Below(EntryOf(b.keys[i]), ri.hi)
    {
      JoinedAt(l, sep, r, i);
      var x := EntryOf(b.keys[i]);
      if i < |l.keys| {
        LessTransitive(x, li.hi.value, e);
        if ri.hi.Some? { LessTransitive(x, e, ri.hi.value); }
      } else if i > |l.keys| {
        LessTransitive(e, ri.lo.value, x);
        if li.lo.Some? { LessTransitive(li.lo.value, e, x); }
      }
    }
    forall i, j | 0 <= i < j < |b.keys|
      ensures Less(EntryOf(b.keys[i]), EntryOf(b.keys[j]))
    {
      JoinedAt(l, sep, r, i);
      JoinedAt(l, sep, r, j);
      LessTransitive(EntryOf(b.keys[i]), e, EntryOf(b.keys[j]));
    }
  }

  /** A child's slot in the joined bucket is at least as wide as it was. */
  lemma JoinedSlots(l: Bucket, li: Info, sep: KeyNode, r: Bucket, ri: Info, i: nat, a: Info)
    requires i <= |l.keys| + 1 + |r.keys| && Separates(EntryOf(sep), li, ri)
    requires if i <= |l.keys| then Inside(a, SlotLo(l, li, i), SlotHi(l, li, i))
             else Inside(a, SlotLo(r, ri, i - |l.keys| - 1), SlotHi(r, ri, i - |l.keys| - 1))
    ensures |JoinedBucket(l, sep, r).keys| == |l.keys| + 1 + |r.keys|
    ensures Inside(a, SlotLo(JoinedBucket(l, sep, r), JoinedInfo(li, ri), i),
            SlotHi(JoinedBucket(l, sep, r), JoinedInfo(li, ri), i))
  {
    hide JoinedBucket;
    JoinedAt(l, sep, r, i);
    if i > 0 {
      JoinedAt(l, sep, r, i - 1);
    }
  }

  // ---- Joining ----

  function AbsorbedState(s: State, l: Loc, r: Loc, sep: KeyNode): State
    requires l in s.store && r in s.store && l != r
  {
    var b := JoinedBucket(s.store[l], sep, s.store[r]);
    s.(store := Adopted((s.store - {r})[l := b], Kids(s.store[r]), l))
  }

  ghost function AbsorbedShape(g: Shape, l: Loc, r: Loc): Shape
    requires l in g && r in g
  {
    (g - {r})[l := JoinedInfo(g[l], g[r])]
  }

  /** `r` hangs loose next to `l`, whose slot in its parent is wide enough for both. */
  ghost predicate Absorbable(s: State, g: Shape, loose: set<Loc>, p: Loc, j: nat, l: Loc, r: Loc, sep: KeyNode) {
    && Inv(s, g, loose) && p in s.store && l in s.store && r in s.store && l != r && p != r && p != l
    && r in loose && l !in loose && j <= |s.store[p].keys| && Child(s.store[p], j) == l
    && g[r].height < g[p].height && Separates(EntryOf(sep), g[l], g[r])
    && Inside(JoinedInfo(g[l], g[r]), SlotLo(s.store[p], g[p], j), SlotHi(s.store[p], g[p], j))
  }

  lemma AbsorbFrame(s: State, g: Shape, loose: set<Loc>, p: Loc, j: nat, l: Loc, r: Loc, sep: KeyNode)
    requires Absorbable(s, g, loose, p, j, l, r, sep)
    ensures var s' := AbsorbedState(s, l, r, sep);
            && s'.store.Keys == s.store.Keys - {r} && s'.head == s.head && s'.unusedFrom == s.unusedFrom
            && s'.store[l] == JoinedBucket(s.store[l], sep, s.store[r])
            && (forall x | x in s'.store && x != l ::
                  s'.store[x] == if IsChildOf(s.store[r], x) then s.store[x].(parent := l) else s.store[x])
            && !IsChildOf(s.store[r], l) && !IsChildOf(s.store[r], s.head) && !IsChildOf(s.store[r], p)
            && !IsChildOf(s.store[r], r)
            && l != s.head && s.store[l].parent == p && NULL !in s.store
  {
    hide LocalOk, Attached, JoinedBucket, Inside, Separates, ChildOk;
    ChildParent(s, g, loose, p, j);
    assert IsChildOf(s.store[p], l);
    NotKidOf(s, g, loose, r);
    assert forall x | x in s.store :: IsChildOf(s.store[r], x) <==> x in Kids(s.store[r]);
    if IsChildOf(s.store[r], l) {
      ParentIs(s, g, r, l);
    }
    if IsChildOf(s.store[r], p) {
      ParentIs(s, g, r, p);
    }
  }

  lemma ChildParent(s: State, g: Shape, loose: set<Loc>, p: Loc, j: nat)
    requires Links(s, g, loose) && p in s.store && j <= |s.store[p].keys| && Child(s.store[p], j) in s.store
    ensures var c := Child(s.store[p], j);
            && s.store[c].parent == p && c in g && g[c].height < g[p].height && c != NULL && c != s.head
            && Inside(g[c], SlotLo(s.store[p], g[p], j), SlotHi(s.store[p], g[p], j))
  {
    hide Attached;
    assert ChildrenOk(s, g, p) && ChildOk(s, g, p, j);
  }

  lemma NotKidOf(s: State, g: Shape, loose: set<Loc>, r: Loc)
    requires Links(s, g, loose) && r in s.store
    ensures !IsChildOf(s.store[r], s.head) && !IsChildOf(s.store[r], r)
  {
    hide Attached, IsChildOf, ChildrenOk;
    if IsChildOf(s.store[r], s.head) {
      ParentIs(s, g, r, s.head);
    }
    if IsChildOf(s.store[r], r) {
      ParentIs(s, g, r, r);
    }
  }

  lemma AbsorbedKid(s: State, g: Shape, loose: set<Loc>, p: Loc, j: nat, l: Loc, r: Loc, sep: KeyNode, i: nat)
    requires Absorbable(s, g, loose, p, j, l, r, sep) && i <= |s.store[l].keys| + 1 + |s.store[r].keys|
    ensures var s' := AbsorbedState(s, l, r, sep);
            var g' := AbsorbedShape(g, l, r);
            && l in s'.store && l in g' && i <= |s'.store[l].keys| && ChildOk(s', g', l, i)
  {
    hide LocalOk, Attached, JoinedBucket, Inside, Separates, SlotLo, SlotHi, AbsorbedState, IsChildOf, HeadOk;
    var lb, rb := s.store[l], s.store[r];
    AbsorbFrame(s, g, loose, p, j, l, r, sep);
    JoinedAt(lb, sep, rb, i);
    var o := if i <= |lb.keys| then l else r;
    var oi := if i <= |lb.keys| then i else i - |lb.keys| - 1;
    assert ChildrenOk(s, g, o) && ChildOk(s, g, o, oi);
    var c := Child(s.store[o], oi);
    if c != NULL {
      KidIs(s.store[o], oi);
      ParentIs(s, g, o, c);
      LooseKid(s, g, loose, o, r);
      JoinedSlots(lb, g[l], sep, rb, g[r], i, g[c]);
      if IsChildOf(rb, c) { ParentIs(s, g, r, c); }
    }
  }

  lemma KidIs(b: Bucket, i: nat)
    requires i <= |b.keys|
    ensures IsChildOf(b, Child(b, i))
  {
  }

  lemma LooseKid(s: State, g: Shape, loose: set<Loc>, o: Loc, r: Loc)
    requires Links(s, g, loose) && o in s.store && r in loose
    ensures !IsChildOf(s.store[o], r) && !IsChildOf(s.store[o], o)
  {
    hide ChildrenOk, Attached, IsChildOf;
    NotKidOf(s, g, loose, o);
  }

  lemma AbsorbOwnChildren(s: State, g: Shape, loose: set<Loc>, p: Loc, j: nat, l: Loc, r: Loc, sep: KeyNode)
    requires Absorbable(s, g, loose, p, j, l, r, sep)
    ensures var s' := AbsorbedState(s, l, r, sep);
            l in s'.store && l in AbsorbedShape(g, l, r) && ChildrenOk(s', AbsorbedShape(g, l, r), l)
  {
    hide LocalOk, Attached, JoinedBucket, Inside, Separates, SlotLo, SlotHi, AbsorbedState, HeadOk, ChildOk,
         Absorbable, AbsorbedShape, Inv;
    AbsorbParts(s, g, loose, p, j, l, r, sep);
    var lb, rb := s.store[l], s.store[r];
    var s' := AbsorbedState(s, l, r, sep);
    AbsorbFrame(s, g, loose, p, j, l, r, sep);
    JoinedAt(lb, sep, rb, 0);
    AbsorbedKid(s, g, loose, p, j, l, r, sep, 0);
    forall i | 0 <= i <= |s'.store[l].keys|
      ensures ChildOk(s', AbsorbedShape(g, l, r), l, i)
    {
      AbsorbedKid(s, g, loose, p, j, l, r, sep, i);
    }
    forall x, y | 0 <= x < y <= |s'.store[l].keys|
      ensures Child(s'.store[l], x) == Child(s'.store[l], y) ==> Child(s'.store[l], x) == NULL
    {
      JoinedAt(lb, sep, rb, x);
      JoinedAt(lb, sep, rb, y);
      if x <= |lb.keys| < y {
        CrossDistinct(s, g, loose, l, x, r, y - |lb.keys| - 1);
      }
    }
  }

  lemma AbsorbParts(s: State, g: Shape, loose: set<Loc>, p: Loc, j: nat, l: Loc, r: Loc, sep: KeyNode)
    requires Absorbable(s, g, loose, p, j, l, r, sep)
    ensures Links(s, g, loose) && p in s.store && l in s.store && r in s.store && l != r && p != r && p != l
    ensures l in g && r in g && p in g && r in loose && ChildrenOk(s, g, l) && ChildrenOk(s, g, r)
            && ChildrenOk(s, g, p)
    ensures j <= |s.store[p].keys| && Child(s.store[p], j) == l
  {
  }

  lemma CrossDistinct(s: State, g: Shape, loose: set<Loc>, a: Loc, i: nat, b: Loc, j: nat)
    requires Links(s, g, loose) && a in s.store && b in s.store && a != b && i <= |s.store[a].keys|
             && j <= |s.store[b].keys|
    ensures Child(s.store[a], i) == Child(s.store[b], j) ==> Child(s.store[a], i) == NULL
  {
    hide Attached, Inside;
    assert ChildrenOk(s, g, a) && ChildrenOk(s, g, b);
    assert ChildOk(s, g, a, i) && ChildOk(s, g, b, j);
  }

  lemma AbsorbParent(s: State, g: Shape, loose: set<Loc>, p: Loc, j: nat, l: Loc, r: Loc, sep: KeyNode)
    requires Absorbable(s, g, loose, p, j, l, r, sep)
    ensures var s' := AbsorbedState(s, l, r, sep);
            p in s'.store && p in AbsorbedShape(g, l, r) && ChildrenOk(s', AbsorbedShape(g, l, r), p)
  {
    hide LocalOk, Attached, JoinedBucket, Inside, Separates, SlotLo, SlotHi, AbsorbedState, HeadOk, IsChildOf;
    var s', g' := AbsorbedState(s, l, r, sep), AbsorbedShape(g, l, r);
    AbsorbFrame(s, g, loose, p, j, l, r, sep);
    JoinedAt(s.store[l], sep, s.store[r], 0);
    assert ChildrenOk(s, g, p);
    forall i | 0 <= i <= |s.store[p].keys|
      ensures ChildOk(s', g', p, i)
    {
      assert ChildOk(s, g, p, i);
      var c := Child(s.store[p], i);
      if i == j {
        ChildParent(s, g, loose, p, j);
      } else if c != NULL {
        assert c != l;
        KidIs(s.store[p], i);
        LooseKid(s, g, loose, p, r);
        ParentIs(s, g, p, c);
        if IsChildOf(s.store[r], c) { ParentIs(s, g, r, c); }
      }
    }
  }

  lemma AbsorbOther(s: State, g: Shape, loose: set<Loc>, p: Loc, j: nat, l: Loc, r: Loc, sep: KeyNode, x: Loc)
    requires Absorbable(s, g, loose, p, j, l, r, sep) && x in s.store && x != l && x != r && x != p
    ensures var s' := AbsorbedState(s, l, r, sep);
            x in s'.store && x in AbsorbedShape(g, l, r) && ChildrenOk(s', AbsorbedShape(g, l, r), x)
  {
    hide LocalOk, Attached, JoinedBucket, Separates, SlotLo, SlotHi, AbsorbedState, HeadOk, IsChildOf, ChildrenOk;
    var s', g' := AbsorbedState(s, l, r, sep), AbsorbedShape(g, l, r);
    AbsorbFrame(s, g, loose, p, j, l, r, sep);
    assert ChildrenOk(s, g, x);
    forall c | c in s.store && c in g && IsChildOf(s.store[x], c)
      ensures c in s'.store && c in g' && s'.store[c].parent == s.store[c].parent
              && g'[c].height == g[c].height && Inside(g'[c], g[c].lo, g[c].hi)
    {
      ParentIs(s, g, x, c);
      LooseKid(s, g, loose, x, r);
      if IsChildOf(s.store[r], c) { ParentIs(s, g, r, c); }
      InsideItself(g[c]);
    }
    OtherChildren(s, s', g, g', x);
  }

  lemma InsideItself(a: Info)
    ensures Inside(a, a.lo, a.hi)
  {
  }

  lemma JoinedChildren(l: Bucket, sep: KeyNode, r: Bucket, c: Loc)
    ensures IsChildOf(JoinedBucket(l, sep, r), c) <==> IsChildOf(l, c) || IsChildOf(r, c)
  {
    hide JoinedBucket;
    var b := JoinedBucket(l, sep, r);
    JoinedAt(l, sep, r, 0);
    if IsChildOf(b, c) {
      var i :| 0 <= i <= |b.keys| && Child(b, i) == c;
      JoinedAt(l, sep, r, i);
    }
    if IsChildOf(l, c) {
      var i :| 0 <= i <= |l.keys| && Child(l, i) == c;
      JoinedAt(l, sep, r, i);
    }
    if IsChildOf(r, c) {
      var i :| 0 <= i <= |r.keys| && Child(r, i) == c;
      JoinedAt(l, sep, r, i + |l.keys| + 1);
    }
  }

  lemma AbsorbAttached(s: State, g: Shape, loose: set<Loc>, p: Loc, j: nat, l: Loc, r: Loc, sep: KeyNode)
    requires Absorbable(s, g, loose, p, j, l, r, sep)
    ensures var s' := AbsorbedState(s, l, r, sep);
            && (forall x, c | x in s'.store && c in loose - {r} :: !IsChildOf(s'.store[x], c))
            && (forall c | c in s'.store && c != s'.head && c !in loose - {r} :: Attached(s', c))
  {
    hide LocalOk, JoinedBucket, Separates, SlotLo, SlotHi, Inside, AbsorbedState, HeadOk, IsChildOf, ChildrenOk;
    var s' := AbsorbedState(s, l, r, sep);
    AbsorbFrame(s, g, loose, p, j, l, r, sep);
    JoinedAt(s.store[l], sep, s.store[r], 0);
    forall x, c | x in s'.store && c in loose - {r}
      ensures !IsChildOf(s'.store[x], c)
    {
      JoinedChildren(s.store[l], sep, s.store[r], c);
      SameIsChildOf(s.store[x], s'.store[x], c);
    }
    forall c | c in s'.store && c != s'.head && c !in loose - {r}
      ensures Attached(s', c)
    {
      assert Attached(s, c);
      var q := s.store[c].parent;
      JoinedChildren(s.store[l], sep, s.store[r], c);
      if q != r {
        assert !IsChildOf(s.store[r], c) by { if IsChildOf(s.store[r], c) { ParentIs(s, g, r, c); } }
        SameIsChildOf(s.store[q], s'.store[q], c);
      }
    }
  }

  /** Joining keeps the links of the tree consistent. */
  lemma AbsorbKeeps(s: State, g: Shape, loose: set<Loc>, p: Loc, j: nat, l: Loc, r: Loc, sep: KeyNode)
    requires Absorbable(s, g, loose, p, j, l, r, sep)
    ensures Links(AbsorbedState(s, l, r, sep), AbsorbedShape(g, l, r), loose - {r})
  {
    hide LocalOk, JoinedBucket, Separates, SlotLo, SlotHi, Inside, AbsorbedState, IsChildOf, ChildrenOk, Attached;
    var s', g' := AbsorbedState(s, l, r, sep), AbsorbedShape(g, l, r);
    AbsorbFrame(s, g, loose, p, j, l, r, sep);
    AbsorbAttached(s, g, loose, p, j, l, r, sep);
    ChildParent(s, g, loose, p, j);
    forall x | x in s'.store
      ensures ChildrenOk(s', g', x)
    {
      if x == l {
        AbsorbOwnChildren(s, g, loose, p, j, l, r, sep);
      } else if x == p {
        AbsorbParent(s, g, loose, p, j, l, r, sep);
      } else {
        AbsorbOther(s, g, loose, p, j, l, r, sep, x);
      }
    }
  }

  lemma JoinedHolds(l: Bucket, sep: KeyNode, r: Bucket, e: Entry)
    ensures Holds(JoinedBucket(l, sep, r), e) <==> Holds(l, e) || Holds(r, e) || (!Unused(sep) && e == EntryOf(sep))
  {
    hide JoinedBucket;
    var b := JoinedBucket(l, sep, r);
    JoinedAt(l, sep, r, |l.keys|);
    if Holds(b, e) {
      var i :| 0 <= i < |b.keys| && !Unused(b.keys[i]) && EntryOf(b.keys[i]) == e;
      JoinedAt(l, sep, r, i);
    }
    if Holds(l, e) {
      var i :| 0 <= i < |l.keys| && !Unused(l.keys[i]) && EntryOf(l.keys[i]) == e;
      JoinedAt(l, sep, r, i);
    }
    if Holds(r, e) {
      var i :| 0 <= i < |r.keys| && !Unused(r.keys[i]) && EntryOf(r.keys[i]) == e;
      JoinedAt(l, sep, r, i + |l.keys| + 1);
    }
  }

  lemma AbsorbHas(s: State, g: Shape, loose: set<Loc>, p: Loc, j: nat, l: Loc, r: Loc, sep: KeyNode, e: Entry)
    requires Absorbable(s, g, loose, p, j, l, r, sep)
    ensures Has(AbsorbedState(s, l, r, sep), e) <==> Has(s, e) || (!Unused(sep) && e == EntryOf(sep))
  {
    hide Inv, JoinedBucket, Separates, SlotLo, SlotHi, Inside, AbsorbedState, IsChildOf;
    var s' := AbsorbedState(s, l, r, sep);
    AbsorbFrame(s, g, loose, p, j, l, r, sep);
    JoinedHolds(s.store[l], sep, s.store[r], e);
    assert forall x | x in s'.store && x != l :: Holds(s'.store[x], e) <==> Holds(s.store[x], e);
    if Has(s, e) {
      var x :| x in s.store && Holds(s.store[x], e);
      assert x == r ==> Holds(s'.store[l], e);
    }
  }

  // ---- Bypassing an empty bucket ----

  function SetChild(b: Bucket, j: nat, c: Loc): Bucket
    requires j <= |b.keys|
  {
    if j == |b.keys| then b.(next := c) else b.(keys := b.keys[j := b.keys[j].(child := c)])
  }

  lemma SetChildAt(b: Bucket, j: nat, c: Loc, i: nat)
    requires j <= |b.keys| && i <= |b.keys|
    ensures var b' := SetChild(b, j, c);
            && |b'.keys| == |b.keys| && b'.parent == b.parent && b'.empty == b.empty && b'.packed == b.packed
            && Child(b', i) == (if i == j then c else Child(b, i))
            && (i < |b.keys| ==>
                 EntryOf(b'.keys[i]) == EntryOf(b.keys[i]) && b'.keys[i].rec == b.keys[i].rec
                   && b'.keys[i].key == b.keys[i].key)
  {
  }

  lemma SetChildSlots(b: Bucket, info: Info, j: nat, c: Loc, i: nat)
    requires j <= |b.keys| && i <= |b.keys|
    ensures |SetChild(b, j, c).keys| == |b.keys|
    ensures SlotLo(SetChild(b, j, c), info, i) == SlotLo(b, info, i)
            && SlotHi(SetChild(b, j, c), info, i) == SlotHi(b, info, i)
  {
    hide SetChild;
    SetChildAt(b, j, c, i);
    if i > 0 {
      SetChildAt(b, j, c, i - 1);
    }
  }

  lemma SetChildLocal(b: Bucket, info: Info, j: nat, c: Loc)
    requires LocalOk(b, info) && j <= |b.keys|
    ensures LocalOk(SetChild(b, j, c), info)
  {
    hide SetChild, Bytes;
    var b' := SetChild(b, j, c);
    SetChildAt(b, j, c, 0);
    forall i | 0 <= i < |b.keys|
      ensures EntryOf(b'.keys[i]) == EntryOf(b.keys[i]) && b'.keys[i].key == b.keys[i].key
    {
      SetChildAt(b, j, c, i);
    }
    SameBytes(b.keys, b'.keys);
  }

  /** The only child of an empty bucket, or nothing, takes the bucket's place under its parent. */
  function BypassedState(s: State, loc: Loc, p: Loc, j: nat): State
    requires loc in s.store && p in s.store && j <= |s.store[p].keys|
  {
    var c := s.store[loc].next;
    s.(store := SetParent(s.store[p := SetChild(s.store[p], j, c)], c, p) - {loc})
  }

  ghost predicate Bypassable(s: State, g: Shape, loc: Loc, p: Loc, j: nat) {
    && Inv(s, g, {}) && loc in s.store && p in s.store && s.store[loc].keys == [] && j <= |s.store[p].keys|
    && Child(s.store[p], j) == loc
  }

  lemma BypassFrame(s: State, g: Shape, loc: Loc, p: Loc, j: nat)
    requires Bypassable(s, g, loc, p, j)
    ensures var s' := BypassedState(s, loc, p, j);
            var c := s.store[loc].next;
            && s'.store.Keys == s.store.Keys - {loc} && s'.head == s.head && s'.unusedFrom == s.unusedFrom
            && loc != s.head && loc != p && c != p && c != loc && NULL !in s.store && loc != NULL
            && (c != NULL ==>
                 c in s.store && c in g && c != s.head && IsChildOf(s.store[loc], c)
                   && s'.store[c] == s.store[c].(parent := p) && s.store[c].parent == loc)
            && s'.store[p] == SetChild(s.store[p], j, c)
            && forall x | x in s'.store && x != p && x != c :: s'.store[x] == s.store[x]
  {
    hide LocalOk, Attached, SetChild, Inside;
    ChildParent(s, g, {}, p, j);
    assert ChildrenOk(s, g, loc) && ChildOk(s, g, loc, 0);
    KidIs(s.store[loc], 0);
    NotKidOf(s, g, {}, loc);
  }

  lemma BypassParent(s: State, g: Shape, loc: Loc, p: Loc, j: nat)
    requires Bypassable(s, g, loc, p, j)
    ensures p in BypassedState(s, loc, p, j).store && p in g - {loc}
            && ChildrenOk(BypassedState(s, loc, p, j), g - {loc}, p)
  {
    hide LocalOk, Attached, SetChild, Inside, SlotLo, SlotHi, HeadOk, BypassedState, IsChildOf;
    var s', g', c := BypassedState(s, loc, p, j), g - {loc}, s.store[loc].next;
    var b := s.store[p];
    BypassFrame(s, g, loc, p, j);
    SetChildAt(b, j, c, 0);
    assert ChildrenOk(s, g, p) && ChildrenOk(s, g, loc);
    forall i | 0 <= i <= |b.keys|
      ensures ChildOk(s', g', p, i)
    {
      SetChildAt(b, j, c, i);
      SetChildSlots(b, g[p], j, c, i);
      assert ChildOk(s, g, p, i);
      if i == j {
        assert ChildOk(s, g, loc, 0);
        if c != NULL {
          BypassedSlot(s.store[loc], g[loc], SlotLo(b, g[p], j), SlotHi(b, g[p], j), g[c]);
        }
      } else {
        KidIs(b, i);
        if Child(b, i) == c && c != NULL {
          ParentIs(s, g, p, c);
        }
      }
    }
    forall i, k | 0 <= i < k <= |b.keys|
      ensures Child(s'.store[p], i) == Child(s'.store[p], k) ==> Child(s'.store[p], i) == NULL
    {
      SetChildAt(b, j, c, i);
      SetChildAt(b, j, c, k);
      KidIs(b, i);
      KidIs(b, k);
      if c != NULL && (Child(b, i) == c || Child(b, k) == c) {
        ParentIs(s, g, p, c);
      }
    }
  }

  lemma BypassedSlot(b: Bucket, info: Info, lo: Option<Entry>, hi: Option<Entry>, a: Info)
    requires b.keys == [] && Inside(info, lo, hi) && Inside(a, SlotLo(b, info, 0), SlotHi(b, info, 0))
    ensures Inside(a, lo, hi)
  {
  }

  lemma SetChildChildren(b: Bucket, j: nat, c: Loc, x: Loc)
    requires j <= |b.keys|
    ensures IsChildOf(SetChild(b, j, c), x) ==> IsChildOf(b, x) || x == c
    ensures IsChildOf(b, x) && x != Child(b, j) ==> IsChildOf(SetChild(b, j, c), x)
    ensures IsChildOf(SetChild(b, j, c), c)
  {
    hide SetChild;
    var b' := SetChild(b, j, c);
    SetChildAt(b, j, c, j);
    if IsChildOf(b', x) {
      var i :| 0 <= i <= |b'.keys| && Child(b', i) == x;
      SetChildAt(b, j, c, i);
    }
    if IsChildOf(b, x) && x != Child(b, j) {
      var i :| 0 <= i <= |b.keys| && Child(b, i) == x;
      SetChildAt(b, j, c, i);
    }
  }

  lemma OnlyKid(b: Bucket, c: Loc)
    requires b.keys == [] && IsChildOf(b, c)
    ensures c == b.next
  {
  }

  /** Bypassing keeps the tree well formed. */
  lemma BypassKeeps(s: State, g: Shape, loc: Loc, p: Loc, j: nat)
    requires Bypassable(s, g, loc, p, j)
    ensures Inv(BypassedState(s, loc, p, j), g - {loc}, {})
  {
    hide LocalOk, SetChild, Inside, SlotLo, SlotHi, BypassedState, IsChildOf, ChildrenOk;
    var s', g', c := BypassedState(s, loc, p, j), g - {loc}, s.store[loc].next;
    BypassFrame(s, g, loc, p, j);
    SetChildAt(s.store[p], j, c, 0);
    SetChildLocal(s.store[p], g[p], j, c);
    forall x | x in s'.store
      ensures LocalOk(s'.store[x], g'[x]) && ChildrenOk(s', g', x)
    {
      if x == p {
        BypassParent(s, g, loc, p, j);
      } else {
        SameLocal(s.store[x], s'.store[x], g[x]);
        BypassOther(s, g, loc, p, j, x);
      }
    }
    forall x | x in s'.store && x != s'.head
      ensures Attached(s', x)
    {
      assert Attached(s, x);
      var q := s.store[x].parent;
      SetChildChildren(s.store[p], j, c, x);
      if q == loc {
        OnlyKid(s.store[loc], x);
      } else if q != p {
        SameIsChildOf(s.store[q], s'.store[q], x);
      }
    }
  }

  lemma BypassOther(s: State, g: Shape, loc: Loc, p: Loc, j: nat, x: Loc)
    requires Bypassable(s, g, loc, p, j) && x in s.store && x != p && x != loc
    ensures var s' := BypassedState(s, loc, p, j);
            x in s'.store && x in g - {loc} && ChildrenOk(s', g - {loc}, x)
  {
    hide LocalOk, SetChild, SlotLo, SlotHi, BypassedState, IsChildOf, ChildrenOk, Attached;
    var s', g', c := BypassedState(s, loc, p, j), g - {loc}, s.store[loc].next;
    BypassFrame(s, g, loc, p, j);
    SetChildAt(s.store[p], j, c, 0);
    ChildParent(s, g, {}, p, j);
    forall y | y in s.store && y in g && IsChildOf(s.store[x], y)
      ensures y in s'.store && y in g' && s'.store[y].parent == s.store[y].parent
              && g'[y].height == g[y].height && Inside(g'[y], g[y].lo, g[y].hi)
    {
      ParentIs(s, g, x, y);
      InsideItself(g[y]);
    }
    OtherChildren(s, s', g, g', x);
  }

  lemma BypassHas(s: State, g: Shape, loc: Loc, p: Loc, j: nat, e: Entry)
    requires Bypassable(s, g, loc, p, j)
    ensures Has(BypassedState(s, loc, p, j), e) <==> Has(s, e)
  {
    hide Inv, SetChild, BypassedState, IsChildOf;
    var s', c := BypassedState(s, loc, p, j), s.store[loc].next;
    BypassFrame(s, g, loc, p, j);
    SetChildHolds(s.store[p], j, c, e);
    assert forall x | x in s'.store && x != p :: Holds(s'.store[x], e) <==> Holds(s.store[x], e);
    assert !Holds(s.store[loc], e);
  }

  lemma SetChildHolds(b: Bucket, j: nat, c: Loc, e: Entry)
    requires j <= |b.keys|
    ensures Holds(SetChild(b, j, c), e) <==> Holds(b, e)
  {
    hide SetChild;
    var b' := SetChild(b, j, c);
    SetChildAt(b, j, c, 0);
    forall i | 0 <= i < |b.keys|
      ensures b'.keys[i].rec == b.keys[i].rec && EntryOf(b'.keys[i]) == EntryOf(b.keys[i])
    {
      SetChildAt(b, j, c, i);
    }
    if Holds(b, e) {
      var i :| 0 <= i < |b.keys| && !Unused(b.keys[i]) && EntryOf(b.keys[i]) == e;
      assert !Unused(b'.keys[i]) && EntryOf(b'.keys[i]) == e;
    }
  }

  // ---- The only child of an empty root becomes the root ----

  function LoweredState(s: State): State
    requires s.head in s.store && s.store[s.head].next in s.store
  {
    var c := s.store[s.head].next;
    State(s.store[c := s.store[c].(parent := NULL)] - {s.head}, c, s.unusedFrom)
  }

  function OneLower(h: nat): nat { if h == 0 then 0 else h - 1 }

  ghost function LoweredShape(s: State, g: Shape): Shape
    requires s.head in s.store && s.head in g
  {
    (g - {s.head})[s.store[s.head].next := Info(OneLower(g[s.head].height), None, None)]
  }

  lemma LowerFrame(s: State, g: Shape)
    requires Inv(s, g, {}) && s.store[s.head].keys == [] && s.store[s.head].next != NULL
    ensures var c := s.store[s.head].next;
            && c in s.store && c in g && c != s.head && s.store[c].parent == s.head && g[c].height < g[s.head].height
            && (forall x | x in s.store && IsChildOf(s.store[s.head], x) :: x == c)
            && (forall x | x in s.store :: !IsChildOf(s.store[x], s.head))
            && (forall x | x in s.store && x != s.head :: !IsChildOf(s.store[x], c))
  {
    hide LocalOk, Attached, Inside, ChildrenOk;
    var c := s.store[s.head].next;
    assert ChildrenOk(s, g, s.head);
    HeadKid(s, g);
    KidIs(s.store[s.head], 0);
    forall x | x in s.store
      ensures !IsChildOf(s.store[x], s.head) && (x != s.head ==> !IsChildOf(s.store[x], c))
    {
      if IsChildOf(s.store[x], s.head) { ParentIs(s, g, x, s.head); }
      if IsChildOf(s.store[x], c) { ParentIs(s, g, x, c); }
    }
  }

  lemma HeadKid(s: State, g: Shape)
    requires s.head in s.store && s.head in g && ChildrenOk(s, g, s.head)
    requires s.store[s.head].keys == [] && s.store[s.head].next != NULL
    ensures var c := s.store[s.head].next;
            c in s.store && c in g && s.store[c].parent == s.head && g[c].height < g[s.head].height
  {
    assert ChildOk(s, g, s.head, 0);
  }

  lemma WiderBucket(s: State, g: Shape, s': State, g': Shape, c: Loc)
    requires c in s.store && c in g && c in s'.store && c in g' && ChildrenOk(s, g, c)
    requires s'.store[c].keys == s.store[c].keys && s'.store[c].next == s.store[c].next
    requires g'[c].lo == None && g'[c].hi == None && g[c].height <= g'[c].height
    requires forall x | x in s.store && x in g && IsChildOf(s.store[c], x) ::
               x in s'.store && x in g' && g'[x] == g[x] && s'.store[x].parent == s.store[x].parent
    ensures ChildrenOk(s', g', c)
  {
    forall i | 0 <= i <= |s.store[c].keys|
      ensures ChildOk(s', g', c, i)
    {
      assert ChildOk(s, g, c, i);
      KidIs(s.store[c], i);
    }
    assert forall i | 0 <= i <= |s.store[c].keys| :: Child(s'.store[c], i) == Child(s.store[c], i);
  }

  lemma WiderLocal(b: Bucket, b': Bucket, info: Info, h: nat)
    requires LocalOk(b, info) && b'.keys == b.keys && b'.empty == b.empty && b'.packed == b.packed
    ensures LocalOk(b', Info(h, None, None))
  {
  }

  lemma LowerKeeps(s: State, g: Shape)
    requires Inv(s, g, {}) && s.store[s.head].keys == [] && s.store[s.head].next != NULL
    ensures s.store[s.head].next in s.store
    ensures Inv(LoweredState(s), LoweredShape(s, g), {})
  {
    hide LocalOk, IsChildOf, ChildrenOk;
    LowerFrame(s, g);
    var c := s.store[s.head].next;
    var s', g' := LoweredState(s), LoweredShape(s, g);
    assert s'.store.Keys == s.store.Keys - {s.head};
    forall x | x in s'.store
      ensures LocalOk(s'.store[x], g'[x]) && ChildrenOk(s', g', x)
    {
      if x == c {
        WiderLocal(s.store[c], s'.store[c], g[c], OneLower(g[s.head].height));
        WiderBucket(s, g, s', g', c);
      } else {
        LowerOther(s, g, x);
      }
    }
    forall x | x in s'.store && x != s'.head
      ensures Attached(s', x)
    {
      assert Attached(s, x);
      SameIsChildOf(s.store[s.store[x].parent], s'.store[s.store[x].parent], x);
    }
    forall x | x in s'.store
      ensures g'[x].height <= g'[s'.head].height
    {
      BelowHead(s, g, x);
    }
  }

  lemma BelowHead(s: State, g: Shape, x: Loc)
    requires Inv(s, g, {}) && x in s.store && x != s.head
    ensures x in g && s.head in g && g[x].height < g[s.head].height
  {
    hide LocalOk, ChildrenOk, IsChildOf;
    assert Attached(s, x);
    ParentIs(s, g, s.store[x].parent, x);
  }

  lemma LowerOther(s: State, g: Shape, x: Loc)
    requires Inv(s, g, {}) && s.store[s.head].keys == [] && s.store[s.head].next != NULL
             && s.store[s.head].next in s.store
    requires x in s.store && x != s.head && x != s.store[s.head].next
    ensures x in LoweredState(s).store && x in LoweredShape(s, g) && ChildrenOk(LoweredState(s), LoweredShape(s, g), x)
  {
    hide LocalOk, IsChildOf, ChildrenOk, Attached;
    LowerFrame(s, g);
    var s', g' := LoweredState(s), LoweredShape(s, g);
    forall y | y in s.store && y in g && IsChildOf(s.store[x], y)
      ensures y in s'.store && y in g' && s'.store[y].parent == s.store[y].parent
              && g'[y].height == g[y].height && Inside(g'[y], g[y].lo, g[y].hi)
    {
      InsideItself(g[y]);
    }
    OtherChildren(s, s', g, g', x);
  }

  lemma LowerHas(s: State, g: Shape, e: Entry)
    requires Inv(s, g, {}) && s.store[s.head].keys == [] && s.store[s.head].next != NULL
             && s.store[s.head].next in s.store
    ensures Has(LoweredState(s), e) <==> Has(s, e)
  {
    hide LocalOk, IsChildOf, ChildrenOk, Attached;
    LowerFrame(s, g);
    var s' := LoweredState(s);
    assert forall x | x in s'.store :: Holds(s'.store[x], e) <==> Holds(s.store[x], e);
    assert !Holds(s.store[s.head], e);
  }
}
