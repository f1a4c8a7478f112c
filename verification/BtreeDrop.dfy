/** Taking a key out of a bucket, with one of the two children next to it. */
module BtreeDrop {
  import opened Bucket
  import opened BtreeShape
  import opened BtreePack
  import opened BtreeSplit

  /** The bucket without the key at `pos`; `c` takes the place of its two children. The key's bytes stay dead. */
  function Dropped(b: Bucket, pos: nat, c: Loc): Bucket
    requires pos < |b.keys|
  {
    var b' := b.(empty := b.empty + KEY_NODE, packed := false);
    if pos + 1 == |b.keys| then b'.(keys := b.keys[..pos], next := c)
    else b'.(keys := b.keys[..pos] + [b.keys[pos+1].(child := c)] + b.keys[pos+2..])
  }

  /** `c` and `r` are the children to the sides of the key at `pos`. */
  predicate Sides(b: Bucket, pos: nat, c: Loc, r: Loc) {
    && pos < |b.keys|
    && (|| (c == Child(b, pos) && r == Child(b, pos + 1))
        || (c == Child(b, pos + 1) && r == Child(b, pos)))
  }

  lemma DroppedAt(b: Bucket, pos: nat, c: Loc, i: nat)
    requires pos < |b.keys| && i <= |b.keys| - 1
    ensures var b' := Dropped(b, pos, c);
            && |b'.keys| == |b.keys| - 1
            && Child(b', i) == (if i < pos then Child(b, i) else if i == pos then c else Child(b, i + 1))
            && (i < |b.keys| - 1 ==> var k := b.keys[if i < pos then i else i + 1];
                  EntryOf(b'.keys[i]) == EntryOf(k) && b'.keys[i].rec == k.rec && b'.keys[i].key == k.key)
  {
  }

  lemma DroppedRest(b: Bucket, pos: nat, c: Loc)
    requires pos < |b.keys|
    ensures var b' := Dropped(b, pos, c);
            && |b'.keys| == |b.keys| - 1 && b'.parent == b.parent && b'.empty == b.empty + KEY_NODE && !b'.packed
  {
  }

  lemma DroppedBytes(b: Bucket, pos: nat, c: Loc)
    requires pos < |b.keys|
    ensures Bytes(Dropped(b, pos, c).keys) == Bytes(b.keys) - Cost(b.keys[pos])
  {
    hide Bytes;
    BytesSplit(b.keys, pos);
    if pos + 1 < |b.keys| {
      var head, k, tail := b.keys[..pos], b.keys[pos+1], b.keys[pos+2..];
      BytesSplit(b.keys[pos+1..], 0);
      assert b.keys[pos+1..][1..] == tail && b.keys[pos+1..][..0] == [];
      NoBytes();
      BytesPush(head, k.(child := c));
      BytesConcat(head + [k.(child := c)], tail);
    } else {
      assert b.keys[pos+1..] == [];
      NoBytes();
    }
  }

  lemma DroppedLocal(b: Bucket, info: Info, pos: nat, c: Loc)
    requires LocalOk(b, info) && pos < |b.keys|
    ensures LocalOk(Dropped(b, pos, c), info)
  {
    hide Dropped, Bytes;
    var b' := Dropped(b, pos, c);
    DroppedRest(b, pos, c);
    DroppedBytes(b, pos, c);
    forall i | 0 <= i < |b'.keys|
      ensures 1 <= b'.keys[i].key.size <= KEY_MAX && Above(info.lo, EntryOf(b'.keys[i]))
              && Below(EntryOf(b'.keys[i]), info.hi)
    {
      DroppedAt(b, pos, c, i);
    }
    forall i, j | 0 <= i < j < |b'.keys|
      ensures Less(EntryOf(b'.keys[i]), EntryOf(b'.keys[j]))
    {
      DroppedAt(b, pos, c, i);
      DroppedAt(b, pos, c, j);
    }
  }

  lemma DroppedSlots(b: Bucket, info: Info, pos: nat, c: Loc, i: nat)
    requires pos < |b.keys| && i <= |b.keys| - 1
    ensures var b' := Dropped(b, pos, c);
            && |b'.keys| == |b.keys| - 1
            && SlotLo(b', info, i) == SlotLo(b, info, if i <= pos then i else i + 1)
            && SlotHi(b', info, i) == SlotHi(b, info, if i < pos then i else i + 1)
  {
    hide Dropped;
    DroppedRest(b, pos, c);
    DroppedAt(b, pos, c, i);
    if i > 0 {
      DroppedAt(b, pos, c, i - 1);
    }
  }

  lemma DroppedChildren(b: Bucket, pos: nat, c: Loc, r: Loc, x: Loc)
    requires Sides(b, pos, c, r) && x != NULL
    requires forall i, j | 0 <= i < j <= |b.keys| :: Child(b, i) == Child(b, j) ==> Child(b, i) == NULL
    ensures IsChildOf(Dropped(b, pos, c), x) <==> IsChildOf(b, x) && x != r
  {
    hide Dropped;
    var b' := Dropped(b, pos, c);
    DroppedRest(b, pos, c);
    if IsChildOf(b', x) {
      var i :| 0 <= i <= |b'.keys| && Child(b', i) == x;
      DroppedAt(b, pos, c, i);
    }
    if IsChildOf(b, x) && x != r {
      var i :| 0 <= i <= |b.keys| && Child(b, i) == x;
      DroppedAt(b, pos, c, if i <= pos then i else i - 1);
    }
  }

  function DropState(s: State, loc: Loc, pos: nat, c: Loc): State
    requires loc in s.store && pos < |s.store[loc].keys|
  {
    Replaced(s, loc, Dropped(s.store[loc], pos, c))
  }

  lemma DropFrame(s: State, loc: Loc, pos: nat, c: Loc)
    requires loc in s.store && pos < |s.store[loc].keys|
    ensures var s' := DropState(s, loc, pos, c);
            && s'.store.Keys == s.store.Keys && s'.head == s.head && s'.unusedFrom == s.unusedFrom
            && s'.store[loc] == Dropped(s.store[loc], pos, c)
            && forall x | x in s.store && x != loc :: s'.store[x] == s.store[x]
  {
    hide Dropped;
  }

  lemma WidenSlot(b: Bucket, info: Info, pos: nat, i: nat, a: Info)
    requires Sorted(b.keys) && Within(b.keys, info) && pos < |b.keys| && (i == pos || i == pos + 1)
    requires Inside(a, SlotLo(b, info, i), SlotHi(b, info, i))
    ensures Inside(a, SlotLo(b, info, pos), SlotHi(b, info, pos + 1))
  {
    var e := EntryOf(b.keys[pos]);
    if i == pos {
      var hi := SlotHi(b, info, pos + 1);
      if hi.Some? { LessTransitive(e, hi.value, hi.value); LessTransitive(a.hi.value, e, hi.value); }
    } else {
      var lo := SlotLo(b, info, pos);
      if lo.Some? { LessTransitive(lo.value, e, a.lo.value); }
    }
  }

  lemma DropOwnChildren(s: State, g: Shape, loose: set<Loc>, loc: Loc, pos: nat, c: Loc, r: Loc)
    requires Inv(s, g, loose) && loc in s.store && Sides(s.store[loc], pos, c, r)
    ensures ChildrenOk(DropState(s, loc, pos, c), g, loc)
  {
    hide Dropped, DropState, Attached, HeadOk, SpaceOk, SlotLo, SlotHi, Inside;
    var b := s.store[loc];
    var s' := DropState(s, loc, pos, c);
    var b' := Dropped(b, pos, c);
    DropFrame(s, loc, pos, c);
    DroppedRest(b, pos, c);
    assert LocalOk(b, g[loc]) && ChildrenOk(s, g, loc);
    forall i | 0 <= i <= |b'.keys|
      ensures ChildOk(s', g, loc, i)
    {
      DroppedAt(b, pos, c, i);
      DroppedSlots(b, g[loc], pos, c, i);
      var o := if i < pos || (i == pos && c == Child(b, pos)) then i else i + 1;
      assert ChildOk(s, g, loc, o);
      assert Child(b', i) == Child(b, o);
      if i == pos && c != NULL {
        WidenSlot(b, g[loc], pos, o, g[c]);
      }
    }
    forall i, j | 0 <= i < j <= |b'.keys|
      ensures Child(b', i) == Child(b', j) ==> Child(b', i) == NULL
    {
      DroppedAt(b, pos, c, i);
      DroppedAt(b, pos, c, j);
    }
  }

  /** The subtrees in the air after `r` has been let go. */
  function Loosened(loose: set<Loc>, r: Loc): set<Loc> { if r == NULL then loose else loose + {r} }

  lemma DropLinks(s: State, g: Shape, loose: set<Loc>, loc: Loc, pos: nat, c: Loc, r: Loc)
    requires Inv(s, g, loose) && loc in s.store && Sides(s.store[loc], pos, c, r)
    ensures var s' := DropState(s, loc, pos, c);
            && (forall x, y | x in s'.store && y in Loosened(loose, r) :: !IsChildOf(s'.store[x], y))
            && (forall y | y in s'.store && y != s'.head && y !in Loosened(loose, r) :: Attached(s', y))
            && (r != NULL ==> r in s.store && r != s.head && r in g && g[r].height < g[loc].height)
  {
    hide Dropped, DropState, HeadOk, LocalOk, IsChildOf, ChildOk;
    var b := s.store[loc];
    var s' := DropState(s, loc, pos, c);
    DropFrame(s, loc, pos, c);
    DroppedRest(b, pos, c);
    assert ChildrenOk(s, g, loc);
    SideAt(s, g, loose, loc, pos, c, r);
    forall x, y | x in s'.store && y in Loosened(loose, r)
      ensures !IsChildOf(s'.store[x], y)
    {
      if x == loc {
        DroppedChildren(b, pos, c, r, y);
      } else if y == r {
        OneParent(s, g, loose, loc, x, r);
      }
    }
    forall y | y in s'.store && y != s'.head && y !in Loosened(loose, r)
      ensures Attached(s', y)
    {
      assert Attached(s, y);
      DroppedChildren(b, pos, c, r, y);
    }
  }

  /** The child let go, if there is one. */
  lemma SideAt(s: State, g: Shape, loose: set<Loc>, loc: Loc, pos: nat, c: Loc, r: Loc)
    requires Inv(s, g, loose) && loc in s.store && Sides(s.store[loc], pos, c, r)
    ensures r != NULL ==>
              r in s.store && r in g && r != s.head && r !in loose && IsChildOf(s.store[loc], r)
                && s.store[r].parent == loc
                          && g[r].height < g[loc].height
  {
    hide LocalOk, Attached, Inside;
    var b := s.store[loc];
    assert ChildrenOk(s, g, loc);
    var i := if c == Child(b, pos) && r == Child(b, pos + 1) then pos + 1 else pos;
    assert ChildOk(s, g, loc, i);
    assert Child(b, i) == r;
    assert IsChildOf(b, r);
  }

  lemma OneParent(s: State, g: Shape, loose: set<Loc>, a: Loc, b: Loc, x: Loc)
    requires Links(s, g, loose) && a in s.store && b in s.store && x in s.store && a != b && IsChildOf(s.store[a], x)
    ensures !IsChildOf(s.store[b], x)
  {
    hide ChildrenOk, Attached, IsChildOf;
    ParentIs(s, g, a, x);
    if IsChildOf(s.store[b], x) {
      ParentIs(s, g, b, x);
    }
  }

  /** Taking out a key keeps the tree well formed, with the child let go hanging in the air. */
  lemma DropKeeps(s: State, g: Shape, loose: set<Loc>, loc: Loc, pos: nat, c: Loc, r: Loc)
    requires Inv(s, g, loose) && loc in s.store && Sides(s.store[loc], pos, c, r)
    ensures Inv(DropState(s, loc, pos, c), g, Loosened(loose, r))
  {
    hide Dropped, DropState, LocalOk, ChildrenOk, IsChildOf, Attached;
    var s' := DropState(s, loc, pos, c);
    DropFrame(s, loc, pos, c);
    DroppedRest(s.store[loc], pos, c);
    DropOwnChildren(s, g, loose, loc, pos, c, r);
    DropLinks(s, g, loose, loc, pos, c, r);
    DroppedLocal(s.store[loc], g[loc], pos, c);
    forall x | x in s'.store
      ensures LocalOk(s'.store[x], g[x]) && ChildrenOk(s', g, x)
    {
      if x != loc {
        OtherStays(s, s', g, loc, NULL, x);
      }
    }
  }

  lemma DropHas(s: State, loc: Loc, pos: nat, c: Loc, e: Entry)
    requires loc in s.store && pos < |s.store[loc].keys|
    ensures var k := s.store[loc].keys[pos];
            Has(s, e) <==> Has(DropState(s, loc, pos, c), e) || (!Unused(k) && e == EntryOf(k))
  {
    hide Dropped, DropState;
    var b := s.store[loc];
    var s' := DropState(s, loc, pos, c);
    DropFrame(s, loc, pos, c);
    DroppedHolds(b, pos, c, e);
    assert forall x | x in s.store && x != loc :: Holds(s'.store[x], e) <==> Holds(s.store[x], e);
  }

  lemma DroppedHolds(b: Bucket, pos: nat, c: Loc, e: Entry)
    requires pos < |b.keys|
    ensures Holds(b, e) <==> Holds(Dropped(b, pos, c), e) || (!Unused(b.keys[pos]) && e == EntryOf(b.keys[pos]))
  {
    hide Dropped;
    var b' := Dropped(b, pos, c);
    DroppedRest(b, pos, c);
    if Holds(b, e) {
      var i :| 0 <= i < |b.keys| && !Unused(b.keys[i]) && EntryOf(b.keys[i]) == e;
      if i != pos {
        DroppedAt(b, pos, c, if i < pos then i else i - 1);
      }
    }
    if Holds(b', e) {
      var i :| 0 <= i < |b'.keys| && !Unused(b'.keys[i]) && EntryOf(b'.keys[i]) == e;
      DroppedAt(b, pos, c, i);
    }
  }
}
