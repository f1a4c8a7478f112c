/** The index: a B-tree with its root, and insertion through it. */
module Btree {
  import opened Basics
  import opened Bucket
  import opened BtreeShape
  import opened BtreePack
  import opened BtreeSplit
  import opened BtreeLevel
  import opened BtreeInsert
  import opened BtreeOrder

  datatype Outcome = Inserted | Reused | KeyTooLarge | AlreadyInIndex

  /** One used entry more, and nothing else. */
  ghost predicate Gains(s: State, s': State, e: Entry) {
    forall x :: Has(s', x) <==> Has(s, x) || x == e
  }

  /** The key at `pos` with another used bit. */
  function Marked(b: Bucket, pos: nat, rec: int): Bucket
    requires pos < |b.keys|
  {
    b.(keys := b.keys[pos := b.keys[pos].(rec := rec)])
  }

  lemma MarkedSame(b: Bucket, pos: nat, rec: int)
    requires pos < |b.keys| && Mask(rec) == Mask(b.keys[pos].rec)
    ensures var b' := Marked(b, pos, rec);
            && |b'.keys| == |b.keys| && b'.next == b.next && b'.parent == b.parent && b'.empty == b.empty
            && b'.packed == b.packed
            && (forall i | 0 <= i < |b.keys| ::
                 EntryOf(b'.keys[i]) == EntryOf(b.keys[i]) && b'.keys[i].key == b.keys[i].key
                   && b'.keys[i].child == b.keys[i].child)
            && (forall i | 0 <= i < |b.keys| && i != pos :: b'.keys[i] == b.keys[i])
            && b'.keys[pos].rec == rec
  {
  }

  lemma MarkedLocal(b: Bucket, info: Info, pos: nat, rec: int)
    requires LocalOk(b, info) && pos < |b.keys| && Mask(rec) == Mask(b.keys[pos].rec)
    ensures LocalOk(Marked(b, pos, rec), info)
  {
    hide Marked, Bytes;
    MarkedSame(b, pos, rec);
    SameBytes(b.keys, Marked(b, pos, rec).keys);
  }

  lemma MarkedChildren(b: Bucket, info: Info, pos: nat, rec: int, i: nat)
    requires pos < |b.keys| && Mask(rec) == Mask(b.keys[pos].rec) && i <= |b.keys|
    ensures |Marked(b, pos, rec).keys| == |b.keys| && Child(Marked(b, pos, rec), i) == Child(b, i)
    ensures SlotLo(Marked(b, pos, rec), info, i) == SlotLo(b, info, i)
            && SlotHi(Marked(b, pos, rec), info, i) == SlotHi(b, info, i)
  {
    hide Marked;
    MarkedSame(b, pos, rec);
  }

  /** The used bit does not matter for the shape of the tree. */
  lemma MarkKeeps(s: State, g: Shape, loc: Loc, pos: nat, rec: int)
    requires Tree(s, g) && loc in s.store && pos < |s.store[loc].keys| && Mask(rec) == Mask(s.store[loc].keys[pos].rec)
    ensures Tree(Replaced(s, loc, Marked(s.store[loc], pos, rec)), g)
  {
    hide Marked, Attached, LocalOk, SlotLo, SlotHi, HeadOk;
    var b := s.store[loc];
    var b' := Marked(b, pos, rec);
    var s' := Replaced(s, loc, b');
    MarkedSame(b, pos, rec);
    MarkedLocal(b, g[loc], pos, rec);
    assert ChildrenOk(s, g, loc);
    FreshLoc(s, g, {}, loc);
    forall i | 0 <= i <= |b.keys|
      ensures ChildOk(s', g, loc, i) && Child(b', i) == Child(b, i)
    {
      assert ChildOk(s, g, loc, i);
      assert Child(b, i) != loc;
      MarkedChildren(b, g[loc], pos, rec, i);
    }
    ReplaceKeeps(s, g, {}, loc, b');
  }

  lemma MarkHas(s: State, loc: Loc, pos: nat, rec: int, x: Entry)
    requires loc in s.store && pos < |s.store[loc].keys| && Mask(rec) == Mask(s.store[loc].keys[pos].rec)
    ensures var e := EntryOf(s.store[loc].keys[pos]);
            var s' := Replaced(s, loc, Marked(s.store[loc], pos, rec));
            && (Has(s', x) ==> Has(s, x) || (x == e && rec % 2 == 0))
            && (x != e && Has(s, x) ==> Has(s', x))
            && (rec % 2 == 0 ==> Has(s', e))
  {
    hide Marked;
    var b := s.store[loc];
    var b' := Marked(b, pos, rec);
    var s' := Replaced(s, loc, b');
    MarkedSame(b, pos, rec);
    assert forall y | y in s.store && y != loc :: s'.store[y] == s.store[y];
    assert s'.store[loc] == b';
    MarkedHolds(b, pos, rec, x);
    MarkedHolds(b, pos, rec, EntryOf(b.keys[pos]));
  }

  lemma MarkedHolds(b: Bucket, pos: nat, rec: int, x: Entry)
    requires pos < |b.keys| && Mask(rec) == Mask(b.keys[pos].rec)
    ensures var e, b' := EntryOf(b.keys[pos]), Marked(b, pos, rec);
            && (Holds(b', x) ==> Holds(b, x) || (x == e && rec % 2 == 0))
            && (x != e && Holds(b, x) ==> Holds(b', x))
            && (rec % 2 == 0 ==> Holds(b', e))
  {
    hide Marked;
    var b' := Marked(b, pos, rec);
    MarkedSame(b, pos, rec);
    if Holds(b', x) {
      var i :| 0 <= i < |b'.keys| && !Unused(b'.keys[i]) && EntryOf(b'.keys[i]) == x;
    }
    if x != EntryOf(b.keys[pos]) && Holds(b, x) {
      var i :| 0 <= i < |b.keys| && !Unused(b.keys[i]) && EntryOf(b.keys[i]) == x;
      assert !Unused(b'.keys[i]) && EntryOf(b'.keys[i]) == x;
    }
    if rec % 2 == 0 {
      assert !Unused(b'.keys[pos]);
    }
  }

  /** Using an unused key again gains just its entry. */
  lemma ReviveGains(s: State, loc: Loc, pos: nat)
    requires loc in s.store && pos < |s.store[loc].keys|
    ensures var k := s.store[loc].keys[pos];
            Gains(s, Replaced(s, loc, Marked(s.store[loc], pos, Mask(k.rec))), EntryOf(k))
  {
    hide Marked, Has;
    var k := s.store[loc].keys[pos];
    var s' := Replaced(s, loc, Marked(s.store[loc], pos, Mask(k.rec)));
    forall x
      ensures Has(s', x) <==> Has(s, x) || x == EntryOf(k)
    {
      MarkHas(s, loc, pos, Mask(k.rec), x);
    }
  }

  lemma MarkFilled(s: State, loc: Loc, pos: nat, rec: int)
    requires loc in s.store && pos < |s.store[loc].keys| && Mask(rec) == Mask(s.store[loc].keys[pos].rec)
    ensures Filled(s) ==> Filled(Replaced(s, loc, Marked(s.store[loc], pos, rec)))
  {
    MarkedSame(s.store[loc], pos, rec);
    hide Marked;
  }

  lemma MarkFrom(s: State, loc: Loc, pos: nat, rec: int)
    requires loc in s.store && pos < |s.store[loc].keys| && Mask(rec) == Mask(s.store[loc].keys[pos].rec)
    ensures KeysFrom(s, Replaced(s, loc, Marked(s.store[loc], pos, rec)), None)
  {
    hide Marked;
    var s' := Replaced(s, loc, Marked(s.store[loc], pos, rec));
    MarkedSame(s.store[loc], pos, rec);
    forall x, f | x in s'.store && Carries(s'.store[x], f)
      ensures Carried(s, f)
    {
      var i :| 0 <= i < |s'.store[x].keys| && SizedOf(s'.store[x].keys[i]) == f;
      assert SizedOf(s.store[x].keys[i]) == f;
      assert Carries(s.store[x], f);
    }
    NothingNew(s, s');
  }

  lemma MarkLevel(s: State, g: Shape, loc: Loc, pos: nat, rec: int)
    requires loc in s.store && pos < |s.store[loc].keys| && Mask(rec) == Mask(s.store[loc].keys[pos].rec)
    ensures Level(s, g, {}) ==> Level(Replaced(s, loc, Marked(s.store[loc], pos, rec)), g, {})
  {
    hide Marked, Level;
    var b := s.store[loc];
    MarkedSame(b, pos, rec);
    assert forall i | 0 <= i <= |b.keys| :: Child(Marked(b, pos, rec), i) == Child(b, i);
    ReplaceLevel(s, g, {}, loc, Marked(b, pos, rec));
  }

  /** Where the search of a bucket ends up is a gap of it. */
  lemma FoundGap(b: Bucket, info: Info, pos: nat, e: Entry)
    requires LocalOk(b, info) && pos <= |b.keys| && Above(info.lo, e) && Below(e, info.hi)
    requires forall i | 0 <= i < pos :: Less(EntryOf(b.keys[i]), e)
    requires forall i | pos <= i < |b.keys| :: Less(e, EntryOf(b.keys[i]))
    ensures Gap(b, info, pos, e) && !HasKey(b, e)
  {
    LessTransitive(e, e, e);
  }

  /** The search for `e` has come to `loc`: its interval takes `e` in, and no other subtree has it. */
  ghost predicate Searching(s: State, g: Shape, loc: Loc, e: Entry) {
    && Tree(s, g) && Snug(s, g) && loc in s.store && loc in g
    && Above(g[loc].lo, e) && Below(e, g[loc].hi) && OnlyUnder(s, g, loc, e)
  }

  lemma SearchStarts(s: State, g: Shape, e: Entry)
    requires Tree(s, g) && Snug(s, g)
    ensures s.head in s.store && s.head in g && Searching(s, g, s.head, e)
  {
    hide LocalOk, ChildrenOk, Attached, Under, SnugAt;
    forall x | x in s.store
      ensures Under(s, g, x, s.head)
    {
      AllUnderHead(s, g, x);
    }
  }

  lemma SearchDescends(s: State, g: Shape, loc: Loc, pos: nat, e: Entry)
    requires Searching(s, g, loc, e) && Gap(s.store[loc], g[loc], pos, e) && !HasKey(s.store[loc], e)
    ensures pos <= |s.store[loc].keys|
    ensures var c := Child(s.store[loc], pos);
            if c == NULL then forall x | x in s.store :: !HasKey(s.store[x], e)
            else c in g && g[c].height < g[loc].height && Searching(s, g, c, e)
  {
    hide LocalOk, ChildrenOk, Attached, HasKey;
    Descend(s, g, loc, pos, e);
    var c := Child(s.store[loc], pos);
    ParentlessHead(s, g);
    if c != NULL {
      ChildAt(s, g, loc, pos);
      assert SnugAt(s, g, loc, pos);
    }
  }

  lemma NoKeyNoHas(s: State, e: Entry)
    requires forall x | x in s.store :: !HasKey(s.store[x], e)
    ensures !Has(s, e)
  {
    assert forall x | x in s.store && Holds(s.store[x], e) :: HasKey(s.store[x], e);
  }

  lemma OnlyHere(s: State, g: Shape, loc: Loc, pos: nat)
    requires Tree(s, g) && loc in s.store && pos < |s.store[loc].keys| && Unused(s.store[loc].keys[pos])
    requires OnlyUnder(s, g, loc, EntryOf(s.store[loc].keys[pos]))
    ensures !Has(s, EntryOf(s.store[loc].keys[pos]))
  {
    hide LocalOk, ChildrenOk, Attached, Under;
    var e := EntryOf(s.store[loc].keys[pos]);
    forall x | x in s.store
      ensures !Holds(s.store[x], e)
    {
      assert Holds(s.store[x], e) ==> HasKey(s.store[x], e);
      if x == loc {
        OwnOnce(s.store[loc], g[loc], pos);
      } else if HasKey(s.store[x], e) {
        NotHeldBelow(s, g, x, loc, pos);
      }
    }
  }

  lemma OwnOnce(b: Bucket, info: Info, pos: nat)
    requires LocalOk(b, info) && pos < |b.keys| && Unused(b.keys[pos])
    ensures !Holds(b, EntryOf(b.keys[pos]))
  {
    hide SpaceOk, Within;
    var e := EntryOf(b.keys[pos]);
    LessTransitive(e, e, e);
    forall i | 0 <= i < |b.keys| && i != pos
      ensures EntryOf(b.keys[i]) != e
    {
    }
  }

  /** An entry of a bucket is not in the interval of anything below it. */
  lemma {:induction false} NotBelow(s: State, g: Shape, x: Loc, loc: Loc, pos: nat)
    requires Tree(s, g) && x in s.store && loc in s.store && pos < |s.store[loc].keys| && x != loc
             && Under(s, g, x, loc)
    ensures !(Above(g[x].lo, EntryOf(s.store[loc].keys[pos])) && Below(EntryOf(s.store[loc].keys[pos]), g[x].hi))
    decreases g[s.head].height - g[x].height
  {
    hide SpaceOk, Attached;
    var e := EntryOf(s.store[loc].keys[pos]);
    ParentOf(s, g, x);
    var p := s.store[x].parent;
    if Above(g[x].lo, e) && Below(e, g[x].hi) {
      GapIndex(s, g, p, x, e, 0);
      if p != loc {
        NotBelow(s, g, p, loc, pos);
      } else {
        KeyNotInSlot(s, g, loc, x, pos);
      }
    }
  }

  lemma NotHeldBelow(s: State, g: Shape, x: Loc, loc: Loc, pos: nat)
    requires Tree(s, g) && x in s.store && loc in s.store && pos < |s.store[loc].keys| && x != loc
             && Under(s, g, x, loc)
    ensures !HasKey(s.store[x], EntryOf(s.store[loc].keys[pos]))
  {
    hide LocalOk, ChildrenOk, Attached;
    NotBelow(s, g, x, loc, pos);
    var e := EntryOf(s.store[loc].keys[pos]);
    if HasKey(s.store[x], e) {
      KeyInside(s, g, x, e);
    }
  }

  lemma KeyNotInSlot(s: State, g: Shape, loc: Loc, x: Loc, pos: nat)
    requires Tree(s, g) && loc in s.store && x in s.store && IsChildOf(s.store[loc], x) && pos < |s.store[loc].keys|
    ensures !(Above(g[x].lo, EntryOf(s.store[loc].keys[pos])) && Below(EntryOf(s.store[loc].keys[pos]), g[x].hi))
  {
    hide SpaceOk, Attached;
    var b := s.store[loc];
    var e := EntryOf(b.keys[pos]);
    var i :| 0 <= i <= |b.keys| && Child(b, i) == x;
    NotNull(s, g, x);
    ChildAt(s, g, loc, i);
    assert LocalOk(b, g[loc]);
    if i <= pos {
      LessTransitive(EntryOf(b.keys[i]), e, e);
    } else {
      LessTransitive(e, EntryOf(b.keys[i-1]), e);
    }
  }

  /** Finds the place for a key, from the bucket at `loc` down, and inserts it there. */
  method InsertBelow(s: State, loc: Loc, rec: int, key: Key, ghost g: Shape)
    returns (out: Outcome, s': State, ghost g': Shape)
    requires Searching(s, g, loc, Entry(key.ord, rec)) && rec % 2 == 0 && 1 <= key.size <= KEY_MAX
    ensures Tree(s', g')
    ensures out == AlreadyInIndex <==> Has(s, Entry(key.ord, rec))
    ensures out == AlreadyInIndex ==> s' == s
    ensures out == Inserted || out == Reused || out == AlreadyInIndex
    ensures Gains(s, s', Entry(key.ord, rec))
    ensures Filled(s) ==> Filled(s')
    ensures KeysFrom(s, s', Some(SizedFor(rec, key)))
    ensures Level(s, g, {}) ==> Level(s', g', {})
    decreases g[loc].height
  {
    hide Level, Ready, Carried, Has, Gap, Marked, ChildrenOk, Attached, Under, HasKey, OnlyUnder, SnugAt, Adds,
         Filled, Fuller;
    ghost var e := Entry(key.ord, rec);
    var b := s.store[loc];
    assert LocalOk(b, g[loc]);
    var found, pos := Find(b, key, rec);
    if found {
      if Unused(b.keys[pos]) {
        OnlyHere(s, g, loc, pos);
        var used := Mask(b.keys[pos].rec);
        MarkKeeps(s, g, loc, pos, used);
        ReviveGains(s, loc, pos);
        MarkFilled(s, loc, pos, used);
        MarkLevel(s, g, loc, pos, used);
        MarkFrom(s, loc, pos, used);
        return Reused, Replaced(s, loc, Marked(b, pos, used)), g;
      }
      HasHere(s, loc, pos);
      return AlreadyInIndex, s, g;
    }
    FoundGap(b, g[loc], pos, e);
    SearchDescends(s, g, loc, pos, e);
    var child := Child(b, pos);
    if child == NULL {
      NoKeyNoHas(s, e);
      if Level(s, g, {}) {
        LeafReady(s, g, loc, pos);
      }
      s', g' := InsertHere(s, loc, pos, rec, key, NULL, NULL, g, {}, {}, g[s.head].height);
      AddsGains(s, g, s', g', g[loc].height, rec, key);
      if Filled(s) {
        FullerFilled(s, s');
      }
      return Inserted, s', g';
    }
    out, s', g' := InsertBelow(s, child, rec, key, g);
  }

  lemma HasHere(s: State, loc: Loc, pos: nat)
    requires loc in s.store && pos < |s.store[loc].keys| && !Unused(s.store[loc].keys[pos])
    ensures Has(s, EntryOf(s.store[loc].keys[pos])) && Gains(s, s, EntryOf(s.store[loc].keys[pos]))
  {
    assert Holds(s.store[loc], EntryOf(s.store[loc].keys[pos]));
  }

  lemma AddsGains(s: State, g: Shape, s': State, g': Shape, h: int, rec: int, key: Key)
    requires Adds(s, g, s', g', {} - {NULL}, h, rec, key) && rec % 2 == 0
    ensures Tree(s', g') && Gains(s, s', Entry(key.ord, rec))
  {
    hide Inv, Has, BelowSame;
    assert {} - {NULL} == {};
  }

  /** Inserts a key with its record into the index. A key over the limit is not indexed. */
  method BtInsert(s: State, rec: int, key: Key, ghost g: Shape) returns (out: Outcome, s': State, ghost g': Shape)
    requires Tree(s, g) && rec % 2 == 0 && 1 <= key.size
    ensures Tree(s', g') && (Filled(s) ==> Filled(s'))
    ensures out == KeyTooLarge <==> key.size > KEY_MAX
    ensures out == AlreadyInIndex <==> key.size <= KEY_MAX && Has(s, Entry(key.ord, rec))
    ensures out == KeyTooLarge || out == AlreadyInIndex ==> s' == s
    ensures out != KeyTooLarge ==> Gains(s, s', Entry(key.ord, rec))
    ensures KeysFrom(s, s', Some(SizedFor(rec, key)))
    ensures Level(s, g, {}) ==> Level(s', g', {})
  {
    hide Tree, Snug, Gains, Filled, Has, Level, Carried;
    if key.size > KEY_MAX {
      return KeyTooLarge, s, g;
    }
    Refit(s, g);
    SameHeights(s, g, FittedShape(s, g), {});
    SearchStarts(s, FittedShape(s, g), Entry(key.ord, rec));
    out, s', g' := InsertBelow(s, s.head, rec, key, FittedShape(s, g));
  }
}
