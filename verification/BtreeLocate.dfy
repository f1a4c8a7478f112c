/** Finding a position in the tree, and moving from position to position in key order. */
module BtreeLocate {
  import opened Basics
  import opened Bucket
  import opened BtreeShape
  import opened BtreeInsert
  import opened BtreeOrder
  import opened Btree

  ghost predicate NoneBetween(s: State, lo: Option<Entry>, hi: Option<Entry>) {
    forall f | Above(lo, f) && Below(f, hi) :: !Stored(s, f)
  }

  predicate Position(s: State, loc: Loc, pos: int) {
    loc in s.store && 0 <= pos < |s.store[loc].keys|
  }

  function At(s: State, loc: Loc, pos: int): Entry
    requires Position(s, loc, pos)
  {
    EntryOf(s.store[loc].keys[pos])
  }

  /** A bucket whose interval takes in `f` is above every bucket that has `f`. */
  lemma {:induction false} Owns(s: State, g: Shape, loc: Loc, f: Entry)
    requires Tree(s, g) && Snug(s, g) && loc in s.store && Above(g[loc].lo, f) && Below(f, g[loc].hi)
    ensures Searching(s, g, loc, f)
    decreases g[s.head].height - g[loc].height
  {
    hide LocalOk, ChildrenOk, Attached, Under, SnugAt, HasKey, Gap, SlotLo, SlotHi;
    if loc == s.head {
      SearchStarts(s, g, f);
    } else {
      ParentOf(s, g, loc);
      var p := s.store[loc].parent;
      var i := SlotOf(s.store[p], loc);
      NotNull(s, g, loc);
      InGap(s, g, p, i, f);
      Owns(s, g, p, f);
      SearchDescends(s, g, p, i, f);
    }
  }

  /** What lies in a child's interval lies in its slot. */
  lemma InGap(s: State, g: Shape, p: Loc, i: nat, f: Entry)
    requires Tree(s, g) && p in s.store && i <= |s.store[p].keys| && Child(s.store[p], i) in s.store
    requires Above(g[Child(s.store[p], i)].lo, f) && Below(f, g[Child(s.store[p], i)].hi)
    ensures Gap(s.store[p], g[p], i, f) && !HasKey(s.store[p], f) && Above(g[p].lo, f) && Below(f, g[p].hi)
  {
    hide SpaceOk, Attached;
    var b := s.store[p];
    var x := Child(b, i);
    NotNull(s, g, x);
    ChildAt(s, g, p, i);
    assert LocalOk(b, g[p]);
    InsideGap(b, g[p], i, g[x], f);
    GapNotKey(b, g[p], i, f);
  }

  lemma GapNotKey(b: Bucket, info: Info, i: nat, f: Entry)
    requires LocalOk(b, info) && Gap(b, info, i, f)
    ensures !HasKey(b, f)
  {
    hide SpaceOk;
    forall j | 0 <= j < |b.keys|
      ensures EntryOf(b.keys[j]) != f
    {
      if j < i {
        GapAbove(b, info, i, f, j);
      } else {
        GapBelow(b, info, i, f, j);
      }
      LessTransitive(f, f, f);
    }
  }

  /** Nothing is stored in a slot without a child. */
  lemma EmptySlot(s: State, g: Shape, loc: Loc, pos: nat)
    requires Tree(s, g) && Snug(s, g) && loc in s.store && pos <= |s.store[loc].keys|
             && Child(s.store[loc], pos) == NULL
    ensures NoneBetween(s, SlotLo(s.store[loc], g[loc], pos), SlotHi(s.store[loc], g[loc], pos))
  {
    hide ChildrenOk, Attached, Under, SnugAt, HasKey, SpaceOk, Sorted;
    assert LocalOk(s.store[loc], g[loc]);
    forall f | Above(SlotLo(s.store[loc], g[loc], pos), f) && Below(f, SlotHi(s.store[loc], g[loc], pos))
      ensures !Stored(s, f)
    {
      SlotGap(s.store[loc], g[loc], pos, f);
      Owns(s, g, loc, f);
      GapNotKey(s.store[loc], g[loc], pos, f);
      SearchDescends(s, g, loc, pos, f);
    }
  }

  lemma SlotGap(b: Bucket, info: Info, pos: nat, f: Entry)
    requires LocalOk(b, info) && pos <= |b.keys| && Above(SlotLo(b, info, pos), f) && Below(f, SlotHi(b, info, pos))
    ensures Gap(b, info, pos, f)
  {
    hide SpaceOk, Sorted;
    if pos > 0 && info.lo.Some? {
      LessTransitive(info.lo.value, EntryOf(b.keys[pos-1]), f);
    }
    if pos < |b.keys| && info.hi.Some? {
      LessTransitive(f, EntryOf(b.keys[pos]), info.hi.value);
    }
  }

  /** A child's interval is its slot. */
  lemma ChildSlot(s: State, g: Shape, loc: Loc, pos: nat)
    requires Tree(s, g) && Snug(s, g) && loc in s.store && pos <= |s.store[loc].keys|
             && Child(s.store[loc], pos) != NULL
    ensures var c := Child(s.store[loc], pos);
            && c in s.store && c in g && c != s.head && g[c].height < g[loc].height
            && g[c].lo == SlotLo(s.store[loc], g[loc], pos) && g[c].hi == SlotHi(s.store[loc], g[loc], pos)
            && s.store[c].parent == loc
  {
    hide LocalOk, ChildrenOk, Attached, Inside, SlotLo, SlotHi;
    ChildAt(s, g, loc, pos);
    assert SnugAt(s, g, loc, pos);
  }

  /** What `Locate` promises when the entry itself is not there. */
  ghost predicate Nearest(s: State, loc: Loc, pos: int, direction: int, e: Entry, lo: Option<Entry>,
      hi: Option<Entry>) {
    if direction < 0 then
      if loc == NULL then NoneBetween(s, lo, Some(e))
      else
        && Position(s, loc, pos) && Above(lo, At(s, loc, pos)) && Less(At(s, loc, pos), e)
        && NoneBetween(s, Some(At(s, loc, pos)), Some(e))
    else
      if loc == NULL then NoneBetween(s, Some(e), hi)
      else
        && Position(s, loc, pos) && Below(At(s, loc, pos), hi) && Less(e, At(s, loc, pos))
        && NoneBetween(s, Some(e), Some(At(s, loc, pos)))
  }

  /**
   Finds the position of an entry below `loc`; if it is not there, that of the next entry
   in the direction asked for.
   */
  method Locate(s: State, loc: Loc, key: Key, rec: int, direction: int, ghost g: Shape) returns (found: bool, l: Loc,
      pos: int)
    requires Tree(s, g) && Snug(s, g) && loc in s.store
    requires Above(g[loc].lo, Entry(key.ord, rec)) && Below(Entry(key.ord, rec), g[loc].hi)
    ensures found <==> Stored(s, Entry(key.ord, rec))
    ensures found ==> Position(s, l, pos) && At(s, l, pos) == Entry(key.ord, rec)
    ensures !found ==> Nearest(s, l, pos, direction, Entry(key.ord, rec), g[loc].lo, g[loc].hi)
    decreases g[loc].height
  {
    hide Tree, Snug, HasKey, NoneBetween, Gap;
    ghost var e := Entry(key.ord, rec);
    var b := s.store[loc];
    LocalIn(s, g, loc);
    var p;
    found, p := Find(b, key, rec);
    if found {
      StoredHere(s, loc, p);
      return true, loc, p;
    }
    FoundGap(b, g[loc], p, e);
    SlotIsGap(b, g[loc], p, e);
    var child := Child(b, p);
    if child != NULL {
      ChildSlot(s, g, loc, p);
      found, l, pos := Locate(s, child, key, rec, direction, g);
      if l != NULL {
        NearestWiden(s, g, loc, p, found, l, pos, direction, e);
        return;
      }
    } else {
      NotStored(s, g, loc, p, e);
      EmptySlot(s, g, loc, p);
      NarrowSlot(s, g, loc, p, e);
    }
    pos := p;
    if direction < 0 {
      pos := pos - 1;
      return false, if pos == -1 then NULL else loc, pos;
    } else {
      return false, if pos == |b.keys| then NULL else loc, pos;
    }
  }

  lemma LocalIn(s: State, g: Shape, loc: Loc)
    requires Tree(s, g) && loc in s.store
    ensures loc in g && LocalOk(s.store[loc], g[loc]) && loc != NULL && s.head in s.store && s.head in g
    ensures g[loc].height <= g[s.head].height && g[s.head].lo == None && g[s.head].hi == None && NULL !in s.store
    ensures s.store[s.head].parent == NULL
  {
  }

  lemma StoredHere(s: State, loc: Loc, pos: int)
    requires Position(s, loc, pos)
    ensures Stored(s, At(s, loc, pos))
  {
    assert HasKey(s.store[loc], At(s, loc, pos));
  }

  lemma SlotIsGap(b: Bucket, info: Info, pos: nat, e: Entry)
    requires Gap(b, info, pos, e)
    ensures pos <= |b.keys| && Above(SlotLo(b, info, pos), e) && Below(e, SlotHi(b, info, pos))
  {
  }

  lemma NotStored(s: State, g: Shape, loc: Loc, pos: nat, e: Entry)
    requires Tree(s, g) && Snug(s, g) && loc in s.store && Gap(s.store[loc], g[loc], pos, e)
             && pos <= |s.store[loc].keys|
    requires Child(s.store[loc], pos) == NULL
    ensures !Stored(s, e)
  {
    hide Tree, Snug, HasKey;
    EmptySlot(s, g, loc, pos);
  }

  lemma NarrowSlot(s: State, g: Shape, loc: Loc, pos: nat, e: Entry)
    requires loc in s.store && loc in g && pos <= |s.store[loc].keys|
    requires var b := s.store[loc]; Above(SlotLo(b, g[loc], pos), e) && Below(e, SlotHi(b, g[loc], pos))
    requires NoneBetween(s, SlotLo(s.store[loc], g[loc], pos), SlotHi(s.store[loc], g[loc], pos))
    ensures NoneBetween(s, SlotLo(s.store[loc], g[loc], pos), Some(e))
            && NoneBetween(s, Some(e), SlotHi(s.store[loc], g[loc], pos))
  {
    hide SlotLo, SlotHi, Stored, Less;
    var lo, hi := SlotLo(s.store[loc], g[loc], pos), SlotHi(s.store[loc], g[loc], pos);
    forall f | Above(lo, f) && Below(f, Some(e))
      ensures !Stored(s, f)
    {
      if hi.Some? { LessTransitive(f, e, hi.value); }
    }
    forall f | Above(Some(e), f) && Below(f, hi)
      ensures !Stored(s, f)
    {
      if lo.Some? { LessTransitive(lo.value, e, f); }
    }
  }

  lemma NearestWiden(s: State, g: Shape, loc: Loc, p: nat, found: bool, l: Loc, pos: int, direction: int, e: Entry)
    requires loc in s.store && loc in g && p <= |s.store[loc].keys| && LocalOk(s.store[loc], g[loc]) && l != NULL
    requires !found ==>
               Nearest(s, l, pos, direction, e, SlotLo(s.store[loc], g[loc], p), SlotHi(s.store[loc], g[loc], p))
    ensures !found ==> Nearest(s, l, pos, direction, e, g[loc].lo, g[loc].hi)
  {
    hide SpaceOk, Sorted, NoneBetween;
    if !found {
      var b, info := s.store[loc], g[loc];
      var f := At(s, l, pos);
      if p > 0 && info.lo.Some? {
        LessTransitive(info.lo.value, EntryOf(b.keys[p-1]), f);
      }
      if p < |b.keys| && info.hi.Some? {
        LessTransitive(f, EntryOf(b.keys[p]), info.hi.value);
      }
    }
  }

  // ---- Moving on ----

  /** The position next to an entry: nothing is stored between the two. */
  ghost predicate Adjacent(s: State, loc: Loc, pos: int, direction: int, e: Entry) {
    Nearest(s, loc, pos, direction, e, None, None)
  }

  method Advance(s: State, loc: Loc, keyOfs: nat, direction: int, ghost g: Shape) returns (l: Loc, ofs: int)
    requires Tree(s, g) && Snug(s, g) && Filled(s) && Position(s, loc, keyOfs) && (direction == 1 || direction == -1)
    ensures Adjacent(s, l, ofs, direction, At(s, loc, keyOfs))
    ensures l != NULL ==> Position(s, l, ofs)
  {
    hide Tree, Snug, NoneBetween;
    ghost var e := At(s, loc, keyOfs);
    var b := s.store[loc];
    LocalIn(s, g, loc);
    var adj := if direction < 0 then 1 else 0;
    var ko := keyOfs + direction;
    var nextDown := Child(b, ko + adj);
    if nextDown != NULL {
      ChildSlot(s, g, loc, ko + adj);
      l, ofs := Outermost(s, nextDown, direction, g);
      return;
    }
    EmptySlot(s, g, loc, ko + adj);
    if 0 <= ko < |b.keys| {
      SortedPair(b, g[loc], if direction < 0 then ko else keyOfs);
      return loc, ko;
    }
    l, ofs := Climb(s, loc, direction, e, g);
  }

  lemma SortedPair(b: Bucket, info: Info, i: nat)
    requires LocalOk(b, info) && i + 1 < |b.keys|
    ensures Less(EntryOf(b.keys[i]), EntryOf(b.keys[i+1]))
  {
  }

  /** Goes down to the first (or last) key below `down`. */
  method Outermost(s: State, down: Loc, direction: int, ghost g: Shape) returns (l: Loc, ofs: int)
    requires Tree(s, g) && Snug(s, g) && Filled(s) && down in s.store && down != s.head
             && (direction == 1 || direction == -1)
    requires if direction < 0 then g[down].hi.Some? else g[down].lo.Some?
    ensures Position(s, l, ofs)
    ensures Adjacent(s, l, ofs, direction, if direction < 0 then g[down].hi.value else g[down].lo.value)
  {
    hide Tree, Snug, NoneBetween;
    var adj := if direction < 0 then 1 else 0;
    l := down;
    LocalIn(s, g, l);
    while true
      invariant l in s.store && l != s.head && l in g && LocalOk(s.store[l], g[l]) && l != NULL
      invariant if direction < 0 then g[l].hi == g[down].hi else g[l].lo == g[down].lo
      decreases g[l].height
    {
      ofs := if direction > 0 then 0 else |s.store[l].keys| - 1;
      var next := Child(s.store[l], ofs + adj);
      if next == NULL {
        EmptySlot(s, g, l, ofs + adj);
        break;
      }
      ChildSlot(s, g, l, ofs + adj);
      LocalIn(s, g, next);
      l := next;
    }
  }

  /** Goes up until a key lies on the side asked for. */
  method Climb(s: State, loc: Loc, direction: int, ghost e: Entry, ghost g: Shape) returns (l: Loc, ofs: int)
    requires Tree(s, g) && Snug(s, g) && loc in s.store && (direction == 1 || direction == -1)
    requires Above(g[loc].lo, e) && Below(e, g[loc].hi)
    requires if direction < 0 then NoneBetween(s, g[loc].lo, Some(e)) else NoneBetween(s, Some(e), g[loc].hi)
    ensures Adjacent(s, l, ofs, direction, e)
    ensures l != NULL ==> Position(s, l, ofs)
  {
    hide Tree, Snug, NoneBetween, SlotLo, SlotHi;
    ofs := 0;
    var adj := if direction < 0 then 1 else 0;
    var child := loc;
    LocalIn(s, g, loc);
    var ancestor := s.store[loc].parent;
    while ancestor != NULL
      invariant child in s.store && child in g && ancestor == s.store[child].parent
      invariant Above(g[child].lo, e) && Below(e, g[child].hi)
      invariant if direction < 0 then NoneBetween(s, g[child].lo, Some(e)) else NoneBetween(s, Some(e), g[child].hi)
      decreases g[s.head].height - g[child].height
    {
      LocalIn(s, g, child);
      ghost var j := AncestorSlot(s, g, child);
      var an := s.store[ancestor];
      var i := 0;
      while i < |an.keys|
        invariant 0 <= i <= |an.keys|
        invariant forall k | adj <= k < i + adj :: Child(an, k) != child
      {
        if Child(an, i + adj) == child {
          OnlySlot(s, g, ancestor, i + adj, j);
          SlotEnds(an, g[ancestor], i + adj);
          return ancestor, i;
        }
        i := i + 1;
      }
      assert j == if direction < 0 then 0 else |an.keys|;
      SlotEnds(an, g[ancestor], j);
      InGap(s, g, ancestor, j, e);
      child := ancestor;
      LocalIn(s, g, child);
      ancestor := an.parent;
    }
    ParentlessTop(s, g, child);
    return NULL, 0;
  }

  lemma ParentlessTop(s: State, g: Shape, x: Loc)
    requires Tree(s, g) && x in s.store && s.store[x].parent == NULL
    ensures x == s.head && g[x].lo == None && g[x].hi == None
  {
    hide LocalOk, ChildrenOk, Attached;
    if x != s.head {
      ParentOf(s, g, x);
    }
  }

  lemma AncestorSlot(s: State, g: Shape, x: Loc) returns (j: nat)
    requires Tree(s, g) && Snug(s, g) && x in s.store && s.store[x].parent != NULL
    ensures var p := s.store[x].parent;
            && p in s.store && p in g && g[x].height < g[p].height <= g[s.head].height && j <= |s.store[p].keys|
            && Child(s.store[p], j) == x
            && g[x].lo == SlotLo(s.store[p], g[p], j) && g[x].hi == SlotHi(s.store[p], g[p], j)
  {
    hide LocalOk, ChildrenOk, Attached, SlotLo, SlotHi;
    ParentlessHead(s, g);
    ParentOf(s, g, x);
    var p := s.store[x].parent;
    j := SlotOf(s.store[p], x);
    NotNull(s, g, x);
    ChildSlot(s, g, p, j);
  }

  lemma OnlySlot(s: State, g: Shape, p: Loc, i: nat, j: nat)
    requires Tree(s, g) && p in s.store && i <= |s.store[p].keys| && j <= |s.store[p].keys|
    requires Child(s.store[p], i) == Child(s.store[p], j) && Child(s.store[p], i) in s.store
    ensures i == j
  {
    hide LocalOk, Attached, ChildOk;
    assert ChildrenOk(s, g, p);
  }

  lemma SlotEnds(b: Bucket, info: Info, j: nat)
    requires j <= |b.keys|
    ensures SlotLo(b, info, j) == if j == 0 then info.lo else Some(EntryOf(b.keys[j-1]))
    ensures SlotHi(b, info, j) == if j == |b.keys| then info.hi else Some(EntryOf(b.keys[j]))
  {
  }
}
