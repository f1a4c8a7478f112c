/** Scans of the tree: ranges in either direction, and the lookups that skip unused keys. */
module BtreeScan {
  import opened Basics
  import opened Bucket
  import opened BtreeShape
  import opened BtreeInsert
  import opened BtreeOrder
  import opened Btree
  import opened BtreeLocate

  /** `a` comes before `b` in the direction of a scan. */
  predicate Before(direction: int, a: Entry, b: Entry) {
    if direction < 0 then Less(b, a) else Less(a, b)
  }

  predicate Ordered(direction: int, es: seq<Entry>) {
    forall i, j | 0 <= i < j < |es| :: Before(direction, es[i], es[j])
  }

  // ---- The entries form a finite set, so a scan ends ----

  ghost function Entries(s: State): set<Entry> {
    set x, i | x in s.store && 0 <= i < |s.store[x].keys| :: EntryOf(s.store[x].keys[i])
  }

  ghost function Ahead(s: State, direction: int, e: Entry): set<Entry> {
    set f | f in Entries(s) && Before(direction, e, f)
  }

  lemma StoredIsEntry(s: State, f: Entry)
    ensures Stored(s, f) <==> f in Entries(s)
  {
    if Stored(s, f) {
      var x :| x in s.store && HasKey(s.store[x], f);
      var i :| 0 <= i < |s.store[x].keys| && EntryOf(s.store[x].keys[i]) == f;
    }
    if f in Entries(s) {
      var x, i :| x in s.store && 0 <= i < |s.store[x].keys| && EntryOf(s.store[x].keys[i]) == f;
      assert HasKey(s.store[x], f);
    }
  }

  lemma AheadShrinks(s: State, direction: int, e: Entry, f: Entry)
    requires Stored(s, f) && Before(direction, e, f)
    ensures |Ahead(s, direction, f)| < |Ahead(s, direction, e)|
  {
    StoredIsEntry(s, f);
    LessTransitive(f, f, f);
    var after, all := Ahead(s, direction, f), Ahead(s, direction, e);
    assert after + {f} <= all by {
      forall x | x in after
        ensures x in all
      {
        LessTransitive(e, f, x);
        LessTransitive(x, f, e);
      }
    }
    Smaller(after, all, f);
  }

  lemma {:induction false} Smaller(a: set<Entry>, b: set<Entry>, x: Entry)
    requires a + {x} <= b && x !in a
    ensures |a| < |b|
    decreases a
  {
    if a != {} {
      var y :| y in a;
      Smaller(a - {y}, b - {y}, x);
    } else {
      assert x in b;
    }
  }

  // ---- Used and unused keys ----

  lemma HasIsStored(s: State, f: Entry)
    requires Has(s, f)
    ensures Stored(s, f)
  {
    var x :| x in s.store && Holds(s.store[x], f);
    assert HasKey(s.store[x], f);
  }

  /** Every entry is in one place only, so its key there tells whether it is used. */
  lemma UsedHere(s: State, g: Shape, loc: Loc, pos: int)
    requires Tree(s, g) && Snug(s, g) && Position(s, loc, pos)
    ensures Has(s, At(s, loc, pos)) <==> !Unused(s.store[loc].keys[pos])
  {
    hide LocalOk, ChildrenOk, Attached, Under, SnugAt;
    var e := At(s, loc, pos);
    if Unused(s.store[loc].keys[pos]) {
      assert HasKey(s.store[loc], e);
      KeyInside(s, g, loc, e);
      Owns(s, g, loc, e);
      OnlyHere(s, g, loc, pos);
    } else {
      HasHere(s, loc, pos);
    }
  }

  /** All used entries from `e` on, up to the position reached, have been seen. */
  ghost predicate Seen(s: State, es: seq<Entry>, direction: int, e: Entry, loc: Loc, pos: int) {
    && (loc != NULL ==> Position(s, loc, pos) && !Before(direction, At(s, loc, pos), e))
    && (forall f :: f in es <==>
         Has(s, f) && !Before(direction, f, e) && (loc == NULL || Before(direction, f, At(s, loc, pos))))
    && Ordered(direction, es)
  }

  lemma SeenFirst(s: State, direction: int, e: Entry, found: bool, loc: Loc, pos: int)
    requires found ==> Position(s, loc, pos) && At(s, loc, pos) == e && loc != NULL
    requires !found ==> Adjacent(s, loc, pos, direction, e) && !Stored(s, e)
    ensures Seen(s, [], direction, e, loc, pos)
  {
    hide Has, Stored;
    LessTransitive(e, e, e);
    if loc != NULL {
      LessTransitive(e, At(s, loc, pos), e);
    }
    forall f
      ensures Has(s, f) && !Before(direction, f, e) ==> loc != NULL && !Before(direction, f, At(s, loc, pos))
    {
      if Has(s, f) && !Before(direction, f, e) {
        HasIsStored(s, f);
        Total(f, e);
        NoneBetweenAt(s, direction, e, loc, pos, found, f);
      }
    }
  }

  lemma Total(a: Entry, b: Entry)
    ensures a == b || Less(a, b) || Less(b, a)
  {
  }

  lemma NoneBetweenAt(s: State, direction: int, e: Entry, loc: Loc, pos: int, found: bool, f: Entry)
    requires found ==> Position(s, loc, pos) && At(s, loc, pos) == e && loc != NULL
    requires !found ==> Adjacent(s, loc, pos, direction, e) && !Stored(s, e)
    requires Stored(s, f) && (f == e || Before(direction, e, f))
    ensures loc != NULL && !Before(direction, f, At(s, loc, pos))
  {
    hide Stored;
    LessTransitive(e, f, e);
    LessTransitive(f, e, f);
  }

  lemma SeenNext(s: State, es: seq<Entry>, direction: int, e: Entry, loc: Loc, pos: int, used: bool, l: Loc, p: int)
    requires Seen(s, es, direction, e, loc, pos) && loc != NULL && Adjacent(s, l, p, direction, At(s, loc, pos))
    requires used <==> Has(s, At(s, loc, pos))
    ensures Seen(s, if used then es + [At(s, loc, pos)] else es, direction, e, l, p)
    ensures l != NULL ==> Before(direction, At(s, loc, pos), At(s, l, p))
  {
    hide Has, Stored;
    var cur := At(s, loc, pos);
    var es' := if used then es + [cur] else es;
    if l != NULL {
      Chain(direction, e, cur, At(s, l, p));
    }
    forall f
      ensures f in es' <==> Has(s, f) && !Before(direction, f, e) && (l == NULL || Before(direction, f, At(s, l, p)))
    {
      assert f in es' <==> f in es || (used && f == cur);
      if l != NULL {
        Chain(direction, f, cur, At(s, l, p));
      }
      if Has(s, f) && !Before(direction, f, cur) && f != cur {
        HasIsStored(s, f);
        Total(f, cur);
        LessTransitive(f, f, f);
      }
    }
    assert forall x | x in es :: Before(direction, x, cur);
  }

  lemma Chain(direction: int, f: Entry, cur: Entry, next: Entry)
    requires Before(direction, cur, next)
    ensures Before(direction, f, cur) ==> Before(direction, f, next)
    ensures !Before(direction, cur, f) ==> !Before(direction, next, f)
  {
    LessTransitive(f, cur, next);
    LessTransitive(next, cur, f);
    LessTransitive(cur, next, f);
    LessTransitive(f, next, cur);
  }

  /** Scans from a key on, in either direction: every used entry there, once, in order. */
  method Scan(s: State, key: Key, rec: int, direction: int, ghost g: Shape) returns (es: seq<Entry>)
    requires Tree(s, g) && Snug(s, g) && Filled(s) && (direction == 1 || direction == -1)
    ensures Ordered(direction, es)
    ensures forall f :: f in es <==> Has(s, f) && !Before(direction, f, Entry(key.ord, rec))
  {
    hide Tree, Snug, Stored, Has, Adjacent, Filled;
    ghost var e := Entry(key.ord, rec);
    HeadBounds(s, g);
    var found, loc, pos := Locate(s, s.head, key, rec, direction, g);
    AdjacentAtHead(s, g, found, loc, pos, direction, e);
    es := [];
    SeenFirst(s, direction, e, found, loc, pos);
    while loc != NULL
      invariant Seen(s, es, direction, e, loc, pos)
      decreases if loc == NULL || !Position(s, loc, pos) then 0 else |Ahead(s, direction, At(s, loc, pos))| + 1
    {
      UsedHere(s, g, loc, pos);
      var l, p := Advance(s, loc, pos, direction, g);
      var k := s.store[loc].keys[pos];
      SeenNext(s, es, direction, e, loc, pos, !Unused(k), l, p);
      if l != NULL {
        StoredHere(s, l, p);
        AheadShrinks(s, direction, At(s, loc, pos), At(s, l, p));
      }
      if !Unused(k) {
        es := es + [EntryOf(k)];
      }
      loc, pos := l, p;
    }
  }

  lemma HeadBounds(s: State, g: Shape)
    requires Tree(s, g)
    ensures s.head in s.store && s.head in g && g[s.head].lo == None && g[s.head].hi == None && NULL !in s.store
  {
  }

  lemma AdjacentAtHead(s: State, g: Shape, found: bool, loc: Loc, pos: int, direction: int, e: Entry)
    requires Tree(s, g) && s.head in g
    requires !found ==> Nearest(s, loc, pos, direction, e, g[s.head].lo, g[s.head].hi)
    requires found ==> Position(s, loc, pos)
    ensures !found ==> Adjacent(s, loc, pos, direction, e)
    ensures found ==> loc != NULL
  {
    hide LocalOk, ChildrenOk, Attached, NoneBetween;
  }

  // ---- A scan from the far end is the in-order walk ----

  /** An ordered list is determined by what is in it. */
  lemma {:induction false} OrderedUnique(direction: int, a: seq<Entry>, b: seq<Entry>)
    requires Ordered(direction, a) && Ordered(direction, b) && forall f :: f in a <==> f in b
    ensures a == b
    decreases |a|
  {
    if a == [] {
      assert forall i | 0 <= i < |b| :: b[i] in a;
    } else {
      var x := a[|a|-1];
      assert x in b && b[|b|-1] in a;
      LessTransitive(x, b[|b|-1], x);
      assert x == b[|b|-1];
      var a', b' := a[..|a|-1], b[..|b|-1];
      forall f
        ensures f in a' <==> f in b'
      {
        assert f in a <==> f in a' || f == x;
        assert f in b <==> f in b' || f == x;
        LessTransitive(x, x, x);
      }
      OrderedUnique(direction, a', b');
    }
  }

  function Reversed(es: seq<Entry>): (r: seq<Entry>)
    ensures |r| == |es| && (forall i | 0 <= i < |es| :: r[i] == es[|es|-1-i])
    ensures forall f :: f in r <==> f in es
  {
    if es == [] then [] else
      var r := Reversed(es[1..]) + [es[0]];
      assert es == [es[0]] + es[1..];
      r
  }

  /** Repeated advancing from the lowest entry lists the tree in order; from the highest, in reverse order. */
  lemma ScanIsInOrder(s: State, g: Shape, es: seq<Entry>, direction: int, e: Entry)
    requires Tree(s, g) && Ordered(direction, es) && forall f :: Has(s, f) ==> !Before(direction, f, e)
    requires forall f :: f in es <==> Has(s, f) && !Before(direction, f, e)
    ensures es == if direction < 0 then Reversed(InOrder(s, g, s.head)) else InOrder(s, g, s.head)
  {
    hide Inv, InOrder, Has;
    HeadBounds(s, g);
    InOrderIsSorted(s, g);
    var walk := InOrder(s, g, s.head);
    OrderedUnique(direction, es, if direction < 0 then Reversed(walk) else walk);
  }

  // ---- Lookups by key alone ----

  /** `minLoc` is at or below every record location in the tree. */
  ghost predicate Lowest(s: State, minLoc: int) {
    forall f | Stored(s, f) :: minLoc <= f.rec
  }

  /** The first used key at or after all entries for a key. */
  method FirstUsed(s: State, key: Key, minLoc: int, ghost g: Shape) returns (loc: Loc, pos: int)
    requires Tree(s, g) && Snug(s, g) && Filled(s)
    ensures loc != NULL ==> Position(s, loc, pos) && Has(s, At(s, loc, pos)) && !Unused(s.store[loc].keys[pos])
    ensures Seen(s, [], 1, Entry(key.ord, minLoc), loc, pos)
  {
    hide Tree, Snug, Stored, Has, Adjacent, Filled;
    ghost var e := Entry(key.ord, minLoc);
    HeadBounds(s, g);
    var found;
    found, loc, pos := Locate(s, s.head, key, minLoc, 1, g);
    AdjacentAtHead(s, g, found, loc, pos, 1, e);
    SeenFirst(s, 1, e, found, loc, pos);
    while loc != NULL
      invariant Seen(s, [], 1, e, loc, pos)
      decreases if loc == NULL || !Position(s, loc, pos) then 0 else |Ahead(s, 1, At(s, loc, pos))| + 1
    {
      UsedHere(s, g, loc, pos);
      if !Unused(s.store[loc].keys[pos]) {
        return;
      }
      var l, p := Advance(s, loc, pos, 1, g);
      SeenNext(s, [], 1, e, loc, pos, false, l, p);
      if l != NULL {
        StoredHere(s, l, p);
        AheadShrinks(s, 1, At(s, loc, pos), At(s, l, p));
      }
      loc, pos := l, p;
    }
  }

  /** The first used entry is for the key if any used entry is. */
  lemma FirstIsMine(s: State, ord: int, minLoc: int, loc: Loc, pos: int, f: Entry)
    requires Seen(s, [], 1, Entry(ord, minLoc), loc, pos) && Lowest(s, minLoc) && Has(s, f) && f.ord == ord
    ensures loc != NULL && At(s, loc, pos).ord == ord && !Less(f, At(s, loc, pos))
  {
    hide Has, Stored;
    HasIsStored(s, f);
    assert f !in [];
  }

  /** Is there a used entry for the key? */
  method Exists(s: State, key: Key, minLoc: int, ghost g: Shape) returns (r: bool)
    requires Tree(s, g) && Snug(s, g) && Filled(s) && Lowest(s, minLoc)
    ensures r <==> exists rec: int :: Has(s, Entry(key.ord, rec))
  {
    hide Tree, Snug, Stored, Has, Filled, Lowest, Seen;
    var loc, pos := FirstUsed(s, key, minLoc, g);
    r := loc != NULL && s.store[loc].keys[pos].key.ord == key.ord;
    if r {
      assert Has(s, Entry(key.ord, At(s, loc, pos).rec));
    }
    if rec: int :| Has(s, Entry(key.ord, rec)) {
      FirstIsMine(s, key.ord, minLoc, loc, pos, Entry(key.ord, rec));
    }
  }

  /** The lowest record with a used entry for the key. */
  ghost predicate LeastRec(s: State, ord: int, rec: int) {
    Has(s, Entry(ord, rec)) && forall other: int | Has(s, Entry(ord, other)) :: rec <= other
  }

  ghost predicate Unique(s: State, ord: int) {
    forall a: int, b: int | Has(s, Entry(ord, a)) && Has(s, Entry(ord, b)) :: a == b
  }

  /** Is the first used entry for the key another record's? */
  method WouldCreateDup(s: State, key: Key, self: int, minLoc: int, ghost g: Shape) returns (r: bool)
    requires Tree(s, g) && Snug(s, g) && Filled(s) && Lowest(s, minLoc)
    ensures r <==> exists rec: int | rec != self :: LeastRec(s, key.ord, rec)
    ensures Unique(s, key.ord) ==> (r <==> exists rec: int | rec != self :: Has(s, Entry(key.ord, rec)))
  {
    hide Tree, Snug, Stored, Has, Filled, Lowest, Seen;
    var loc, pos := FirstUsed(s, key, minLoc, g);
    r := loc != NULL && s.store[loc].keys[pos].key.ord == key.ord && s.store[loc].keys[pos].rec != self;
    forall rec: int | Has(s, Entry(key.ord, rec))
      ensures loc != NULL && At(s, loc, pos).ord == key.ord && At(s, loc, pos).rec <= rec
    {
      FirstIsMine(s, key.ord, minLoc, loc, pos, Entry(key.ord, rec));
    }
    if loc != NULL && s.store[loc].keys[pos].key.ord == key.ord {
      assert LeastRec(s, key.ord, At(s, loc, pos).rec);
    }
  }

  /** The record of the lowest used entry for the key, or null. */
  method FindSingle(s: State, key: Key, minLoc: int, ghost g: Shape) returns (rec: int)
    requires Tree(s, g) && Snug(s, g) && Filled(s) && Lowest(s, minLoc) && NULL < minLoc
    ensures rec == NULL <==> forall r: int :: !Has(s, Entry(key.ord, r))
    ensures rec != NULL ==> LeastRec(s, key.ord, rec)
  {
    hide Tree, Snug, Stored, Has, Filled, Seen;
    var loc, pos := FirstUsed(s, key, minLoc, g);
    if loc != NULL && s.store[loc].keys[pos].key.ord == key.ord {
      rec := s.store[loc].keys[pos].rec;
      StoredHere(s, loc, pos);
      assert Has(s, Entry(key.ord, rec));
    } else {
      rec := NULL;
    }
    forall r: int | Has(s, Entry(key.ord, r))
      ensures rec != NULL && rec <= r
    {
      FirstIsMine(s, key.ord, minLoc, loc, pos, Entry(key.ord, r));
    }
  }
}
