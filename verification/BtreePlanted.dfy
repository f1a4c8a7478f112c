/**
 The tree that the builder makes is a tree like any other: laid out in a store, it is well
 formed, no bucket is empty, and it has just the entries of the run.
 */
module BtreePlanted {
  import opened Basics
  import opened Bucket
  import opened BtreeShape
  import opened BtreeInsert
  import opened BtreeOrder
  import opened BtreeScan
  import B = BtreeBuilder
  import J = BtreeJoin

  /** A part of a store: its buckets with their shape, and the first location it leaves free. */
  datatype Part = Part(store: map<Loc, Bucket>, shape: Shape, loc: Loc, keys: seq<KeyNode>, free: Loc)

  function Height(t: B.Node): nat {
    match t
    case Nil => 0
    case Node(items, next) => 1 + J.Higher(HeightOf(items), Height(next))
  }

  function HeightOf(items: B.Items): nat {
    match items
    case Empty => 0
    case Snoc(init, x) => J.Higher(HeightOf(init), Height(x.child))
  }

  function EntryOfItem(x: B.Item): Entry { Entry(x.key.ord, x.rec) }

  /** The entry left of whatever comes behind the items. */
  function LastOf(items: B.Items, lo: Option<Entry>): Option<Entry> {
    match items
    case Empty => lo
    case Snoc(_, x) => Some(EntryOfItem(x))
  }

  /** A bucket with what hangs below it, laid out from `free` on. */
  function Plant(t: B.Node, parent: Loc, free: Loc, lo: Option<Entry>, hi: Option<Entry>): Part {
    match t
    case Nil => Part(map[], map[], NULL, [], free)
    case Node(items, next) =>
      var a := PlantItems(items, free, free + 1, lo);
      var b := Plant(next, free, a.free, LastOf(items, lo), hi);
      var bucket := Bucket(parent, b.loc, a.keys, BODY - Bytes(a.keys), true);
      Part((a.store + b.store)[free := bucket], (a.shape + b.shape)[free := Info(Height(t), lo, hi)], free, a.keys,
        b.free)
  }

  function PlantItems(items: B.Items, parent: Loc, free: Loc, lo: Option<Entry>): Part {
    match items
    case Empty => Part(map[], map[], NULL, [], free)
    case Snoc(init, x) =>
      var a := PlantItems(init, parent, free, lo);
      var b := Plant(x.child, parent, a.free, LastOf(init, lo), Some(EntryOfItem(x)));
      Part(a.store + b.store, a.shape + b.shape, NULL, a.keys + [KeyNode(b.loc, x.rec, x.key)], b.free)
  }

  // ---- Locations ----

  /** The part takes the locations from `from` up to its own `free`, and no others. */
  predicate Ranged(p: Part, from: Loc) {
    && from <= p.free && p.store.Keys == p.shape.Keys
    && forall x | x in p.store :: from <= x < p.free
  }

  lemma {:induction false} PlantRanged(t: B.Node, parent: Loc, free: Loc, lo: Option<Entry>, hi: Option<Entry>)
    requires free > NULL
    ensures Ranged(Plant(t, parent, free, lo, hi), free)
    ensures var p := Plant(t, parent, free, lo, hi);
            if t.Nil? then p.loc == NULL && p.store == map[]
            else
              && p.loc == free && free in p.store && p.store[free].parent == parent
              && p.shape[free] == Info(Height(t), lo, hi)
    decreases t, 0
  {
    if t.Node? {
      ItemsRanged(t.items, free, free + 1, lo);
      PlantRanged(t.next, free, PlantItems(t.items, free, free + 1, lo).free, LastOf(t.items, lo), hi);
    }
  }

  lemma {:induction false} ItemsRanged(items: B.Items, parent: Loc, free: Loc, lo: Option<Entry>)
    requires free > NULL
    ensures Ranged(PlantItems(items, parent, free, lo), free)
    decreases items, 1
  {
    if items.Snoc? {
      ItemsRanged(items.init, parent, free, lo);
      var a := PlantItems(items.init, parent, free, lo);
      PlantRanged(items.last.child, parent, a.free, LastOf(items.init, lo), Some(EntryOfItem(items.last)));
    }
  }

  // ---- Parts of a store that fit together ----

  ghost function StateOf(p: Part): State { State(p.store, NULL, p.free) }

  /** Every bucket of the part is sound, and so are its children. */
  ghost predicate PartOk(p: Part) {
    && p.store.Keys == p.shape.Keys && NULL !in p.store
    && (forall x | x in p.store :: LocalOk(p.store[x], p.shape[x]))
    && (forall x | x in p.store :: ChildrenOk(StateOf(p), p.shape, x))
    && (forall x | x in p.store :: p.store[x].keys != [])
  }

  ghost predicate Extends(p: Part, store: map<Loc, Bucket>, shape: Shape) {
    && p.store.Keys <= store.Keys && p.shape.Keys <= shape.Keys
    && (forall x | x in p.store :: store[x] == p.store[x]) && (forall x | x in p.shape :: shape[x] == p.shape[x])
  }

  /** What holds of the children of a bucket holds in a larger store too. */
  lemma ChildrenStay(p: Part, s: State, g: Shape, x: Loc)
    requires PartOk(p) && Extends(p, s.store, g) && x in p.store
    ensures x in s.store && x in g && LocalOk(s.store[x], g[x]) && ChildrenOk(s, g, x)
  {
    hide LocalOk;
    assert ChildrenOk(StateOf(p), p.shape, x);
    forall i | 0 <= i <= |s.store[x].keys|
      ensures ChildOk(s, g, x, i)
    {
      assert ChildOk(StateOf(p), p.shape, x, i);
    }
  }

  lemma JoinParts(a: Part, b: Part, c: Part)
    requires PartOk(a) && PartOk(b) && a.store.Keys !! b.store.Keys
    requires c.store == a.store + b.store && c.shape == a.shape + b.shape
    ensures PartOk(c) && Extends(a, c.store, c.shape) && Extends(b, c.store, c.shape)
  {
    hide LocalOk, ChildrenOk;
    assert Extends(a, c.store, c.shape) && Extends(b, c.store, c.shape);
    forall x | x in c.store
      ensures LocalOk(c.store[x], c.shape[x]) && ChildrenOk(StateOf(c), c.shape, x) && c.store[x].keys != []
    {
      if x in a.store {
        ChildrenStay(a, StateOf(c), c.shape, x);
      } else {
        ChildrenStay(b, StateOf(c), c.shape, x);
      }
    }
  }

  // ---- Entries in bounds ----

  /** Everything below a bucket lies in an interval, in order, with used entries only. */
  predicate InBounds(t: B.Node, lo: Option<Entry>, hi: Option<Entry>) {
    match t
    case Nil => true
    case Node(items, next) => ItemsIn(items, lo, hi) && InBounds(next, LastOf(items, lo), hi)
  }

  predicate ItemsIn(items: B.Items, lo: Option<Entry>, hi: Option<Entry>) {
    match items
    case Empty => true
    case Snoc(init, x) =>
      var e := EntryOfItem(x);
      && ItemsIn(init, lo, hi) && x.rec % 2 == 0
      && Above(lo, e) && Above(LastOf(init, lo), e) && Below(e, hi) && InBounds(x.child, LastOf(init, lo), Some(e))
  }

  /** The bound to the left of child `i`. */
  function Left(keys: seq<KeyNode>, lo: Option<Entry>, i: nat): Option<Entry>
    requires i <= |keys|
  {
    if i == 0 then lo else Some(EntryOf(keys[i-1]))
  }

  /** The child left of key `i` hangs where it should. */
  ghost predicate SlotOk(p: Part, parent: Loc, lo: Option<Entry>, i: nat, h: nat)
    requires i < |p.keys|
  {
    var c := p.keys[i].child;
    c == NULL ||
    (&& c in p.store && c in p.shape && p.store[c].parent == parent && p.shape[c].height <= h
     && p.shape[c].lo == Left(p.keys, lo, i) && p.shape[c].hi == Some(EntryOf(p.keys[i])))
  }

  /** The keys of a bucket with what hangs left of each. */
  ghost predicate ItemsOk(p: Part, parent: Loc, lo: Option<Entry>, hi: Option<Entry>, h: nat) {
    && PartOk(p)
    && (forall i | 0 <= i < |p.keys| :: SlotOk(p, parent, lo, i, h))
    && (forall i, j | 0 <= i < j < |p.keys| :: p.keys[i].child == p.keys[j].child ==> p.keys[i].child == NULL)
    && Sorted(p.keys) && Within(p.keys, Info(h, lo, hi))
  }

  lemma {:induction false} ItemsPlanted(items: B.Items, parent: Loc, free: Loc, lo: Option<Entry>, hi: Option<Entry>)
    requires free > NULL && ItemsIn(items, lo, hi) && B.AllSound(items, KEY_MAX)
    ensures var p := PlantItems(items, parent, free, lo);
            && Ranged(p, free) && ItemsOk(p, parent, lo, hi, HeightOf(items))
            && LastOf(items, lo) == Left(p.keys, lo, |p.keys|)
            && KeySizes(p.keys) && Bytes(p.keys) == B.Used(items) && (p.keys == [] <==> items == B.Empty)
    decreases items, 1
  {
    hide Bytes, Plant, PlantItems, PartOk, ItemsOk, Extends, Ranged, InBounds, HeightOf, Height;
    ItemsRanged(items, parent, free, lo);
    if items.Empty? {
      NoItemsPlanted(parent, free, lo, hi);
    } else {
      var x := items.last;
      ItemsPlanted(items.init, parent, free, lo, hi);
      ItemsRanged(items.init, parent, free, lo);
      var a := PlantItems(items.init, parent, free, lo);
      RangedFree(a, free);
      NodePlanted(x.child, parent, a.free, LastOf(items.init, lo), Some(EntryOfItem(x)));
      PlantRanged(x.child, parent, a.free, LastOf(items.init, lo), Some(EntryOfItem(x)));
      var b := Plant(x.child, parent, a.free, LastOf(items.init, lo), Some(EntryOfItem(x)));
      var c := PlantItems(items, parent, free, lo);
      SnocPlanted(items, parent, free, lo);
      RangedApart(a, b, free);
      ItemsArePart(a, parent, lo, hi, HeightOf(items.init));
      JoinParts(a, b, c);
      BytesPush(a.keys, KeyNode(b.loc, x.rec, x.key));
      SnocHeight(items);
      KeysJoin(a, b, c, parent, lo, hi, HeightOf(items.init), HeightOf(items), x);
    }
  }

  lemma NoItemsPlanted(parent: Loc, free: Loc, lo: Option<Entry>, hi: Option<Entry>)
    ensures var p := PlantItems(B.Empty, parent, free, lo);
            ItemsOk(p, parent, lo, hi, HeightOf(B.Empty)) && p.keys == [] && Bytes(p.keys) == 0
  {
    NoBytes();
  }

  lemma SnocPlanted(items: B.Items, parent: Loc, free: Loc, lo: Option<Entry>)
    requires items.Snoc?
    ensures var x := items.last;
            var a := PlantItems(items.init, parent, free, lo);
            var b := Plant(x.child, parent, a.free, LastOf(items.init, lo), Some(EntryOfItem(x)));
            PlantItems(items, parent, free, lo) ==
            Part(a.store + b.store, a.shape + b.shape, NULL, a.keys + [KeyNode(b.loc, x.rec, x.key)], b.free)
  {
    hide Plant;
  }

  lemma SnocHeight(items: B.Items)
    requires items.Snoc?
    ensures HeightOf(items.init) <= HeightOf(items) && Height(items.last.child) <= HeightOf(items)
  {
  }

  lemma RangedFree(p: Part, from: Loc)
    requires Ranged(p, from)
    ensures from <= p.free && forall x | x in p.store :: from <= x < p.free
  {
  }

  lemma RangedApart(a: Part, b: Part, from: Loc)
    requires Ranged(a, from) && Ranged(b, a.free)
    ensures a.store.Keys !! b.store.Keys && a.free !in a.store
  {
    assert forall x | x in a.store.Keys :: x !in b.store.Keys;
  }

  lemma ItemsArePart(p: Part, parent: Loc, lo: Option<Entry>, hi: Option<Entry>, h: nat)
    requires ItemsOk(p, parent, lo, hi, h)
    ensures PartOk(p) && Sorted(p.keys) && Within(p.keys, Info(h, lo, hi))
  {
  }

  /** One more key, with what hangs left of it. */
  lemma KeysJoin(a: Part, b: Part, c: Part, parent: Loc, lo: Option<Entry>, hi: Option<Entry>, h: nat, h': nat,
      x: B.Item)
    requires ItemsOk(a, parent, lo, hi, h) && PartOk(c) && h <= h' && Extends(a, c.store, c.shape)
             && Extends(b, c.store, c.shape)
    requires c.keys == a.keys + [KeyNode(b.loc, x.rec, x.key)] && x.rec % 2 == 0
    requires b.loc == NULL
             || (&& b.loc in b.store && b.loc in b.shape && b.store[b.loc].parent == parent && b.loc !in a.store
                               && b.shape[b.loc].lo == Left(a.keys, lo, |a.keys|)
                               && b.shape[b.loc].hi == Some(EntryOfItem(x))
                               && b.shape[b.loc].height <= h')
    requires Above(lo, EntryOfItem(x)) && Above(Left(a.keys, lo, |a.keys|), EntryOfItem(x)) && Below(EntryOfItem(x), hi)
    ensures ItemsOk(c, parent, lo, hi, h')
  {
    hide LocalOk, ChildrenOk, PartOk;
    var n, e := |a.keys|, EntryOfItem(x);
    assert EntryOf(c.keys[n]) == e;
    forall i | 0 <= i < |c.keys|
      ensures SlotOk(c, parent, lo, i, h')
    {
      if i < n {
        assert SlotOk(a, parent, lo, i, h);
      }
    }
    forall i, j | 0 <= i < j < |c.keys|
      ensures c.keys[i].child == c.keys[j].child ==> c.keys[i].child == NULL
      ensures Less(EntryOf(c.keys[i]), EntryOf(c.keys[j]))
    {
      assert SlotOk(a, parent, lo, i, h);
      if j == n && i < n - 1 {
        LessTransitive(EntryOf(c.keys[i]), EntryOf(c.keys[n-1]), e);
      }
    }
  }

  lemma {:induction false} NodePlanted(t: B.Node, parent: Loc, free: Loc, lo: Option<Entry>, hi: Option<Entry>)
    requires free > NULL && InBounds(t, lo, hi) && B.Sound(t, KEY_MAX)
    ensures PartOk(Plant(t, parent, free, lo, hi))
    decreases t, 0
  {
    hide Bytes, Plant, PlantItems, PartOk, ItemsOk, Extends, Ranged, ItemsIn, HeightOf, Height, B.AllSound, B.Used;
    if t.Nil? {
      NothingPlanted(parent, free, lo, hi);
    } else {
      ItemsPlanted(t.items, free, free + 1, lo, hi);
      ItemsRanged(t.items, free, free + 1, lo);
      var a := PlantItems(t.items, free, free + 1, lo);
      RangedFree(a, free + 1);
      NodePlanted(t.next, free, a.free, LastOf(t.items, lo), hi);
      PlantRanged(t.next, free, a.free, LastOf(t.items, lo), hi);
      var b := Plant(t.next, free, a.free, LastOf(t.items, lo), hi);
      var c := Part(a.store + b.store, a.shape + b.shape, NULL, a.keys, b.free);
      RangedFree(b, a.free);
      RangedApart(a, b, free + 1);
      ItemsArePart(a, free, lo, hi, HeightOf(t.items));
      JoinParts(a, b, c);
      PutRoot(a, b, c, t, parent, free, lo, hi);
    }
  }

  lemma NothingPlanted(parent: Loc, free: Loc, lo: Option<Entry>, hi: Option<Entry>)
    ensures PartOk(Plant(B.Nil, parent, free, lo, hi))
  {
  }

  lemma NodeIs(t: B.Node, parent: Loc, free: Loc, lo: Option<Entry>, hi: Option<Entry>)
    requires t.Node?
    ensures var a := PlantItems(t.items, free, free + 1, lo);
            var b := Plant(t.next, free, a.free, LastOf(t.items, lo), hi);
            Plant(t, parent, free, lo, hi) ==
            Part((a.store + b.store)[free := Bucket(parent, b.loc, a.keys, BODY - Bytes(a.keys), true)],
                 (a.shape + b.shape)[free := Info(Height(t), lo, hi)], free, a.keys, b.free)
  {
    hide PlantItems, Bytes, Height;
  }

  /** The bucket itself, above what hangs below it. */
  lemma PutRoot(a: Part, b: Part, c: Part, t: B.Node, parent: Loc, free: Loc, lo: Option<Entry>, hi: Option<Entry>)
    requires t.Node? && free > NULL && a == PlantItems(t.items, free, free + 1, lo)
    requires b == Plant(t.next, free, a.free, LastOf(t.items, lo), hi)
    requires ItemsOk(a, free, lo, hi, HeightOf(t.items)) && PartOk(c)
    requires Extends(a, c.store, c.shape) && Extends(b, c.store, c.shape)
    requires c.store == a.store + b.store && c.shape == a.shape + b.shape && free !in c.store
             && a.store.Keys !! b.store.Keys
    requires KeySizes(a.keys) && Bytes(a.keys) == B.Used(t.items) <= BODY && a.keys != []
    requires LastOf(t.items, lo) == Left(a.keys, lo, |a.keys|)
    requires if t.next.Nil? then b.loc == NULL
             else && b.loc == a.free && a.free in b.store && a.free in b.shape && b.store[a.free].parent == free
                  && b.shape[a.free] == Info(Height(t.next), LastOf(t.items, lo), hi)
    ensures PartOk(Plant(t, parent, free, lo, hi))
  {
    hide Bytes, PlantItems, Plant, PartOk, ItemsOk, Height, HeightOf, Extends, ChildrenOk, LocalOk, Sorted, Within;
    NodeIs(t, parent, free, lo, hi);
    var r := Plant(t, parent, free, lo, hi);
    PartKeys(c);
    RootExtends(a, b, c, r, free);
    ItemsArePart(a, free, lo, hi, HeightOf(t.items));
    RootLocal(a.keys, r.store[free], Info(HeightOf(t.items), lo, hi), r.shape[free]);
    RootChildren(a, b, r, t, free, lo, hi);
    forall x | x in c.store
      ensures LocalOk(r.store[x], r.shape[x]) && ChildrenOk(StateOf(r), r.shape, x) && r.store[x].keys != []
    {
      ChildrenStay(c, StateOf(r), r.shape, x);
    }
    AllSoundParts(r);
  }

  lemma RootExtends(a: Part, b: Part, c: Part, r: Part, free: Loc)
    requires c.store == a.store + b.store && c.shape == a.shape + b.shape && free !in c.store && free !in c.shape
    requires Extends(a, c.store, c.shape) && Extends(b, c.store, c.shape)
    requires free in r.store && free in r.shape && r.store == c.store[free := r.store[free]]
             && r.shape == c.shape[free := r.shape[free]]
    ensures Extends(c, r.store, r.shape) && Extends(a, r.store, r.shape) && Extends(b, r.store, r.shape)
  {
  }

  lemma PartKeys(p: Part)
    requires PartOk(p)
    ensures p.store.Keys == p.shape.Keys && NULL !in p.store && forall x | x in p.store :: p.store[x].keys != []
  {
  }

  lemma RootLocal(keys: seq<KeyNode>, b: Bucket, info: Info, info': Info)
    requires Sorted(keys) && Within(keys, info) && KeySizes(keys) && Bytes(keys) <= BODY
    requires b.keys == keys && b.empty == BODY - Bytes(keys) && b.packed && info.lo == info'.lo && info.hi == info'.hi
    ensures LocalOk(b, info')
  {
    hide Bytes;
    BytesBounds(keys);
  }

  lemma AllSoundParts(r: Part)
    requires r.store.Keys == r.shape.Keys && NULL !in r.store
    requires forall x | x in r.store ::
               LocalOk(r.store[x], r.shape[x]) && ChildrenOk(StateOf(r), r.shape, x) && r.store[x].keys != []
    ensures PartOk(r)
  {
    hide LocalOk, ChildrenOk;
  }

  lemma RootChildren(a: Part, b: Part, r: Part, t: B.Node, free: Loc, lo: Option<Entry>, hi: Option<Entry>)
    requires t.Node? && free in r.store && free in r.shape && r.shape[free] == Info(Height(t), lo, hi)
    requires r.store[free].keys == a.keys && r.store[free].next == b.loc
    requires ItemsOk(a, free, lo, hi, HeightOf(t.items)) && Extends(a, r.store, r.shape) && Extends(b, r.store, r.shape)
    requires LastOf(t.items, lo) == Left(a.keys, lo, |a.keys|)
    requires if t.next.Nil? then b.loc == NULL
             else && b.loc in b.store && b.loc in b.shape && b.loc !in a.store && b.store[b.loc].parent == free
                  && b.shape[b.loc] == Info(Height(t.next), LastOf(t.items, lo), hi)
    ensures ChildrenOk(StateOf(r), r.shape, free)
  {
    hide LocalOk, PartOk;
    var bucket := r.store[free];
    forall i | 0 <= i <= |bucket.keys|
      ensures ChildOk(StateOf(r), r.shape, free, i)
    {
      if i < |bucket.keys| {
        assert SlotOk(a, free, lo, i, HeightOf(t.items));
      }
      LessIrreflexive();
    }
    forall i, j | 0 <= i < j <= |bucket.keys|
      ensures Child(bucket, i) == Child(bucket, j) ==> Child(bucket, i) == NULL
    {
      assert SlotOk(a, free, lo, i, HeightOf(t.items));
    }
  }

  lemma LessIrreflexive()
    ensures forall e: Entry :: !Less(e, e)
  {
  }

  // ---- Every bucket hangs somewhere ----

  ghost predicate AttachedIn(store: map<Loc, Bucket>, x: Loc)
    requires x in store
  {
    store[x].parent in store && IsChildOf(store[store[x].parent], x)
  }

  /** The bucket hangs left of one of the keys. */
  ghost predicate Hung(p: Part, parent: Loc, x: Loc)
    requires x in p.store
  {
    p.store[x].parent == parent && exists i | 0 <= i < |p.keys| :: p.keys[i].child == x
  }

  /** All buckets hang below others of the part, or from its keys; none is higher than it says. */
  ghost predicate Hangs(p: Part, parent: Loc, h: nat) {
    && (forall x | x in p.store :: AttachedIn(p.store, x) || Hung(p, parent, x))
    && (forall x | x in p.shape :: p.shape[x].height <= h)
  }

  /** All buckets but the top one hang below others. */
  ghost predicate HangsFrom(p: Part, top: Loc, h: nat) {
    && (forall x | x in p.store && x != top :: AttachedIn(p.store, x))
    && (forall x | x in p.shape :: p.shape[x].height <= h)
  }

  lemma {:induction false} NodeHangs(t: B.Node, parent: Loc, free: Loc, lo: Option<Entry>, hi: Option<Entry>)
    requires free > NULL
    ensures HangsFrom(Plant(t, parent, free, lo, hi), free, Height(t))
    decreases t, 0
  {
    hide Bytes, Plant, PlantItems, Ranged, HangsFrom, Hangs, AttachedIn, IsChildOf, LastOf;
    if t.Nil? {
      NothingHangs(parent, free, lo, hi);
    } else {
      NodeIs(t, parent, free, lo, hi);
      ItemsHang(t.items, free, free + 1, lo);
      ItemsRanged(t.items, free, free + 1, lo);
      var a := PlantItems(t.items, free, free + 1, lo);
      RangedFree(a, free + 1);
      NodeHangs(t.next, free, a.free, LastOf(t.items, lo), hi);
      PlantRanged(t.next, free, a.free, LastOf(t.items, lo), hi);
      var b := Plant(t.next, free, a.free, LastOf(t.items, lo), hi);
      RangedFree(b, a.free);
      RangedApart(a, b, free + 1);
      RootHangs(a, b, Plant(t, parent, free, lo, hi), free, HeightOf(t.items), Height(t.next), Height(t));
    }
  }

  lemma NothingHangs(parent: Loc, free: Loc, lo: Option<Entry>, hi: Option<Entry>)
    ensures HangsFrom(Plant(B.Nil, parent, free, lo, hi), free, Height(B.Nil))
  {
  }

  lemma RootHangs(a: Part, b: Part, r: Part, free: Loc, ha: nat, hb: nat, h: nat)
    requires Hangs(a, free, ha) && HangsFrom(b, a.free, hb) && ha < h && hb < h && a.store.Keys !! b.store.Keys
    requires free in r.store && r.store == (a.store + b.store)[free := r.store[free]] && free !in a.store
             && free !in b.store
    requires free in r.shape && r.shape == (a.shape + b.shape)[free := r.shape[free]] && r.shape[free].height <= h
    requires r.store[free].keys == a.keys && r.store[free].next == b.loc
    requires a.free in b.store ==> b.loc == a.free && b.store[a.free].parent == free
    ensures HangsFrom(r, free, h)
  {
    hide IsChildOf;
    forall x | x in r.store && x != free
      ensures AttachedIn(r.store, x)
    {
      if x in b.store {
        if x == a.free {
          LastChildOf(r.store[free]);
        }
      } else if Hung(a, free, x) {
        var i :| 0 <= i < |a.keys| && a.keys[i].child == x;
        ChildOfAt(r.store[free], i);
      }
    }
  }

  lemma ChildOfAt(b: Bucket, i: nat)
    requires i < |b.keys|
    ensures IsChildOf(b, b.keys[i].child)
  {
    assert Child(b, i) == b.keys[i].child;
  }

  lemma LastChildOf(b: Bucket)
    ensures IsChildOf(b, b.next)
  {
    assert Child(b, |b.keys|) == b.next;
  }

  lemma {:induction false} ItemsHang(items: B.Items, parent: Loc, free: Loc, lo: Option<Entry>)
    requires free > NULL
    ensures Hangs(PlantItems(items, parent, free, lo), parent, HeightOf(items))
    decreases items, 1
  {
    hide Bytes, Plant, PlantItems, Ranged, HangsFrom, Hangs, AttachedIn, IsChildOf, LastOf, HeightOf, Height;
    if items.Empty? {
      NoItemsHang(parent, free, lo);
    } else {
      SnocPlanted(items, parent, free, lo);
      SnocHeight(items);
      ItemsHang(items.init, parent, free, lo);
      ItemsRanged(items.init, parent, free, lo);
      var a := PlantItems(items.init, parent, free, lo);
      RangedFree(a, free);
      var x := items.last;
      NodeHangs(x.child, parent, a.free, LastOf(items.init, lo), Some(EntryOfItem(x)));
      PlantRanged(x.child, parent, a.free, LastOf(items.init, lo), Some(EntryOfItem(x)));
      var b := Plant(x.child, parent, a.free, LastOf(items.init, lo), Some(EntryOfItem(x)));
      RangedApart(a, b, free);
      KeysHang(a, b, PlantItems(items, parent, free, lo), parent, HeightOf(items.init), Height(x.child),
        HeightOf(items), x);
    }
  }

  lemma NoItemsHang(parent: Loc, free: Loc, lo: Option<Entry>)
    ensures Hangs(PlantItems(B.Empty, parent, free, lo), parent, HeightOf(B.Empty))
  {
  }

  lemma KeysHang(a: Part, b: Part, c: Part, parent: Loc, ha: nat, hb: nat, h: nat, x: B.Item)
    requires Hangs(a, parent, ha) && HangsFrom(b, a.free, hb) && ha <= h && hb <= h && a.store.Keys !! b.store.Keys
    requires c.store == a.store + b.store && c.shape == a.shape + b.shape
    requires c.keys == a.keys + [KeyNode(b.loc, x.rec, x.key)]
    requires a.free in b.store ==> b.loc == a.free && b.store[a.free].parent == parent
    ensures Hangs(c, parent, h)
  {
    hide IsChildOf;
    forall y | y in c.store
      ensures AttachedIn(c.store, y) || Hung(c, parent, y)
    {
      if y in b.store {
        if y == a.free {
          assert c.keys[|a.keys|].child == y;
        } else {
          assert AttachedIn(b.store, y);
        }
      } else if Hung(a, parent, y) {
        var i :| 0 <= i < |a.keys| && a.keys[i].child == y;
        assert c.keys[i].child == y;
      } else {
        assert AttachedIn(a.store, y);
      }
    }
  }

  // ---- The entries ----

  ghost predicate HasIn(store: map<Loc, Bucket>, e: Entry) {
    exists x | x in store :: Holds(store[x], e)
  }

  predicate HasEntry(keys: seq<KeyNode>, e: Entry) {
    exists i | 0 <= i < |keys| :: !Unused(keys[i]) && EntryOf(keys[i]) == e
  }

  /** All record locations are those of used keys. */
  predicate EvenBelow(t: B.Node) {
    match t
    case Nil => true
    case Node(items, next) => AllEven(items) && EvenBelow(next)
  }

  predicate AllEven(items: B.Items) {
    match items
    case Empty => true
    case Snoc(init, x) => AllEven(init) && x.rec % 2 == 0 && EvenBelow(x.child)
  }

  lemma {:induction false} NodeHas(t: B.Node, parent: Loc, free: Loc, lo: Option<Entry>, hi: Option<Entry>, e: Entry)
    requires free > NULL && EvenBelow(t)
    ensures HasIn(Plant(t, parent, free, lo, hi).store, e) <==> e in B.InOrder(t)
    decreases t, 0
  {
    hide Bytes, Plant, PlantItems, Ranged, HasIn, LastOf, Holds, HasEntry;
    if t.Nil? {
      NothingHas(parent, free, lo, hi, e);
    } else {
      NodeIs(t, parent, free, lo, hi);
      ItemsHave(t.items, free, free + 1, lo, e);
      ItemsRanged(t.items, free, free + 1, lo);
      var a := PlantItems(t.items, free, free + 1, lo);
      RangedFree(a, free + 1);
      NodeHas(t.next, free, a.free, LastOf(t.items, lo), hi, e);
      PlantRanged(t.next, free, a.free, LastOf(t.items, lo), hi);
      var b := Plant(t.next, free, a.free, LastOf(t.items, lo), hi);
      RangedFree(b, a.free);
      RangedApart(a, b, free + 1);
      RootHas(a, b, Plant(t, parent, free, lo, hi), free, e);
    }
  }

  lemma NothingHas(parent: Loc, free: Loc, lo: Option<Entry>, hi: Option<Entry>, e: Entry)
    ensures !HasIn(Plant(B.Nil, parent, free, lo, hi).store, e) && B.InOrder(B.Nil) == []
  {
  }

  lemma RootHas(a: Part, b: Part, r: Part, free: Loc, e: Entry)
    requires free in r.store && r.store == (a.store + b.store)[free := r.store[free]] && free !in a.store
             && free !in b.store
    requires a.store.Keys !! b.store.Keys && r.store[free].keys == a.keys
    ensures HasIn(r.store, e) <==> HasIn(a.store, e) || HasIn(b.store, e) || HasEntry(a.keys, e)
  {
    hide Holds, HasEntry;
    HoldsIsEntry(r.store[free], e);
    assert forall x | x in a.store :: r.store[x] == a.store[x];
    assert forall x | x in b.store :: r.store[x] == b.store[x];
  }

  lemma HoldsIsEntry(b: Bucket, e: Entry)
    ensures Holds(b, e) <==> HasEntry(b.keys, e)
  {
  }

  lemma {:induction false} ItemsHave(items: B.Items, parent: Loc, free: Loc, lo: Option<Entry>, e: Entry)
    requires free > NULL && AllEven(items)
    ensures var p := PlantItems(items, parent, free, lo);
            HasIn(p.store, e) || HasEntry(p.keys, e) <==> e in B.Walk(items)
    decreases items, 1
  {
    hide Bytes, Plant, PlantItems, Ranged, HasIn, LastOf, Holds, HasEntry;
    if items.Empty? {
      NoItemsHave(parent, free, lo, e);
    } else {
      SnocPlanted(items, parent, free, lo);
      ItemsHave(items.init, parent, free, lo, e);
      ItemsRanged(items.init, parent, free, lo);
      var a := PlantItems(items.init, parent, free, lo);
      RangedFree(a, free);
      var x := items.last;
      NodeHas(x.child, parent, a.free, LastOf(items.init, lo), Some(EntryOfItem(x)), e);
      PlantRanged(x.child, parent, a.free, LastOf(items.init, lo), Some(EntryOfItem(x)));
      var b := Plant(x.child, parent, a.free, LastOf(items.init, lo), Some(EntryOfItem(x)));
      RangedApart(a, b, free);
      KeysHave(a, b, PlantItems(items, parent, free, lo), x, e);
    }
  }

  lemma NoItemsHave(parent: Loc, free: Loc, lo: Option<Entry>, e: Entry)
    ensures var p := PlantItems(B.Empty, parent, free, lo);
            !HasIn(p.store, e) && !HasEntry(p.keys, e) && B.Walk(B.Empty) == []
  {
  }

  lemma KeysHave(a: Part, b: Part, c: Part, x: B.Item, e: Entry)
    requires c.store == a.store + b.store && a.store.Keys !! b.store.Keys && x.rec % 2 == 0
    requires c.keys == a.keys + [KeyNode(b.loc, x.rec, x.key)]
    ensures HasIn(c.store, e) <==> HasIn(a.store, e) || HasIn(b.store, e)
    ensures HasEntry(c.keys, e) <==> HasEntry(a.keys, e) || e == EntryOfItem(x)
  {
    hide Holds;
    assert forall y | y in a.store :: c.store[y] == a.store[y];
    assert forall y | y in b.store :: c.store[y] == b.store[y];
    if HasEntry(a.keys, e) {
      var i :| 0 <= i < |a.keys| && !Unused(a.keys[i]) && EntryOf(a.keys[i]) == e;
      assert c.keys[i] == a.keys[i];
    }
    if e == EntryOfItem(x) {
      assert EntryOf(c.keys[|a.keys|]) == e && !Unused(c.keys[|a.keys|]);
    }
  }

  // ---- The sizes ----

  predicate KeysIn(keys: seq<KeyNode>, ks: set<Sized>) { forall i | 0 <= i < |keys| :: SizedOf(keys[i]) in ks }

  predicate StoreIn(store: map<Loc, Bucket>, ks: set<Sized>) { forall x | x in store :: KeysIn(store[x].keys, ks) }

  /** Every key laid out is one of the tree, with its size. */
  lemma {:induction false} NodeSizes(t: B.Node, parent: Loc, free: Loc, lo: Option<Entry>, hi: Option<Entry>)
    requires EvenBelow(t)
    ensures StoreIn(Plant(t, parent, free, lo, hi).store, B.KeySet(t))
    decreases t, 0
  {
    hide Plant, PlantItems, LastOf, KeysIn;
    if t.Nil? {
      NothingStored(parent, free, lo, hi);
    } else {
      NodeIs(t, parent, free, lo, hi);
      ItemsSizes(t.items, free, free + 1, lo);
      var a := PlantItems(t.items, free, free + 1, lo);
      NodeSizes(t.next, free, a.free, LastOf(t.items, lo), hi);
      var b := Plant(t.next, free, a.free, LastOf(t.items, lo), hi);
      MoreKeys(a.keys, B.ItemSet(t.items), B.KeySet(t));
      forall x | x in a.store || x in b.store
        ensures x in a.store ==> KeysIn(a.store[x].keys, B.KeySet(t))
        ensures x in b.store ==> KeysIn(b.store[x].keys, B.KeySet(t))
      {
        if x in a.store { MoreKeys(a.store[x].keys, B.ItemSet(t.items), B.KeySet(t)); }
        if x in b.store { MoreKeys(b.store[x].keys, B.KeySet(t.next), B.KeySet(t)); }
      }
    }
  }

  lemma NothingStored(parent: Loc, free: Loc, lo: Option<Entry>, hi: Option<Entry>)
    ensures Plant(B.Nil, parent, free, lo, hi).store == map[]
    ensures PlantItems(B.Empty, parent, free, lo).store == map[] && PlantItems(B.Empty, parent, free, lo).keys == []
  {
  }

  lemma MoreKeys(keys: seq<KeyNode>, a: set<Sized>, b: set<Sized>)
    requires KeysIn(keys, a) && a <= b
    ensures KeysIn(keys, b)
  {
  }

  lemma {:induction false} ItemsSizes(items: B.Items, parent: Loc, free: Loc, lo: Option<Entry>)
    requires AllEven(items)
    ensures var p := PlantItems(items, parent, free, lo);
            StoreIn(p.store, B.ItemSet(items)) && KeysIn(p.keys, B.ItemSet(items))
    decreases items, 1
  {
    hide Plant, PlantItems, LastOf, KeysIn;
    if items.Empty? {
      NothingStored(parent, free, lo, None);
      NoKeysIn(B.ItemSet(items));
    } else {
      SnocPlanted(items, parent, free, lo);
      ItemsSizes(items.init, parent, free, lo);
      var a, x := PlantItems(items.init, parent, free, lo), items.last;
      NodeSizes(x.child, parent, a.free, LastOf(items.init, lo), Some(EntryOfItem(x)));
      var b := Plant(x.child, parent, a.free, LastOf(items.init, lo), Some(EntryOfItem(x)));
      forall y | y in a.store || y in b.store
        ensures y in a.store ==> KeysIn(a.store[y].keys, B.ItemSet(items))
        ensures y in b.store ==> KeysIn(b.store[y].keys, B.ItemSet(items))
      {
        if y in a.store { MoreKeys(a.store[y].keys, B.ItemSet(items.init), B.ItemSet(items)); }
        if y in b.store { MoreKeys(b.store[y].keys, B.KeySet(x.child), B.ItemSet(items)); }
      }
      MoreKeys(a.keys, B.ItemSet(items.init), B.ItemSet(items));
      OneKeyIn(a.keys, KeyNode(b.loc, x.rec, x.key), B.ItemSet(items));
    }
  }

  lemma NoKeysIn(ks: set<Sized>)
    ensures KeysIn([], ks)
  {
  }

  lemma OneKeyIn(keys: seq<KeyNode>, k: KeyNode, ks: set<Sized>)
    requires KeysIn(keys, ks) && SizedOf(k) in ks
    ensures KeysIn(keys + [k], ks)
  {
  }

  // ---- From a sorted run ----

  lemma IncreasingSplit(a: seq<Entry>, b: seq<Entry>)
    requires Increasing(a + b)
    ensures Increasing(a) && Increasing(b) && forall x, y | x in a && y in b :: Less(x, y)
  {
    var c := a + b;
    assert forall i | 0 <= i < |a| :: c[i] == a[i];
    assert forall i | 0 <= i < |b| :: c[|a|+i] == b[i];
    forall x, y | x in a && y in b
      ensures Less(x, y)
    {
      var i :| 0 <= i < |a| && a[i] == x;
      var j :| 0 <= j < |b| && b[j] == y;
      assert c[i] == x && c[|a|+j] == y;
    }
  }

  predicate AllUsed(es: seq<Entry>) { forall e | e in es :: e.rec % 2 == 0 }

  lemma {:induction false} NodeBounds(t: B.Node, lo: Option<Entry>, hi: Option<Entry>)
    requires Increasing(B.InOrder(t)) && Between(B.InOrder(t), lo, hi) && AllUsed(B.InOrder(t))
    ensures InBounds(t, lo, hi) && EvenBelow(t)
    decreases t, 0
  {
    hide Increasing;
    if t.Node? {
      var w, n := B.Walk(t.items), B.InOrder(t.next);
      IncreasingSplit(w, n);
      ItemsBounds(t.items, lo, hi);
      LastInWalk(t.items);
      NodeBounds(t.next, LastOf(t.items, lo), hi);
    }
  }

  lemma {:induction false} ItemsBounds(items: B.Items, lo: Option<Entry>, hi: Option<Entry>)
    requires Increasing(B.Walk(items)) && Between(B.Walk(items), lo, hi) && AllUsed(B.Walk(items))
    ensures ItemsIn(items, lo, hi) && AllEven(items)
    decreases items, 1
  {
    hide Increasing;
    if items.Snoc? {
      var x := items.last;
      var w, c, e := B.Walk(items.init), B.InOrder(x.child), EntryOfItem(x);
      IncreasingSplit(w + c, [e]);
      IncreasingSplit(w, c);
      ItemsBounds(items.init, lo, hi);
      LastInWalk(items.init);
      NodeBounds(x.child, LastOf(items.init, lo), Some(e));
    }
  }

  lemma LastInWalk(items: B.Items)
    ensures items.Snoc? ==> EntryOfItem(items.last) in B.Walk(items)
  {
  }

  /** A tree as the builder leaves it: an empty bucket, or sound buckets. */
  predicate Built(root: B.Node) { root == B.Node(B.Empty, B.Nil) || B.Open(root, KEY_MAX) }

  function PlantedState(root: B.Node): State {
    var p := Plant(root, NULL, 0, None, None);
    State(p.store, p.loc, p.free)
  }

  function PlantedShape(root: B.Node): Shape { Plant(root, NULL, 0, None, None).shape }

  /** What the builder makes of a strictly sorted run is a well-formed tree, with the run as its in-order walk. */
  lemma BuiltIsTree(root: B.Node)
    requires Built(root) && Increasing(B.InOrder(root)) && AllUsed(B.InOrder(root))
    ensures Tree(PlantedState(root), PlantedShape(root)) && Filled(PlantedState(root))
    ensures PlantedState(root).head in PlantedState(root).store
    ensures InOrder(PlantedState(root), PlantedShape(root), PlantedState(root).head) == B.InOrder(root)
    ensures forall f | Carried(PlantedState(root), f) :: f in B.KeySet(root)
  {
    hide Inv, Plant, Increasing, InOrder, B.InOrder, Has, AllUsed, B.KeySet, EvenBelow, Between;
    var s, g := PlantedState(root), PlantedShape(root);
    NoBounds(B.InOrder(root));
    NodeBounds(root, None, None);
    NodeSizes(root, NULL, 0, None, None);
    if root == B.Node(B.Empty, B.Nil) {
      EmptyPlanted();
    } else {
      SoundPlanted(root);
    }
    HeadBounds(s, g);
    InOrderIsSorted(s, g);
    SortedUnique(InOrder(s, g, s.head), B.InOrder(root), s);
  }

  lemma NoBounds(es: seq<Entry>)
    ensures Between(es, None, None)
  {
  }

  lemma SortedUnique(a: seq<Entry>, b: seq<Entry>, s: State)
    requires Increasing(a) && Increasing(b) && (forall e :: e in a <==> Has(s, e)) && forall e :: e in b <==> Has(s, e)
    ensures a == b
  {
    hide Has;
    OrderedUnique(1, a, b);
  }

  lemma EmptyPlanted()
    ensures var root := B.Node(B.Empty, B.Nil);
            var s, g := PlantedState(root), PlantedShape(root);
            Tree(s, g) && Filled(s) && forall e :: e in B.InOrder(root) <==> Has(s, e)
  {
    var root := B.Node(B.Empty, B.Nil);
    EmptyPart();
    var s, g := PlantedState(root), PlantedShape(root);
    assert s == State(map[0 := Bucket(NULL, NULL, [], BODY, true)], 0, 1) && g == map[0 := Info(1, None, None)];
    assert ChildOk(s, g, 0, 0);
    assert ChildrenOk(s, g, 0);
    NoBytes();
    assert LocalOk(s.store[0], g[0]);
  }

  lemma EmptyPart()
    ensures Plant(B.Node(B.Empty, B.Nil), NULL, 0, None, None) ==
            Part(map[0 := Bucket(NULL, NULL, [], BODY, true)], map[0 := Info(1, None, None)], 0, [], 1)
    ensures B.InOrder(B.Node(B.Empty, B.Nil)) == []
  {
    var root := B.Node(B.Empty, B.Nil);
    assert PlantItems(B.Empty, 0, 1, None) == Part(map[], map[], NULL, [], 1);
    assert Plant(B.Nil, 0, 1, None, None) == Part(map[], map[], NULL, [], 1);
    assert Height(B.Nil) == 0 && HeightOf(B.Empty) == 0 && Height(root) == 1;
    NoBytes();
    NodeIs(root, NULL, 0, None, None);
    assert B.Walk(B.Empty) == [] && B.InOrder(B.Nil) == [];
  }

  lemma SoundPlanted(root: B.Node)
    requires B.Open(root, KEY_MAX) && Increasing(B.InOrder(root)) && AllUsed(B.InOrder(root))
    ensures var s, g := PlantedState(root), PlantedShape(root);
            Tree(s, g) && Filled(s) && forall e :: e in B.InOrder(root) <==> Has(s, e)
  {
    hide Plant, Increasing, B.InOrder, B.Sound, InBounds, PartOk, EvenBelow, Ranged, HangsFrom, Links, LocalOk;
    var p := Plant(root, NULL, 0, None, None);
    NodeBounds(root, None, None);
    NodePlanted(root, NULL, 0, None, None);
    PlantRanged(root, NULL, 0, None, None);
    NodeHangs(root, NULL, 0, None, None);
    PlantedLinks(p, Height(root));
    RangedFree(p, 0);
    PartKeys(p);
    forall e
      ensures e in B.InOrder(root) <==> Has(PlantedState(root), e)
    {
      NodeHas(root, NULL, 0, None, None, e);
    }
  }

  lemma PlantedLinks(p: Part, h: nat)
    requires PartOk(p) && Ranged(p, 0) && HangsFrom(p, 0, h) && p.loc == 0 && 0 in p.store && 0 in p.shape
    requires p.store[0].parent == NULL && p.shape[0] == Info(h, None, None)
    ensures var s := State(p.store, p.loc, p.free);
            Links(s, p.shape, {}) && forall x | x in s.store :: LocalOk(s.store[x], p.shape[x])
  {
    hide LocalOk, ChildrenOk, IsChildOf;
    var s := State(p.store, p.loc, p.free);
    forall x | x in s.store
      ensures ChildrenOk(s, p.shape, x)
    {
      ChildrenStay(p, s, p.shape, x);
    }
    forall x | x in s.store && x != s.head
      ensures Attached(s, x)
    {
      assert AttachedIn(p.store, x);
    }
  }
}
