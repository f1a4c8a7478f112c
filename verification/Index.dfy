/** The index as a whole: a tree kept in order through insertions and removals. */
module Index {
  import opened Basics
  import opened Bucket
  import opened BtreeShape
  import opened BtreeInsert
  import opened BtreeOrder
  import opened Btree
  import opened BtreeScan
  import opened BtreeUnindex
  import opened BtreeLevel
  import opened BtreePlanted

  // ---- The ordered list an index stands for ----

  /** The list with `e` put in where it belongs. */
  function Insort(es: seq<Entry>, e: Entry): seq<Entry> {
    if es == [] || Less(e, es[0]) then [e] + es else [es[0]] + Insort(es[1..], e)
  }

  /** The list without `e`. */
  function Without(es: seq<Entry>, e: Entry): seq<Entry> {
    if es == [] then [] else (if es[0] == e then [] else [es[0]]) + Without(es[1..], e)
  }

  lemma {:induction false} InsortOrdered(es: seq<Entry>, e: Entry)
    requires Increasing(es) && e !in es
    ensures Increasing(Insort(es, e)) && forall x :: x in Insort(es, e) <==> x in es || x == e
    ensures multiset(Insort(es, e)) == multiset(es) + multiset{e}
  {
    if es == [] || Less(e, es[0]) {
      forall y | y in es
        ensures Less(e, y)
      {
        LessTransitive(e, es[0], y);
      }
      IncreasingJoin([e], es);
    } else {
      assert es == [es[0]] + es[1..];
      Total(es[0], e);
      InsortOrdered(es[1..], e);
      IncreasingJoin([es[0]], Insort(es[1..], e));
    }
  }

  lemma {:induction false} WithoutOrdered(es: seq<Entry>, e: Entry)
    requires Increasing(es)
    ensures Increasing(Without(es, e)) && forall x :: x in Without(es, e) <==> x in es && x != e
  {
    if es != [] {
      assert es == [es[0]] + es[1..];
      WithoutOrdered(es[1..], e);
      IncreasingJoin(if es[0] == e then [] else [es[0]], Without(es[1..], e));
    }
  }

  /** Putting an entry in and taking it out again leaves the list as it was. */
  lemma InsortUndone(es: seq<Entry>, e: Entry)
    requires Increasing(es) && e !in es
    ensures Without(Insort(es, e), e) == es
  {
    hide Insort, Without;
    InsortOrdered(es, e);
    WithoutOrdered(Insort(es, e), e);
    OrderedUnique(1, Without(Insort(es, e), e), es);
  }

  /** Taking an entry out and putting it in again does too. */
  lemma WithoutUndone(es: seq<Entry>, e: Entry)
    requires Increasing(es) && e in es
    ensures Insort(Without(es, e), e) == es
  {
    hide Insort, Without;
    WithoutOrdered(es, e);
    InsortOrdered(Without(es, e), e);
    OrderedUnique(1, Insort(Without(es, e), e), es);
  }

  /** Gaining an entry puts it into the in-order walk, wherever in the tree it went. */
  lemma GainsInOrder(s: State, g: Shape, s': State, g': Shape, e: Entry)
    requires Tree(s, g) && Tree(s', g') && Gains(s, s', e) && !Has(s, e)
    ensures s.head in s.store && s'.head in s'.store
    ensures InOrder(s', g', s'.head) == Insort(InOrder(s, g, s.head), e)
  {
    hide Inv, Has, InOrder, Insort;
    HeadBounds(s, g);
    HeadBounds(s', g');
    InOrderIsSorted(s, g);
    InOrderIsSorted(s', g');
    InsortOrdered(InOrder(s, g, s.head), e);
    OrderedUnique(1, InOrder(s', g', s'.head), Insort(InOrder(s, g, s.head), e));
  }

  /** Losing an entry takes just it out of the in-order walk. */
  lemma LosesInOrder(s: State, g: Shape, s': State, g': Shape, e: Entry)
    requires Tree(s, g) && Tree(s', g') && Loses(s, s', e)
    ensures s.head in s.store && s'.head in s'.store
    ensures InOrder(s', g', s'.head) == Without(InOrder(s, g, s.head), e)
  {
    hide Inv, Has, InOrder, Without;
    HeadBounds(s, g);
    HeadBounds(s', g');
    InOrderIsSorted(s, g);
    InOrderIsSorted(s', g');
    WithoutOrdered(InOrder(s, g, s.head), e);
    OrderedUnique(1, InOrder(s', g', s'.head), Without(InOrder(s, g, s.head), e));
  }

  lemma InContents(s: State, g: Shape, e: Entry)
    requires Tree(s, g)
    ensures s.head in s.store && (e in InOrder(s, g, s.head) <==> Has(s, e))
  {
    hide Inv, Has, InOrder;
    HeadBounds(s, g);
    InOrderIsSorted(s, g);
  }

  // ---- The index ----

  /** An index with nothing in it: one empty bucket. */
  function EmptyState(): State { State(map[0 := Bucket(NULL, NULL, [], BODY, true)], 0, 1) }

  ghost function EmptyShape(): Shape { map[0 := Info(0, None, None)] }

  lemma EmptyIsTree()
    ensures Tree(EmptyState(), EmptyShape()) && Filled(EmptyState()) && forall e :: !Has(EmptyState(), e)
  {
    var s, g := EmptyState(), EmptyShape();
    assert ChildOk(s, g, 0, 0);
    assert ChildrenOk(s, g, 0);
    assert LocalOk(s.store[0], g[0]);
  }

  class BtreeIndex {
    var state: State
    ghost var shape: Shape

    ghost predicate Valid()
      reads this
    {
      Tree(state, shape) && Filled(state)
    }

    /** The used entries, in order. */
    ghost function Contents(): seq<Entry>
      requires Valid()
      reads this
    {
      InContents(state, shape, Entry(0, 0));
      InOrder(state, shape, state.head)
    }

    /**
     The leaves are equally deep, and no key is marked unused: what an index that was not
     taken over from elsewhere always is.
     */
    ghost predicate Grown()
      reads this
    {
      Valid() && Level(state, shape, {}) && NoneUnused(state)
    }

    constructor ()
      ensures Valid() && Contents() == [] && Grown()
      ensures state.store == map[state.head := Bucket(NULL, NULL, [], BODY, true)]
    {
      state := EmptyState();
      shape := EmptyShape();
      new;
      EmptyIsTree();
      EmptyContents();
      EmptyGrown();
    }

    /** An index built bottom up from a run in order of key and record. */
    constructor FromRun(run: seq<(Key, int)>, dupsAllowed: bool)
      requires B.InRun(run, dupsAllowed) && B.Within(run) && Increasing(B.EntriesOf(run)) && AllUsed(B.EntriesOf(run))
      ensures Valid() && Contents() == B.EntriesOf(run)
      ensures forall f | Carried(state, f) :: f in B.KeysOf(run)
    {
      hide Inv, InOrder, B.InOrder, PlantedState, PlantedShape, Increasing, AllUsed, Filled, B.Sound, B.EntriesOf,
           B.KeysOf, B.KeySet, Carried;
      var root := B.BuildWithin(run, dupsAllowed);
      BuiltIsTree(root);
      state := PlantedState(root);
      shape := PlantedShape(root);
    }

    lemma EmptyContents()
      requires Valid() && state == EmptyState()
      ensures Contents() == []
    {
      EmptyIsTree();
      hide EmptyState, Inv, Has, InOrder;
      InContents(state, shape, Entry(0, 0));
      InOrderIsSorted(state, shape);
      NothingIn(Contents());
    }

    /** Contents are strictly increasing in key and record. */
    lemma ContentsIncreasing()
      requires Valid()
      ensures Increasing(Contents())
    {
      hide Inv, Has, InOrder;
      InContents(state, shape, Entry(0, 0));
      InOrderIsSorted(state, shape);
    }

    /** Inserts a key with its record: the contents gain just that entry, unless it was there or is too large. */
    method Insert(rec: int, key: Key) returns (out: Outcome)
      requires Valid() && rec % 2 == 0 && 1 <= key.size
      modifies this
      ensures Valid()
      ensures out == KeyTooLarge <==> key.size > KEY_MAX
      ensures out == AlreadyInIndex <==> key.size <= KEY_MAX && Entry(key.ord, rec) in old(Contents())
      ensures Contents() == if out == KeyTooLarge
              || out == AlreadyInIndex then old(Contents()) else Insort(old(Contents()), Entry(key.ord, rec))
      ensures KeysFrom(old(state), state, Some(SizedFor(rec, key)))
      ensures old(Grown()) ==> Grown()
    {
      hide Inv, Has, InOrder, Gains, Insort, Filled, Level, Stored, Carried;
      ghost var s, g := state, shape;
      InContents(s, g, Entry(key.ord, rec));
      ghost var g';
      out, state, g' := BtInsert(state, rec, key, shape);
      if out == KeyTooLarge || out == AlreadyInIndex {
        return;
      }
      shape := g';
      GainsInOrder(s, g, state, shape, Entry(key.ord, rec));
      GainsUsed(s, state, Entry(key.ord, rec), SizedFor(rec, key));
    }

    /**
     Removes a key with its record: the contents lose just that entry. In a grown index the
     key itself is gone, and was there only if it was in the contents.
     */
    method Remove(rec: int, key: Key) returns (removed: bool)
      requires Valid()
      modifies this
      ensures Valid()
      ensures Contents() == if key.size > KEY_MAX then old(Contents())
              else Without(old(Contents()), Entry(key.ord, rec))
      ensures removed <==> key.size <= KEY_MAX && old(Stored(state, Entry(key.ord, rec)))
      ensures key.size <= KEY_MAX && Entry(key.ord, rec) in old(Contents()) ==> removed
      ensures KeysFrom(old(state), state, None)
      ensures old(Grown()) ==>
                && Grown() && (removed <==> key.size <= KEY_MAX && Entry(key.ord, rec) in old(Contents()))
                && (removed ==> !Stored(state, Entry(key.ord, rec)))
    {
      hide Inv, Has, InOrder, Loses, Without, Filled, Stored, Level, Carried;
      ghost var s, g, e := state, shape, Entry(key.ord, rec);
      InContents(s, g, e);
      if Has(s, e) {
        HasIsStored(s, e);
      }
      ghost var g';
      removed, state, g' := Unindex(state, key, rec, shape);
      if removed {
        shape := g';
        LosesInOrder(s, g, state, shape, e);
        LosesUsed(s, state, e);
      } else if key.size <= KEY_MAX {
        ContentsIncreasing();
        NothingWithout(Contents(), e);
      }
    }
  }

  /** No key is in the tree but those of used entries. */
  ghost predicate NoneUnused(s: State) {
    forall f | Stored(s, f) :: Has(s, f)
  }

  lemma GainsUsed(s: State, s': State, e: Entry, item: Sized)
    requires Gains(s, s', e) && KeysFrom(s, s', Some(item)) && item.entry == e
    ensures NoneUnused(s) ==> NoneUnused(s')
  {
    hide Has, Stored, KeysFrom;
    EntriesFrom(s, s', Some(item));
  }

  lemma LosesUsed(s: State, s': State, e: Entry)
    requires Loses(s, s', e) && KeysFrom(s, s', None)
    ensures NoneUnused(s) && !Stored(s', e) ==> NoneUnused(s')
  {
    hide Has, Stored, KeysFrom;
    EntriesFrom(s, s', None);
  }

  lemma EmptyGrown()
    ensures Level(EmptyState(), EmptyShape(), {}) && NoneUnused(EmptyState())
  {
  }

  /** Inserting an entry that was not there and removing it again leaves the index with its old contents. */
  method InsertAndRemove(ix: BtreeIndex, rec: int, key: Key)
    requires ix.Valid() && rec % 2 == 0 && 1 <= key.size <= KEY_MAX && Entry(key.ord, rec) !in ix.Contents()
    modifies ix
    ensures ix.Valid() && ix.Contents() == old(ix.Contents())
  {
    hide Insort, Without;
    ix.ContentsIncreasing();
    InsortUndone(ix.Contents(), Entry(key.ord, rec));
    var _ := ix.Insert(rec, key);
    var _ := ix.Remove(rec, key);
  }

  /** Removing an entry that was there and inserting it again leaves the index with its old contents. */
  method RemoveAndInsert(ix: BtreeIndex, rec: int, key: Key)
    requires ix.Valid() && rec % 2 == 0 && 1 <= key.size <= KEY_MAX && Entry(key.ord, rec) in ix.Contents()
    modifies ix
    ensures ix.Valid() && ix.Contents() == old(ix.Contents())
  {
    hide Insort, Without;
    ix.ContentsIncreasing();
    WithoutUndone(ix.Contents(), Entry(key.ord, rec));
    WithoutOrdered(ix.Contents(), Entry(key.ord, rec));
    var _ := ix.Remove(rec, key);
    var _ := ix.Insert(rec, key);
  }

  lemma NothingIn(es: seq<Entry>)
    requires forall e :: e !in es
    ensures es == []
  {
    var first := if es == [] then Entry(0, 0) else es[0];
    assert first !in es;
  }

  lemma NothingWithout(es: seq<Entry>, e: Entry)
    requires Increasing(es) && e !in es
    ensures Without(es, e) == es
  {
    hide Without;
    WithoutOrdered(es, e);
    OrderedUnique(1, Without(es, e), es);
  }
}
