/**
 The shape of the tree: a store of buckets linked by child and parent locations. The
 invariant is local to each bucket; a ghost annotation gives every bucket a height and
 the open interval its entries lie in.
 */
module BtreeShape {
  import opened Basics
  import opened Bucket

  datatype State = State(store: map<Loc, Bucket>, head: Loc, unusedFrom: Loc)

  datatype Info = Info(height: nat, lo: Option<Entry>, hi: Option<Entry>)

  type Shape = map<Loc, Info>

  predicate Above(lo: Option<Entry>, e: Entry) { lo.None? || Less(lo.value, e) }

  predicate Below(e: Entry, hi: Option<Entry>) { hi.None? || Less(e, hi.value) }

  /** The interval of `inner` lies within the bounds given. */
  predicate Inside(inner: Info, lo: Option<Entry>, hi: Option<Entry>) {
    && (lo.Some? ==> inner.lo.Some? && !Less(inner.lo.value, lo.value))
    && (hi.Some? ==> inner.hi.Some? && !Less(hi.value, inner.hi.value))
  }

  function SlotLo(b: Bucket, info: Info, i: nat): Option<Entry>
    requires i <= |b.keys|
  {
    if i == 0 then info.lo else Some(EntryOf(b.keys[i-1]))
  }

  function SlotHi(b: Bucket, info: Info, i: nat): Option<Entry>
    requires i <= |b.keys|
  {
    if i == |b.keys| then info.hi else Some(EntryOf(b.keys[i]))
  }

  predicate Sorted(keys: seq<KeyNode>) {
    forall i, j | 0 <= i < j < |keys| :: Less(EntryOf(keys[i]), EntryOf(keys[j]))
  }

  predicate Within(keys: seq<KeyNode>, info: Info) {
    forall i | 0 <= i < |keys| :: Above(info.lo, EntryOf(keys[i])) && Below(EntryOf(keys[i]), info.hi)
  }

  predicate LocalOk(b: Bucket, info: Info) {
    SpaceOk(b) && Sorted(b.keys) && Within(b.keys, info)
  }

  /** Child `i` of the bucket at `loc`: in the store, linked back, lower, and inside its slot. */
  predicate ChildOk(s: State, g: Shape, loc: Loc, i: nat)
    requires loc in s.store && loc in g && i <= |s.store[loc].keys|
  {
    var c := Child(s.store[loc], i);
    c == NULL ||
    (&& c in s.store && c in g && s.store[c].parent == loc && g[c].height < g[loc].height
     && Inside(g[c], SlotLo(s.store[loc], g[loc], i), SlotHi(s.store[loc], g[loc], i)))
  }

  predicate ChildrenOk(s: State, g: Shape, loc: Loc)
    requires loc in s.store && loc in g
  {
    && (forall i | 0 <= i <= |s.store[loc].keys| :: ChildOk(s, g, loc, i))
    && (forall i, j | 0 <= i < j <= |s.store[loc].keys| ::
          Child(s.store[loc], i) == Child(s.store[loc], j) ==> Child(s.store[loc], i) == NULL)
  }

  predicate IsChildOf(b: Bucket, c: Loc) {
    exists i | 0 <= i <= |b.keys| :: Child(b, i) == c
  }

  /** The parent location of `c` names a bucket that has it as a child. */
  predicate Attached(s: State, c: Loc)
    requires c in s.store
  {
    s.store[c].parent in s.store && IsChildOf(s.store[s.store[c].parent], c)
  }

  predicate HeadOk(s: State, g: Shape) {
    && s.head in s.store && s.head in g && s.store[s.head].parent == NULL
    && g[s.head].lo == None && g[s.head].hi == None
    && forall loc | loc in g :: g[loc].height <= g[s.head].height
  }

  /** The links are consistent, except that the subtrees at `loose` hang in the air. */
  predicate Links(s: State, g: Shape, loose: set<Loc>) {
    && g.Keys == s.store.Keys && NULL !in s.store && (forall loc | loc in s.store :: NULL < loc < s.unusedFrom)
    && s.unusedFrom > NULL
    && HeadOk(s, g) && s.head !in loose && loose <= s.store.Keys
    && (forall loc | loc in s.store :: ChildrenOk(s, g, loc))
    && (forall loc, c | loc in s.store && c in loose :: !IsChildOf(s.store[loc], c))
    && (forall c | c in s.store && c != s.head && c !in loose :: Attached(s, c))
  }

  /** A well-formed tree, except for the loose subtrees. */
  predicate Inv(s: State, g: Shape, loose: set<Loc>) {
    Links(s, g, loose) && forall loc | loc in s.store :: LocalOk(s.store[loc], g[loc])
  }

  /** The used entry `e` is stored somewhere. */
  predicate Holds(b: Bucket, e: Entry) {
    exists i | 0 <= i < |b.keys| :: !Unused(b.keys[i]) && EntryOf(b.keys[i]) == e
  }

  predicate Has(s: State, e: Entry) {
    exists loc | loc in s.store :: Holds(s.store[loc], e)
  }

  predicate HasKey(b: Bucket, e: Entry) {
    exists i | 0 <= i < |b.keys| :: EntryOf(b.keys[i]) == e
  }

  /** The entry is in the tree, used or not. */
  ghost predicate Stored(s: State, f: Entry) {
    exists x | x in s.store :: HasKey(s.store[x], f)
  }

  predicate Carries(b: Bucket, f: Sized) {
    exists i | 0 <= i < |b.keys| :: SizedOf(b.keys[i]) == f
  }

  ghost predicate Carried(s: State, f: Sized) {
    exists x | x in s.store :: Carries(s.store[x], f)
  }

  /** All keys of `s'` are in `s`, with their sizes, but perhaps for `k`. */
  ghost predicate KeysFrom(s: State, s': State, k: Option<Sized>) {
    forall f | Carried(s', f) :: Carried(s, f) || k == Some(f)
  }

  lemma KeysFromTransitive(s: State, s1: State, s2: State, k: Option<Sized>, k': Option<Sized>)
    requires KeysFrom(s, s1, k) && KeysFrom(s1, s2, k')
    ensures k == None || Carried(s, k.value) || k == k' ==> KeysFrom(s, s2, k')
    ensures k' == None || Carried(s1, k'.value) ==> KeysFrom(s, s2, k)
  {
    hide Carried;
  }

  /** Buckets whose keys were all there already bring nothing new. */
  lemma NothingNew(s: State, s': State)
    requires forall x, f | x in s'.store && Carries(s'.store[x], f) :: Carried(s, f)
    ensures KeysFrom(s, s', None)
  {
    hide Carries;
  }

  /** So no entry is new either. */
  lemma EntriesFrom(s: State, s': State, k: Option<Sized>)
    requires KeysFrom(s, s', k)
    ensures forall f | Stored(s', f) :: Stored(s, f) || (k.Some? && k.value.entry == f)
  {
    forall f | Stored(s', f)
      ensures Stored(s, f) || (k.Some? && k.value.entry == f)
    {
      var x :| x in s'.store && HasKey(s'.store[x], f);
      var i :| 0 <= i < |s'.store[x].keys| && EntryOf(s'.store[x].keys[i]) == f;
      var item := SizedOf(s'.store[x].keys[i]);
      assert Carries(s'.store[x], item);
      assert Carried(s', item);
      if Carried(s, item) {
        var y :| y in s.store && Carries(s.store[y], item);
        assert HasKey(s.store[y], f);
      }
    }
  }

  // ---- Putting a key with its right subtree into a bucket ----

  /** The bucket with a key put in at `pos`: `l` stays to its left, `r` comes to its right. */
  function Inserted(b: Bucket, pos: nat, rec: int, key: Key, l: Loc, r: Loc): Bucket
    requires pos <= |b.keys|
  {
    var k := KeyNode(l, rec, key);
    if pos == |b.keys| then b.(keys := b.keys + [k], next := r, empty := b.empty - Cost(k))
    else b.(keys := b.keys[..pos] + [k, b.keys[pos].(child := r)] + b.keys[pos+1..], empty := b.empty - Cost(k))
  }

  function SetParent(store: map<Loc, Bucket>, c: Loc, p: Loc): map<Loc, Bucket> {
    if c in store then store[c := store[c].(parent := p)] else store
  }

  function InsertedState(s: State, loc: Loc, pos: nat, rec: int, key: Key, l: Loc, r: Loc): State
    requires loc in s.store && pos <= |s.store[loc].keys|
  {
    s.(store := SetParent(s.store[loc := Inserted(s.store[loc], pos, rec, key, l, r)], r, loc))
  }

  /** `e` goes between the keys of the bucket before and from `pos` on, and inside its interval. */
  predicate Gap(b: Bucket, info: Info, pos: nat, e: Entry) {
    && pos <= |b.keys|
    && Above(SlotLo(b, info, pos), e) && Below(e, SlotHi(b, info, pos))
    && Above(info.lo, e) && Below(e, info.hi)
  }

  /** What must hold to insert at `pos`: `l` is the child there, `r` hangs loose or is null. */
  predicate Insertable(s: State, g: Shape, loose: set<Loc>, loc: Loc, pos: nat, e: Entry, l: Loc, r: Loc) {
    && Inv(s, g, loose) && loc in s.store && (forall d | d in loose :: g[d].height < g[loc].height)
    && Gap(s.store[loc], g[loc], pos, e) && Child(s.store[loc], pos) == l
    && (l != NULL ==> l in g && g[l].hi.Some? && !Less(e, g[l].hi.value))
    && (r != NULL ==> && r in loose && r in g
                      && Inside(g[r], Some(e), SlotHi(s.store[loc], g[loc], pos)))
  }

  lemma LessTransitive(a: Entry, b: Entry, c: Entry)
    ensures Less(a, b) && Less(b, c) ==> Less(a, c)
    ensures Less(a, b) && !Less(c, b) ==> Less(a, c)
    ensures !Less(b, a) && Less(b, c) ==> Less(a, c)
    ensures Less(a, b) ==> !Less(b, a)
    ensures !Less(a, a)
  {
  }

  /** The keys and children of a bucket after an insertion, by index. */
  lemma InsertedAt(b: Bucket, pos: nat, rec: int, key: Key, l: Loc, r: Loc, i: nat)
    requires pos <= |b.keys| && Child(b, pos) == l && i <= |b.keys| + 1
    ensures var b' := Inserted(b, pos, rec, key, l, r);
            && |b'.keys| == |b.keys| + 1
            && Child(b', i) == (if i <= pos then Child(b, i) else if i == pos + 1 then r else Child(b, i - 1))
            && (i <= |b.keys| ==>
                 EntryOf(b'.keys[i]) ==
                     (if i < pos then EntryOf(b.keys[i]) else if i == pos then Entry(key.ord, Mask(rec))
                       else EntryOf(b.keys[i-1])))
            && (i <= |b.keys| ==>
                 b'.keys[i].rec == (if i < pos then b.keys[i].rec else if i == pos then rec else b.keys[i-1].rec))
            && (i <= |b.keys| ==>
                 b'.keys[i].key == (if i < pos then b.keys[i].key else if i == pos then key else b.keys[i-1].key))
  {
  }

  lemma InsertedBytes(b: Bucket, pos: nat, rec: int, key: Key, l: Loc, r: Loc)
    requires pos <= |b.keys|
    ensures Bytes(Inserted(b, pos, rec, key, l, r).keys) == Bytes(b.keys) + key.size + KEY_NODE
  {
    var k := KeyNode(l, rec, key);
    if pos == |b.keys| {
      BytesPush(b.keys, k);
    } else {
      var x := b.keys[pos].(child := r);
      var head, tail := b.keys[..pos], b.keys[pos+1..];
      BytesSplit(b.keys, pos);
      assert head + [k, x] == (head + [k]) + [x];
      BytesPush(head, k);
      BytesPush(head + [k], x);
      BytesConcat(head + [k, x], tail);
    }
  }

  lemma InsertedSpace(b: Bucket, pos: nat, rec: int, key: Key, l: Loc, r: Loc)
    requires pos <= |b.keys| && Child(b, pos) == l
    requires SpaceOk(b) && 1 <= key.size <= KEY_MAX && key.size + KEY_NODE <= b.empty
    ensures SpaceOk(Inserted(b, pos, rec, key, l, r))
  {
    hide Bytes, Inserted;
    InsertedBytes(b, pos, rec, key, l, r);
    var b' := Inserted(b, pos, rec, key, l, r);
    InsertedRest(b, pos, rec, key, l, r);
    forall i | 0 <= i < |b'.keys|
      ensures 1 <= b'.keys[i].key.size <= KEY_MAX
    {
      InsertedAt(b, pos, rec, key, l, r, i);
    }
  }

  lemma InsertedRest(b: Bucket, pos: nat, rec: int, key: Key, l: Loc, r: Loc)
    requires pos <= |b.keys|
    ensures var b' := Inserted(b, pos, rec, key, l, r);
            && b'.empty == b.empty - key.size - KEY_NODE && b'.packed == b.packed && b'.parent == b.parent
            && |b'.keys| == |b.keys| + 1
  {
  }

  lemma {:induction false} InsertedLocal(b: Bucket, info: Info, pos: nat, rec: int, key: Key, l: Loc, r: Loc)
    requires LocalOk(b, info) && Gap(b, info, pos, Entry(key.ord, Mask(rec))) && Child(b, pos) == l
    requires 1 <= key.size <= KEY_MAX && key.size + KEY_NODE <= b.empty
    ensures LocalOk(Inserted(b, pos, rec, key, l, r), info)
  {
    hide Bytes, Inserted, SpaceOk;
    var b' := Inserted(b, pos, rec, key, l, r);
    InsertedSpace(b, pos, rec, key, l, r);
    InsertedRest(b, pos, rec, key, l, r);
    forall i | 0 <= i < |b'.keys|
      ensures Above(info.lo, EntryOf(b'.keys[i])) && Below(EntryOf(b'.keys[i]), info.hi)
    {
      InsertedAt(b, pos, rec, key, l, r, i);
    }
    forall i, j | 0 <= i < j < |b'.keys|
      ensures Less(EntryOf(b'.keys[i]), EntryOf(b'.keys[j]))
    {
      InsertedAt(b, pos, rec, key, l, r, i);
      InsertedAt(b, pos, rec, key, l, r, j);
    }
  }

  lemma InsertedChildren(b: Bucket, pos: nat, rec: int, key: Key, l: Loc, r: Loc, c: Loc)
    requires pos <= |b.keys| && Child(b, pos) == l
    ensures IsChildOf(Inserted(b, pos, rec, key, l, r), c) <==> IsChildOf(b, c) || c == r
  {
    hide Inserted;
    var b' := Inserted(b, pos, rec, key, l, r);
    InsertedRest(b, pos, rec, key, l, r);
    if IsChildOf(b', c) {
      var i :| 0 <= i <= |b'.keys| && Child(b', i) == c;
      InsertedAt(b, pos, rec, key, l, r, i);
    }
    if IsChildOf(b, c) {
      var i :| 0 <= i <= |b.keys| && Child(b, i) == c;
      InsertedAt(b, pos, rec, key, l, r, if i <= pos then i else i + 1);
    }
    InsertedAt(b, pos, rec, key, l, r, pos + 1);
  }

  lemma InsertedHolds(b: Bucket, pos: nat, rec: int, key: Key, l: Loc, r: Loc, e: Entry)
    requires pos <= |b.keys| && Child(b, pos) == l
    ensures Holds(Inserted(b, pos, rec, key, l, r), e) <==> Holds(b, e) || (rec % 2 == 0 && e == Entry(key.ord, rec))
  {
    hide Inserted;
    var b' := Inserted(b, pos, rec, key, l, r);
    InsertedRest(b, pos, rec, key, l, r);
    if Holds(b', e) {
      var i :| 0 <= i < |b'.keys| && !Unused(b'.keys[i]) && EntryOf(b'.keys[i]) == e;
      InsertedAt(b, pos, rec, key, l, r, i);
    }
    if Holds(b, e) {
      var i :| 0 <= i < |b.keys| && !Unused(b.keys[i]) && EntryOf(b.keys[i]) == e;
      InsertedAt(b, pos, rec, key, l, r, if i < pos then i else i + 1);
    }
    InsertedAt(b, pos, rec, key, l, r, pos);
  }

  /** A bucket other than the one changed keeps its children, as long as none of them was relinked. */
  lemma OtherChildren(s: State, s': State, g: Shape, g': Shape, x: Loc)
    requires x in s.store && x in g && x in s'.store && x in g' && ChildrenOk(s, g, x) && g[x] == g'[x]
    requires s'.store[x].keys == s.store[x].keys && s'.store[x].next == s.store[x].next
    requires forall c | c in s.store && c in g && IsChildOf(s.store[x], c) ::
               c in s'.store && c in g' && s'.store[c].parent == s.store[c].parent
               && g'[c].height == g[c].height && Inside(g'[c], g[c].lo, g[c].hi)
    ensures ChildrenOk(s', g', x)
  {
    forall i | 0 <= i <= |s'.store[x].keys|
      ensures ChildOk(s', g', x, i)
    {
      assert ChildOk(s, g, x, i);
      assert Child(s'.store[x], i) == Child(s.store[x], i);
      assert IsChildOf(s.store[x], Child(s.store[x], i));
    }
    assert forall i | 0 <= i <= |s'.store[x].keys| :: Child(s'.store[x], i) == Child(s.store[x], i);
  }

  lemma InsertedSlots(b: Bucket, info: Info, pos: nat, rec: int, key: Key, l: Loc, r: Loc, i: nat)
    requires pos <= |b.keys| && Child(b, pos) == l && i <= |b.keys| + 1
    ensures var b' := Inserted(b, pos, rec, key, l, r);
            var e := Entry(key.ord, Mask(rec));
            && |b'.keys| == |b.keys| + 1
            && SlotLo(b', info, i) ==
                 (if i <= pos then SlotLo(b, info, i) else if i == pos + 1 then Some(e) else SlotLo(b, info, i - 1))
            && SlotHi(b', info, i) ==
                 (if i < pos then SlotHi(b, info, i) else if i == pos then Some(e) else SlotHi(b, info, i - 1))
  {
    hide Inserted;
    InsertedRest(b, pos, rec, key, l, r);
    InsertedAt(b, pos, rec, key, l, r, i);
    if i > 0 {
      InsertedAt(b, pos, rec, key, l, r, i - 1);
    }
  }

  lemma InsertChildrenOk(s: State, g: Shape, loose: set<Loc>, loc: Loc, pos: nat, rec: int, key: Key, l: Loc, r: Loc)
    requires Insertable(s, g, loose, loc, pos, Entry(key.ord, Mask(rec)), l, r)
    ensures ChildrenOk(InsertedState(s, loc, pos, rec, key, l, r), g, loc)
  {
    hide Inserted, LocalOk, Attached, HeadOk;
    var b := s.store[loc];
    var b' := Inserted(b, pos, rec, key, l, r);
    var s' := InsertedState(s, loc, pos, rec, key, l, r);
    InsertedRest(b, pos, rec, key, l, r);
    assert s'.store[loc] == b' by { assert r != loc; }
    assert ChildrenOk(s, g, loc);
    forall i | 0 <= i <= |b'.keys|
      ensures ChildOk(s', g, loc, i)
    {
      InsertedAt(b, pos, rec, key, l, r, i);
      InsertedSlots(b, g[loc], pos, rec, key, l, r, i);
      if i != pos + 1 {
        var o := if i <= pos then i else i - 1;
        assert ChildOk(s, g, loc, o);
        assert IsChildOf(b, Child(b, o));
      }
    }
    forall i, j | 0 <= i < j <= |b'.keys|
      ensures Child(b', i) == Child(b', j) ==> Child(b', i) == NULL
    {
      InsertedAt(b, pos, rec, key, l, r, i);
      InsertedAt(b, pos, rec, key, l, r, j);
      assert i != pos + 1 ==> IsChildOf(b, Child(b, if i <= pos then i else i - 1));
      assert j != pos + 1 ==> IsChildOf(b, Child(b, if j <= pos then j else j - 1));
    }
  }

  /** What an insertion leaves alone. */
  lemma InsertFrame(s: State, loc: Loc, pos: nat, rec: int, key: Key, l: Loc, r: Loc)
    requires loc in s.store && pos <= |s.store[loc].keys| && r != loc
    ensures var s' := InsertedState(s, loc, pos, rec, key, l, r);
            && s'.store.Keys == s.store.Keys && s'.head == s.head && s'.unusedFrom == s.unusedFrom
            && s'.store[loc] == Inserted(s.store[loc], pos, rec, key, l, r)
            && (r in s.store ==> s'.store[r] == s.store[r].(parent := loc))
            && forall x | x in s.store && x != loc && x != r :: s'.store[x] == s.store[x]
  {
    hide Inserted;
  }

  lemma InsertLocals(s: State, g: Shape, loose: set<Loc>, loc: Loc, pos: nat, rec: int, key: Key, l: Loc, r: Loc)
    requires Insertable(s, g, loose, loc, pos, Entry(key.ord, Mask(rec)), l, r)
    requires 1 <= key.size <= KEY_MAX && key.size + KEY_NODE <= s.store[loc].empty
    ensures var s' := InsertedState(s, loc, pos, rec, key, l, r);
            forall x | x in s'.store :: x in g && LocalOk(s'.store[x], g[x]) && ChildrenOk(s', g, x)
  {
    hide Inserted, LocalOk, ChildrenOk, Inside, Above, Below, SlotHi, SlotLo, InsertedState, IsChildOf, Attached,
         HeadOk;
    var s' := InsertedState(s, loc, pos, rec, key, l, r);
    InsertFrame(s, loc, pos, rec, key, l, r);
    InsertedRest(s.store[loc], pos, rec, key, l, r);
    forall x | x in s'.store
      ensures x in g && LocalOk(s'.store[x], g[x]) && ChildrenOk(s', g, x)
    {
      if x == loc {
        InsertedLocal(s.store[loc], g[loc], pos, rec, key, l, r);
        InsertChildrenOk(s, g, loose, loc, pos, rec, key, l, r);
      } else {
        SameLocal(s.store[x], s'.store[x], g[x]);
        OtherStays(s, s', g, loc, r, x);
      }
    }
  }

  lemma InsertLinks(s: State, g: Shape, loose: set<Loc>, loc: Loc, pos: nat, rec: int, key: Key, l: Loc, r: Loc)
    requires Insertable(s, g, loose, loc, pos, Entry(key.ord, Mask(rec)), l, r)
    ensures var s' := InsertedState(s, loc, pos, rec, key, l, r);
            && (forall x, c | x in s'.store && c in loose - {r} :: !IsChildOf(s'.store[x], c))
            && (forall c | c in s'.store && c != s'.head && c !in loose - {r} :: Attached(s', c))
  {
    hide Inserted, LocalOk, ChildrenOk, Inside, Above, Below, SlotHi, SlotLo, InsertedState, IsChildOf, HeadOk;
    var b := s.store[loc];
    var s' := InsertedState(s, loc, pos, rec, key, l, r);
    InsertFrame(s, loc, pos, rec, key, l, r);
    forall x, c | x in s'.store && c in loose - {r}
      ensures !IsChildOf(s'.store[x], c)
    {
      InsertedChildren(b, pos, rec, key, l, r, c);
      SameIsChildOf(s.store[x], s'.store[x], c);
    }
    forall c | c in s'.store && c != s'.head && c !in loose - {r}
      ensures Attached(s', c)
    {
      InsertedChildren(b, pos, rec, key, l, r, c);
      if c == loc {
        InsertedRest(b, pos, rec, key, l, r);
      }
      if c != r {
        assert Attached(s, c);
        var p := s.store[c].parent;
        SameIsChildOf(s.store[p], s'.store[p], c);
      }
    }
  }

  /** Putting a key with a loose right subtree into a bucket that has room keeps the tree well formed. */
  lemma InsertKeeps(s: State, g: Shape, loose: set<Loc>, loc: Loc, pos: nat, rec: int, key: Key, l: Loc, r: Loc)
    requires Insertable(s, g, loose, loc, pos, Entry(key.ord, Mask(rec)), l, r)
    requires 1 <= key.size <= KEY_MAX && key.size + KEY_NODE <= s.store[loc].empty
    ensures Inv(InsertedState(s, loc, pos, rec, key, l, r), g, loose - {r})
  {
    hide Inserted, LocalOk, ChildrenOk, Inside, Above, Below, SlotHi, SlotLo, InsertedState, IsChildOf, Attached;
    InsertFrame(s, loc, pos, rec, key, l, r);
    InsertedRest(s.store[loc], pos, rec, key, l, r);
    InsertLocals(s, g, loose, loc, pos, rec, key, l, r);
    InsertLinks(s, g, loose, loc, pos, rec, key, l, r);
  }

  lemma SameLocal(b: Bucket, b': Bucket, info: Info)
    requires LocalOk(b, info) && b'.keys == b.keys && b'.empty == b.empty && b'.packed == b.packed
    ensures LocalOk(b', info)
  {
  }

  lemma SameIsChildOf(b: Bucket, b': Bucket, c: Loc)
    ensures b.keys == b'.keys && b.next == b'.next ==> (IsChildOf(b, c) <==> IsChildOf(b', c))
  {
    if b.keys == b'.keys && b.next == b'.next {
      assert forall i | 0 <= i <= |b.keys| :: Child(b, i) == Child(b', i);
    }
  }

  /** When only the bucket at `loc` and the parent of a loose `r` change, other buckets keep their children. */
  lemma OtherStays(s: State, s': State, g: Shape, loc: Loc, r: Loc, x: Loc)
    requires x in s.store && x in g && ChildrenOk(s, g, x) && x in s'.store
    requires s'.store.Keys == s.store.Keys
    requires s'.store[x].keys == s.store[x].keys && s'.store[x].next == s.store[x].next
    requires r in s.store ==> !IsChildOf(s.store[x], r)
    requires forall c | c in s.store && c != r :: s'.store[c].parent == s.store[c].parent
    ensures ChildrenOk(s', g, x)
  {
    forall c | c in s.store && c in g && IsChildOf(s.store[x], c)
      ensures c in s'.store && s'.store[c].parent == s.store[c].parent && Inside(g[c], g[c].lo, g[c].hi)
    {
    }
    OtherChildren(s, s', g, g, x);
  }

  lemma InsertHas(s: State, loc: Loc, pos: nat, rec: int, key: Key, l: Loc, r: Loc, e: Entry)
    requires loc in s.store && pos <= |s.store[loc].keys| && Child(s.store[loc], pos) == l && r != loc
    ensures Has(InsertedState(s, loc, pos, rec, key, l, r), e) <==>
              Has(s, e) || (rec % 2 == 0 && e == Entry(key.ord, rec))
  {
    hide Inserted;
    var s' := InsertedState(s, loc, pos, rec, key, l, r);
    InsertedHolds(s.store[loc], pos, rec, key, l, r, e);
    assert s'.store[loc] == Inserted(s.store[loc], pos, rec, key, l, r);
    forall x | x in s.store && x != loc
      ensures Holds(s'.store[x], e) <==> Holds(s.store[x], e)
    {
      assert s'.store[x].keys == s.store[x].keys;
    }
    assert s'.store.Keys == s.store.Keys;
  }
}
