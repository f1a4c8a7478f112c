/**
 Buckets of the B-tree index: keys with their sizes, the space accounting of a bucket,
 packing, and the choice of a split point.
 */
module Bucket {
  // The sizes laid down by the bucket and key-node structures.
  const BUCKET_SIZE: int := 8192
  const HEADER_SIZE: int := 40
  const BODY: int := BUCKET_SIZE - HEADER_SIZE
  const KEY_NODE: int := 18
  const KEY_MAX: int := BUCKET_SIZE / 10
  const LOW_WATER: int := BODY / 2 - KEY_MAX - KEY_NODE + 1

  type Loc = int
  const NULL: Loc := -1

  /** A key: its place in the index order, and the number of bytes it takes. */
  datatype Key = Key(ord: int, size: int)

  /** A key in a bucket, with the child to its left. An odd record location marks it unused. */
  datatype KeyNode = KeyNode(child: Loc, rec: int, key: Key)

  predicate Unused(k: KeyNode) { k.rec % 2 == 1 }

  function Mask(rec: int): int { rec - rec % 2 }

  /** Keys and record locations together are ordered; the unused bit does not count. */
  datatype Entry = Entry(ord: int, rec: int)

  function EntryOf(k: KeyNode): Entry { Entry(k.key.ord, Mask(k.rec)) }

  /** An entry, used or not, with the number of bytes of its key. */
  datatype Sized = Sized(entry: Entry, size: int)

  function SizedOf(k: KeyNode): Sized { Sized(EntryOf(k), k.key.size) }

  function SizedFor(rec: int, key: Key): Sized { Sized(Entry(key.ord, Mask(rec)), key.size) }

  predicate Less(a: Entry, b: Entry) {
    a.ord < b.ord || (a.ord == b.ord && a.rec < b.rec)
  }

  datatype Bucket = Bucket(parent: Loc, next: Loc, keys: seq<KeyNode>, empty: int, packed: bool)

  function Child(b: Bucket, i: nat): Loc
    requires i <= |b.keys|
  {
    if i == |b.keys| then b.next else b.keys[i].child
  }

  function Cost(k: KeyNode): int { k.key.size + KEY_NODE }

  /** The space a run of keys takes when packed. */
  function Bytes(keys: seq<KeyNode>): int {
    if keys == [] then 0 else Bytes(keys[..|keys|-1]) + Cost(keys[|keys|-1])
  }

  lemma {:induction false} BytesConcat(a: seq<KeyNode>, b: seq<KeyNode>)
    ensures Bytes(a + b) == Bytes(a) + Bytes(b)
  {
    if b == [] {
      assert a + b == a;
    } else {
      assert (a + b)[..|a + b|-1] == a + b[..|b|-1];
      BytesConcat(a, b[..|b|-1]);
    }
  }

  lemma {:induction false} SameBytes(a: seq<KeyNode>, b: seq<KeyNode>)
    requires |a| == |b| && forall i | 0 <= i < |a| :: a[i].key == b[i].key
    ensures Bytes(a) == Bytes(b)
    decreases |a|
  {
    if a != [] {
      SameBytes(a[..|a|-1], b[..|b|-1]);
    }
  }

  predicate KeySizes(keys: seq<KeyNode>) {
    forall i | 0 <= i < |keys| :: 1 <= keys[i].key.size <= KEY_MAX
  }

  /** Every key takes some space. */
  predicate KeysPositive(keys: seq<KeyNode>) {
    forall i | 0 <= i < |keys| :: 1 <= keys[i].key.size
  }

  lemma {:induction false} BytesPositive(keys: seq<KeyNode>)
    requires KeysPositive(keys)
    ensures |keys| * (1 + KEY_NODE) <= Bytes(keys)
  {
    if keys != [] {
      BytesPositive(keys[..|keys|-1]);
    }
  }

  lemma {:induction false} BytesBounds(keys: seq<KeyNode>)
    requires KeySizes(keys)
    ensures |keys| * (1 + KEY_NODE) <= Bytes(keys) <= |keys| * (KEY_MAX + KEY_NODE)
  {
    if keys != [] {
      BytesBounds(keys[..|keys|-1]);
    }
  }

  /** Removing a key from the front or the back of a run. */
  lemma BytesSplit(keys: seq<KeyNode>, i: nat)
    requires i < |keys|
    ensures Bytes(keys) == Bytes(keys[..i]) + Cost(keys[i]) + Bytes(keys[i+1..])
    ensures Bytes(keys[..i+1]) == Bytes(keys[..i]) + Cost(keys[i])
    ensures Bytes(keys[i..]) == Cost(keys[i]) + Bytes(keys[i+1..])
  {
    hide Bytes;
    assert keys[..i+1] == keys[..i] + [keys[i]];
    assert keys == keys[..i+1] + keys[i+1..];
    assert keys[i..] == [keys[i]] + keys[i+1..];
    BytesPush([], keys[i]);
    NoBytes();
    assert [] + [keys[i]] == [keys[i]];
    BytesConcat(keys[..i], [keys[i]]);
    BytesConcat(keys[..i+1], keys[i+1..]);
    BytesConcat([keys[i]], keys[i+1..]);
  }

  /** The space of a bucket: what its keys take, dead bytes of deleted keys, and the empty region. */
  predicate SpaceOk(b: Bucket) {
    && KeySizes(b.keys) && 0 <= b.empty <= BODY - Bytes(b.keys)
    && (b.packed ==> b.empty == BODY - Bytes(b.keys))
  }

  // ---- Packing ----

  predicate MayDrop(keys: seq<KeyNode>, i: nat, ref: int)
    requires i < |keys|
  {
    i > 0 && i != ref && Unused(keys[i]) && keys[i].child == NULL
  }

  /** The first `k` keys without the droppable ones. */
  function Kept(keys: seq<KeyNode>, k: nat, ref: int): seq<KeyNode>
    requires k <= |keys|
  {
    if k == 0 then []
    else Kept(keys, k - 1, ref) + if MayDrop(keys, k - 1, ref) then [] else [keys[k-1]]
  }

  function PackedBucket(b: Bucket, ref: int): Bucket {
    var kept := Kept(b.keys, |b.keys|, ref);
    if b.packed then b else b.(keys := kept, empty := BODY - Bytes(kept), packed := true)
  }

  lemma BytesPush(keys: seq<KeyNode>, k: KeyNode)
    ensures Bytes(keys + [k]) == Bytes(keys) + Cost(k)
  {
    assert (keys + [k])[..|keys|] == keys;
  }

  lemma {:induction false} KeptOk(keys: seq<KeyNode>, k: nat, ref: int)
    requires KeysPositive(keys) && k <= |keys|
    ensures |Kept(keys, k, ref)| <= k && KeysPositive(Kept(keys, k, ref))
    ensures KeySizes(keys) ==> KeySizes(Kept(keys, k, ref))
    ensures Bytes(Kept(keys, k, ref)) <= Bytes(keys[..k])
  {
    hide Bytes;
    if k == 0 {
      assert keys[..0] == [];
    } else {
      KeptOk(keys, k - 1, ref);
      BytesPush(Kept(keys, k - 1, ref), keys[k-1]);
      BytesPush(keys[..k-1], keys[k-1]);
      assert keys[..k] == keys[..k-1] + [keys[k-1]];
      assert Kept(keys, k - 1, ref) + [] == Kept(keys, k - 1, ref);
    }
  }

  /** Packing keeps the first key, the tracked one, and every key that is used or has a child, each in its turn. */
  lemma {:induction false} KeptKeys(keys: seq<KeyNode>, k: nat, ref: int, i: nat)
    requires i < k <= |keys| && (i == 0 || i == ref || keys[i].rec % 2 == 0 || keys[i].child != NULL)
    ensures |Kept(keys, i, ref)| < |Kept(keys, k, ref)| && Kept(keys, k, ref)[|Kept(keys, i, ref)|] == keys[i]
    decreases k
  {
    if i + 1 < k {
      KeptKeys(keys, k - 1, ref, i);
    }
  }

  /** It keeps nothing else. */
  lemma {:induction false} KeptOnly(keys: seq<KeyNode>, k: nat, ref: int, j: nat)
    requires k <= |keys| && 0 < j < |Kept(keys, k, ref)| && !(0 <= ref < k && j == |Kept(keys, ref, ref)|)
    ensures Kept(keys, k, ref)[j].rec % 2 == 0 || Kept(keys, k, ref)[j].child != NULL
    decreases k
  {
    if j < |Kept(keys, k - 1, ref)| {
      KeptOnly(keys, k - 1, ref, j);
    }
  }

  /** Packing a bucket: droppable keys go, dead space is reclaimed, `refPos` follows its key. */
  method Pack(b: Bucket, ref: int) returns (b': Bucket, ref': int)
    requires SpaceOk(b)
    ensures b' == PackedBucket(b, ref)
    ensures ref' == if b.packed || !(0 <= ref <= |b.keys|) then ref else |Kept(b.keys, ref, ref)|
    ensures SpaceOk(b')
  {
    hide Bytes, SpaceOk, KeySizes, MayDrop, Kept;
    if b.packed {
      return b, ref;
    }
    ref' := ref;
    var kept: seq<KeyNode> := [];
    var top := 0;
    NoBytes();
    KeptNone(b.keys, ref);
    for j := 0 to |b.keys|
      invariant kept == Kept(b.keys, j, ref) && |kept| <= j
      invariant top + |kept| * KEY_NODE == Bytes(kept)
      invariant ref' == if 0 <= ref < j then |Kept(b.keys, ref, ref)| else ref
      invariant 0 <= ref < j ==> ref' < j
    {
      // a position already passed cannot be met again, so `ref` and `ref'` shield the same key
      KeptNext(b.keys, j, ref, ref');
      if MayDrop(b.keys, j, ref') {
        continue;
      }
      if |kept| != j && ref' == j {
        ref' := |kept|;
      }
      BytesPush(kept, b.keys[j]);
      kept := kept + [b.keys[j]];
      top := top + b.keys[j].key.size;
    }
    if ref' == |b.keys| {
      ref' := |kept|;
    }
    b' := b.(keys := kept, empty := BODY - top - |kept| * KEY_NODE, packed := true);
    PackedSpace(b, b', ref);
  }

  lemma KeptNone(keys: seq<KeyNode>, ref: int)
    ensures Kept(keys, 0, ref) == []
  {
  }

  lemma KeptNext(keys: seq<KeyNode>, j: nat, ref: int, ref': int)
    requires j < |keys| && (j == ref' <==> j == ref)
    ensures MayDrop(keys, j, ref') <==> MayDrop(keys, j, ref)
    ensures MayDrop(keys, j, ref) ==> j != ref
    ensures Kept(keys, j + 1, ref) == if MayDrop(keys, j, ref) then Kept(keys, j, ref)
            else Kept(keys, j, ref) + [keys[j]]
  {
  }

  lemma NoBytes()
    ensures Bytes([]) == 0
  {
  }

  lemma PackedSpace(b: Bucket, b': Bucket, ref: int)
    requires SpaceOk(b) && b'.packed && b'.keys == Kept(b.keys, |b.keys|, ref) && b'.empty == BODY - Bytes(b'.keys)
    ensures SpaceOk(b')
  {
    hide Bytes;
    KeptOk(b.keys, |b.keys|, ref);
    assert b.keys[..|b.keys|] == b.keys;
  }

  // ---- Splitting ----

  function Clamp(split: int, n: int): int {
    if split < 1 then 1 else if split > n - 2 then n - 2 else split
  }

  /** The rightmost key at which the run to its right, itself included, exceeds `limit`; -1 if none does. */
  function Halfway(keys: seq<KeyNode>, i: nat, limit: int): (r: int)
    requires i <= |keys|
    ensures -1 <= r < i
    decreases i
  {
    if i == 0 then -1
    else if Bytes(keys[i-1..]) > limit then i - 1
    else Halfway(keys, i - 1, limit)
  }

  lemma {:induction false} HalfwayBounds(keys: seq<KeyNode>, i: nat, limit: int)
    requires i <= |keys| && Bytes(keys[i..]) <= limit
    ensures var r := Halfway(keys, i, limit);
            if r == -1 then Bytes(keys) <= limit
            else Bytes(keys[r..]) > limit && Bytes(keys[r+1..]) <= limit
  {
    hide Bytes;
    if i == 0 {
      assert keys[0..] == keys;
    } else if Bytes(keys[i-1..]) <= limit {
      HalfwayBounds(keys, i - 1, limit);
    }
  }

  /** The split point for a full bucket that is to receive a key at `keypos`. */
  method SplitPos(keys: seq<KeyNode>, keypos: nat) returns (split: int)
    requires |keys| > 2
    ensures split == Clamp(Halfway(keys, |keys|, Bytes(keys) / if keypos == |keys| then 10 else 2), |keys|)
  {
    hide Bytes;
    split := 0;
    var rightSize := 0;
    var rightSizeLimit := Bytes(keys) / if keypos == |keys| then 10 else 2;
    assert keys[|keys|..] == [];
    NoBytes();
    var i := |keys| - 1;
    while i > -1
      invariant -1 <= i < |keys| && rightSize == Bytes(keys[i+1..]) && split == 0
      invariant Halfway(keys, i + 1, rightSizeLimit) == Halfway(keys, |keys|, rightSizeLimit)
      decreases i
    {
      BytesSplit(keys, i);
      rightSize := rightSize + Cost(keys[i]);
      if rightSize > rightSizeLimit {
        split := i;
        break;
      }
      i := i - 1;
    }
    if split < 1 {
      split := 1;
    } else if split > |keys| - 2 {
      split := |keys| - 2;
    }
  }

  lemma BytesTail(keys: seq<KeyNode>, i: nat)
    requires KeysPositive(keys) && i <= |keys|
    ensures Bytes(keys) == Bytes(keys[..i]) + Bytes(keys[i..])
    ensures 0 <= Bytes(keys[..i]) && 0 <= Bytes(keys[i..])
  {
    hide Bytes;
    assert keys == keys[..i] + keys[i..];
    BytesConcat(keys[..i], keys[i..]);
    BytesPositive(keys[..i]);
    BytesPositive(keys[i..]);
  }

  /**
   Splitting a full packed bucket: both halves are nonempty, and the half that the
   pending key belongs to has room for it.
   */
  lemma SplitHasRoom(keys: seq<KeyNode>, keypos: nat, size: int, split: int)
    requires KeySizes(keys) && 1 <= size <= KEY_MAX && keypos <= |keys|
    requires Bytes(keys) <= BODY < Bytes(keys) + size + KEY_NODE
    requires split == Clamp(Halfway(keys, |keys|, Bytes(keys) / if keypos == |keys| then 10 else 2), |keys|)
    ensures |keys| > 2 && 1 <= split <= |keys| - 2
    ensures keypos <= split ==> Bytes(keys[..split]) + size + KEY_NODE <= BODY
    ensures keypos > split ==> Bytes(keys[split+1..]) + size + KEY_NODE <= BODY
  {
    hide Bytes;
    var n := |keys|;
    var limit := Bytes(keys) / if keypos == n then 10 else 2;
    BytesBounds(keys);
    assert n > 2;
    assert keys[n..] == [];
    NoBytes();
    HalfwayBounds(keys, n, limit);
    var r := Halfway(keys, n, limit);
    assert r != -1;
    BytesSplit(keys, r);
    BytesTail(keys, r + 1);
    BytesTail(keys, r);
    // the first key alone cannot hold half of the bucket
    assert keys[0..] == keys && keys[..0] == [];
    assert r >= 1;
    if r > n - 2 {
      assert keys[r+1..] == [];
      BytesTail(keys, n - 1);
      assert keys[n-1..] == [keys[n-1]];
      BytesPush([], keys[n-1]);
      assert [] + [keys[n-1]] == [keys[n-1]];
    }
  }

  // ---- Rebalancing two siblings ----

  /** The keys of two siblings with their separator between them. */
  function Joined(l: seq<KeyNode>, sep: KeyNode, r: seq<KeyNode>): seq<KeyNode> { l + [sep] + r }

  /** Where the separator goes when the keys of two packed siblings are shared out anew. */
  method RebalancedSeparatorPos(l: seq<KeyNode>, sep: KeyNode, r: seq<KeyNode>) returns (split: int)
    ensures var all := Joined(l, sep, r);
            split == Clamp(Halfway(all, |all|, Bytes(all) / 2), |all|)
  {
    hide Bytes, Clamp, Halfway, Joined;
    ghost var all := Joined(l, sep, r);
    split := -1;
    var rightSize := 0;
    var rightSizeLimit := (Bytes(l) + Cost(sep) + Bytes(r)) / 2;
    JoinedBytes(l, sep, r);
    NoTail(all);
    JoinedIndex(l, sep, r);
    var i := |r| - 1;
    while i > -1
      invariant -1 <= i < |r| && split == -1 && rightSize == Bytes(all[|l|+2+i..])
      invariant Halfway(all, |l| + 2 + i, rightSizeLimit) == Halfway(all, |all|, rightSizeLimit)
      decreases i
    {
      HalfwayStep(all, |l| + 1 + i, rightSizeLimit);
      rightSize := rightSize + Cost(r[i]);
      if rightSize > rightSizeLimit {
        split := |l| + 1 + i;
        break;
      }
      i := i - 1;
    }
    if split == -1 {
      HalfwayStep(all, |l|, rightSizeLimit);
      rightSize := rightSize + Cost(sep);
      if rightSize > rightSizeLimit {
        split := |l|;
      }
    }
    if split == -1 {
      i := |l| - 1;
      while i > -1
        invariant -1 <= i < |l| && split == -1 && rightSize == Bytes(all[i+1..])
        invariant Halfway(all, i + 1, rightSizeLimit) == Halfway(all, |all|, rightSizeLimit)
        decreases i
      {
        HalfwayStep(all, i, rightSizeLimit);
        rightSize := rightSize + Cost(l[i]);
        if rightSize > rightSizeLimit {
          split := i;
          break;
        }
        i := i - 1;
      }
    }
    if split == -1 {
      HalfwayNone(all, rightSizeLimit);
    }
    split := Clamp(split, |l| + 1 + |r|);
  }

  lemma NoTail(keys: seq<KeyNode>)
    ensures Bytes(keys[|keys|..]) == 0
  {
  }

  lemma JoinedIndex(l: seq<KeyNode>, sep: KeyNode, r: seq<KeyNode>)
    ensures var all := Joined(l, sep, r);
            && |all| == |l| + 1 + |r| && all[|l|] == sep
            && (forall i | 0 <= i < |l| :: all[i] == l[i]) && (forall i | 0 <= i < |r| :: all[|l|+1+i] == r[i])
  {
  }

  lemma HalfwayStep(keys: seq<KeyNode>, i: nat, limit: int)
    requires i < |keys|
    ensures Bytes(keys[i..]) == Cost(keys[i]) + Bytes(keys[i+1..])
    ensures Halfway(keys, i + 1, limit) == if Bytes(keys[i..]) > limit then i else Halfway(keys, i, limit)
  {
    hide Bytes;
    BytesSplit(keys, i);
  }

  lemma HalfwayNone(keys: seq<KeyNode>, limit: int)
    ensures Halfway(keys, 0, limit) == -1
  {
  }

  lemma JoinedBytes(l: seq<KeyNode>, sep: KeyNode, r: seq<KeyNode>)
    ensures Bytes(Joined(l, sep, r)) == Bytes(l) + Cost(sep) + Bytes(r)
  {
    BytesPush(l, sep);
    BytesConcat(l + [sep], r);
  }

  /** In a run of about a bucket's size or more, the halfway point is neither at its ends nor off the middle. */
  lemma HalfwayInside(keys: seq<KeyNode>)
    requires KeySizes(keys) && Bytes(keys) > BODY
    ensures var r := Halfway(keys, |keys|, Bytes(keys) / 2);
            && 1 <= r <= |keys| - 2
            && Bytes(keys[r+1..]) <= Bytes(keys) / 2 < Bytes(keys[r+1..]) + Cost(keys[r])
            && Bytes(keys) == Bytes(keys[..r]) + Cost(keys[r]) + Bytes(keys[r+1..])
  {
    hide Bytes, Halfway;
    var n := |keys|;
    NoTail(keys);
    assert keys[0..] == keys;
    HalfwayBounds(keys, n, Bytes(keys) / 2);
    var r := Halfway(keys, n, Bytes(keys) / 2);
    HalfwayIn(keys, r);
    BytesSplit(keys, r);
    EmptyEnds(keys, r);
    MiddleInside(Bytes(keys), Bytes(keys[..r]), Cost(keys[r]), Bytes(keys[r+1..]));
  }

  lemma HalfwayIn(keys: seq<KeyNode>, r: int)
    requires r == Halfway(keys, |keys|, Bytes(keys) / 2) && KeySizes(keys) && Bytes(keys) > BODY
    requires if r == -1 then Bytes(keys) <= Bytes(keys) / 2 else true
    ensures 0 <= r < |keys|
  {
    hide Bytes;
  }

  /** Where nothing lies before or behind, no bytes do. */
  lemma EmptyEnds(keys: seq<KeyNode>, r: nat)
    requires r < |keys|
    ensures r == 0 ==> Bytes(keys[..r]) == 0
    ensures r == |keys| - 1 ==> Bytes(keys[r+1..]) == 0
  {
    if r == 0 { assert keys[..r] == []; }
    if r == |keys| - 1 { assert keys[r+1..] == []; }
  }

  /** About half of a bucket's size or more cannot lie in a single key. */
  lemma MiddleInside(total: int, before: int, cost: int, after: int)
    requires total == before + cost + after && total > BODY && cost <= KEY_MAX + KEY_NODE
    requires after <= total / 2 < after + cost
    ensures before > 0 && after > 0
  {
  }

  /**
   The low-water mark: if one of two siblings is below it and they cannot be merged,
   the keys really move, and both new buckets are nonempty and fit.
   */
  lemma LowWaterMark(l: seq<KeyNode>, sep: KeyNode, r: seq<KeyNode>, split: int)
    requires KeySizes(l) && KeySizes(r) && 1 <= sep.key.size <= KEY_MAX
    requires Bytes(l) <= BODY && Bytes(r) <= BODY && (Bytes(l) < LOW_WATER || Bytes(r) < LOW_WATER)
    requires HEADER_SIZE + Bytes(l) + Bytes(r) + Cost(sep) > BUCKET_SIZE
    requires split == Clamp(Halfway(Joined(l, sep, r), |l| + 1 + |r|, Bytes(Joined(l, sep, r)) / 2), |l| + 1 + |r|)
    ensures Bytes(Joined(l, sep, r)) / 2 < BODY
    ensures |Joined(l, sep, r)| == |l| + 1 + |r|
    ensures split != |l| && 1 <= split <= |l| + |r| - 1
    ensures Bytes(Joined(l, sep, r)[..split]) <= BODY && Bytes(Joined(l, sep, r)[split+1..]) <= BODY
  {
    hide Bytes, Halfway, Joined;
    var all := Joined(l, sep, r);
    JoinedBytes(l, sep, r);
    JoinedSizes(l, sep, r);
    HalfwayInside(all);
    JoinedIndex(l, sep, r);
    JoinedEnds(l, sep, r);
    BytesPositive(l);
    BytesPositive(r);
    var m := Halfway(all, |all|, Bytes(all) / 2);
    MarkMoves(Bytes(l), Cost(sep), Bytes(r), Bytes(all[..m]), Cost(all[m]), Bytes(all[m+1..]));
  }

  lemma JoinedSizes(l: seq<KeyNode>, sep: KeyNode, r: seq<KeyNode>)
    requires KeySizes(l) && KeySizes(r) && 1 <= sep.key.size <= KEY_MAX
    ensures KeySizes(Joined(l, sep, r))
  {
  }

  lemma JoinedEnds(l: seq<KeyNode>, sep: KeyNode, r: seq<KeyNode>)
    ensures var all := Joined(l, sep, r);
            |all| == |l| + 1 + |r| && all[..|l|] == l && all[|l|+1..] == r
  {
  }

  /** The keys cannot stay where they are, and each side takes about half of them. */
  lemma MarkMoves(l: int, c: int, r: int, before: int, cost: int, after: int)
    requires l + c + r == before + cost + after && 0 <= l <= BODY && 0 <= r <= BODY && (l < LOW_WATER || r < LOW_WATER)
    requires HEADER_SIZE + l + r + c > BUCKET_SIZE && c <= KEY_MAX + KEY_NODE && KEY_NODE < cost <= KEY_MAX + KEY_NODE
    requires after <= (l + c + r) / 2 < after + cost
    ensures (l + c + r) / 2 < BODY && before <= BODY && after <= BODY
    ensures !(before == l && after == r)
  {
  }
}
