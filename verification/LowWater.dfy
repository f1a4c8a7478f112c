/** The low-water mark of a bucket: it is the greatest below which balancing two neighbours moves keys. */
module LowWater {
  import opened Bucket

  /** Where the keys of two neighbours with their separator are divided anew. */
  function DividedAt(l: seq<KeyNode>, sep: KeyNode, r: seq<KeyNode>): int {
    Clamp(Halfway(Joined(l, sep, r), |l| + 1 + |r|, Bytes(Joined(l, sep, r)) / 2), |l| + 1 + |r|)
  }

  /** Two neighbours that cannot be merged, one of them below the mark. */
  ghost predicate MustDivide(l: seq<KeyNode>, sep: KeyNode, r: seq<KeyNode>, mark: int) {
    && KeySizes(l) && KeySizes(r) && 1 <= sep.key.size <= KEY_MAX
    && Bytes(l) <= BODY && Bytes(r) <= BODY && (Bytes(l) < mark || Bytes(r) < mark)
    && HEADER_SIZE + Bytes(l) + Bytes(r) + Cost(sep) > BUCKET_SIZE
  }

  /** With this mark, neighbours that must be divided anew are never divided where they were before. */
  ghost predicate MarkWorks(mark: int) {
    forall l, sep, r | MustDivide(l, sep, r, mark) :: DividedAt(l, sep, r) != |l|
  }

  /** The low-water mark is the greatest that works, and all lower ones work too. */
  lemma LowWaterExact(mark: int)
    ensures MarkWorks(mark) <==> mark <= LOW_WATER
  {
    hide Bytes, Halfway, Joined, Clamp;
    if mark <= LOW_WATER {
      forall l, sep, r | MustDivide(l, sep, r, mark)
        ensures DividedAt(l, sep, r) != |l|
      {
        LowWaterMark(l, sep, r, DividedAt(l, sep, r));
      }
    } else {
      var l, sep, r := AtTheMark();
      assert MustDivide(l, sep, r, mark);
    }
  }

  /** Two neighbours, one of them just at the mark, that would be divided where they are. */
  lemma AtTheMark() returns (l: seq<KeyNode>, sep: KeyNode, r: seq<KeyNode>)
    ensures MustDivide(l, sep, r, LOW_WATER + 1) && Bytes(l) == LOW_WATER && DividedAt(l, sep, r) == |l|
  {
    hide Bytes, Halfway, Joined;
    l := OfSizes([792, 792, 792, 792]);
    sep := KeyNode(NULL, 0, Key(0, 819));
    r := OfSizes([819, 819, 819, 819, 710]);
    BytesOfSizes([792, 792, 792, 792]);
    BytesOfSizes([819, 819, 819, 819, 710]);
    FourSizes(792);
    FiveSizes(819, 710);
    var all := Joined(l, sep, r);
    JoinedBytes(l, sep, r);
    JoinedSizes(l, sep, r);
    JoinedIndex(l, sep, r);
    JoinedEnds(l, sep, r);
    BytesSplit(all, |l|);
    HalfwayIs(all, |l|, Bytes(all) / 2);
  }

  function OfSizes(sizes: seq<int>): seq<KeyNode> {
    seq(|sizes|, i requires 0 <= i < |sizes| => KeyNode(NULL, 0, Key(i, sizes[i])))
  }

  function Total(sizes: seq<int>): int {
    if sizes == [] then 0 else Total(sizes[..|sizes|-1]) + sizes[|sizes|-1] + KEY_NODE
  }

  lemma {:induction false} BytesOfSizes(sizes: seq<int>)
    ensures Bytes(OfSizes(sizes)) == Total(sizes)
  {
    if sizes != [] {
      var init := sizes[..|sizes|-1];
      BytesOfSizes(init);
      assert OfSizes(sizes)[..|sizes|-1] == OfSizes(init);
    }
  }

  lemma TotalPush(sizes: seq<int>, a: int)
    ensures Total(sizes + [a]) == Total(sizes) + a + KEY_NODE
  {
    assert (sizes + [a])[..|sizes|] == sizes;
  }

  lemma FourSizes(a: int)
    ensures Total([a, a, a, a]) == 4 * (a + KEY_NODE)
  {
    TotalPush([], a);
    TotalPush([a], a);
    TotalPush([a, a], a);
    TotalPush([a, a, a], a);
    assert [] + [a] == [a] && [a] + [a] == [a, a] && [a, a] + [a] == [a, a, a] && [a, a, a] + [a] == [a, a, a, a];
  }

  lemma FiveSizes(a: int, b: int)
    ensures Total([a, a, a, a, b]) == 4 * (a + KEY_NODE) + b + KEY_NODE
  {
    FourSizes(a);
    TotalPush([a, a, a, a], b);
    assert [a, a, a, a] + [b] == [a, a, a, a, b];
  }

  /** The halfway point is the one key with which the run to its right first exceeds the limit. */
  lemma HalfwayIs(keys: seq<KeyNode>, i: nat, limit: int)
    requires KeysPositive(keys) && i < |keys| && limit >= 0
    requires Bytes(keys[i..]) > limit >= Bytes(keys[i+1..])
    ensures Halfway(keys, |keys|, limit) == i
  {
    hide Bytes;
    NoTail(keys);
    assert keys[0..] == keys;
    HalfwayBounds(keys, |keys|, limit);
    var r := Halfway(keys, |keys|, limit);
    if r != -1 && r < i {
      TailsGrow(keys, r + 1, i);
    } else if r > i {
      TailsGrow(keys, i + 1, r);
    } else if r == -1 {
      TailsGrow(keys, 0, i);
    }
  }

  lemma TailsGrow(keys: seq<KeyNode>, a: nat, b: nat)
    requires KeysPositive(keys) && a <= b <= |keys|
    ensures Bytes(keys[b..]) <= Bytes(keys[a..])
  {
    hide Bytes;
    var tail := keys[a..];
    BytesTail(tail, b - a);
    assert tail[b-a..] == keys[b..];
  }
}
