/**
 The bytes of a bucket: key nodes grow from the front of the body, key data from its end.
 Every operation is tied to the bucket as a value, and the bytes of every key survive it.
 */
module BucketStorage {
  import opened Bucket
  import opened BtreePack
  import opened BtreeDrop

  newtype byte = x: int | 0 <= x < 256

  /** A key node with the place of its data in the body. */
  datatype Slot = Slot(node: KeyNode, ofs: int)

  function End(k: Slot): int { k.ofs + k.node.key.size }

  function Nodes(slots: seq<Slot>): (keys: seq<KeyNode>)
    ensures |keys| == |slots| && forall i | 0 <= i < |slots| :: keys[i] == slots[i].node
  {
    seq(|slots|, i requires 0 <= i < |slots| => slots[i].node)
  }

  /** All key data lies in the last `top` bytes of the body. */
  predicate Placed(slots: seq<Slot>, top: int) {
    forall i | 0 <= i < |slots| :: BODY - top <= slots[i].ofs && 1 <= slots[i].node.key.size && End(slots[i]) <= BODY
  }

  /** No two keys share a byte. */
  predicate Apart(slots: seq<Slot>) {
    forall i, j | 0 <= i < j < |slots| :: End(slots[i]) <= slots[j].ofs || End(slots[j]) <= slots[i].ofs
  }

  /** The bytes of each key. */
  function Slices(d: seq<byte>, slots: seq<Slot>): (s: seq<seq<byte>>)
    requires |d| == BODY && Placed(slots, BODY)
    ensures |s| == |slots| && forall i | 0 <= i < |slots| :: s[i] == d[slots[i].ofs..End(slots[i])]
  {
    seq(|slots|, i requires 0 <= i < |slots| => d[slots[i].ofs..End(slots[i])])
  }

  /** The slots that packing keeps. */
  function KeptSlots(slots: seq<Slot>, k: nat, ref: int): seq<Slot>
    requires k <= |slots|
  {
    if k == 0 then []
    else KeptSlots(slots, k - 1, ref) + if MayDrop(Nodes(slots), k - 1, ref) then [] else [slots[k-1]]
  }

  lemma {:induction false} KeptSlotsNodes(slots: seq<Slot>, k: nat, ref: int)
    requires k <= |slots|
    ensures Nodes(KeptSlots(slots, k, ref)) == Kept(Nodes(slots), k, ref)
    ensures forall x | x in KeptSlots(slots, k, ref) :: x in slots
  {
    if k > 0 {
      KeptSlotsNodes(slots, k - 1, ref);
      hide Nodes;
      var init := KeptSlots(slots, k - 1, ref);
      NodesPush(init, slots[k-1]);
      NodesAt(slots, k - 1);
      assert init + [] == init && Kept(Nodes(slots), k - 1, ref) + [] == Kept(Nodes(slots), k - 1, ref);
    }
  }

  lemma NodesAt(slots: seq<Slot>, i: nat)
    requires i < |slots|
    ensures |Nodes(slots)| == |slots| && Nodes(slots)[i] == slots[i].node
  {
  }

  lemma NodesLength(slots: seq<Slot>)
    ensures |Nodes(slots)| == |slots|
  {
  }

  lemma KeptSlotsPlaced(slots: seq<Slot>, k: nat, ref: int, top: int)
    requires k <= |slots| && Placed(slots, top)
    ensures Placed(KeptSlots(slots, k, ref), top)
  {
    KeptSlotsNodes(slots, k, ref);
    forall i | 0 <= i < |KeptSlots(slots, k, ref)|
      ensures KeptSlots(slots, k, ref)[i] in slots
    {
    }
  }

  lemma PlacedMore(slots: seq<Slot>, top: int, top': int)
    requires Placed(slots, top) && top <= top'
    ensures Placed(slots, top')
  {
  }

  lemma NodesPush(slots: seq<Slot>, k: Slot)
    ensures Nodes(slots + [k]) == Nodes(slots) + [k.node]
  {
  }

  method Copy(dst: array<byte>, at: nat, bytes: seq<byte>)
    requires at + |bytes| <= dst.Length
    modifies dst
    ensures forall i | 0 <= i < dst.Length :: dst[i] == if at <= i < at + |bytes| then bytes[i-at] else old(dst[i])
  {
    for j := 0 to |bytes|
      invariant forall i | 0 <= i < dst.Length :: dst[i] == if at <= i < at + j then bytes[i-at] else old(dst[i])
    {
      dst[at + j] := bytes[j];
    }
  }

  class Storage {
    const data: array<byte>
    var parent: Loc
    var next: Loc
    var slots: seq<Slot>
    var emptySize: int
    var topSize: int
    var packed: bool

    ghost predicate Valid()
      reads this
    {
      && data.Length == BODY && 0 <= emptySize && 0 <= topSize && emptySize + topSize + |slots| * KEY_NODE == BODY
      && Placed(slots, topSize) && Apart(slots)
      && Bytes(Nodes(slots)) <= topSize + |slots| * KEY_NODE
      && (packed ==> Bytes(Nodes(slots)) == topSize + |slots| * KEY_NODE)
    }

    /** The bucket as a value. */
    ghost function Abs(): Bucket
      reads this
    {
      Bucket(parent, next, Nodes(slots), emptySize, packed)
    }

    /** The bytes of the keys. */
    ghost function Contents(): seq<seq<byte>>
      requires Valid()
      reads this, data
    {
      PlacedMore(slots, topSize, BODY);
      Slices(data[..], slots)
    }

    /** The accounting of the bytes is that of the value, as long as no key is over the limit. */
    lemma AbsSpace()
      requires Valid()
      ensures KeySizes(Nodes(slots)) <==> SpaceOk(Abs())
    {
      hide Bytes;
    }

    constructor ()
      ensures Valid() && fresh(data) && Abs() == Bucket(NULL, NULL, [], BODY, true) && Contents() == []
    {
      data := new byte[BODY];
      parent := NULL;
      next := NULL;
      slots := [];
      emptySize := BODY;
      topSize := 0;
      packed := true;
      new;
      NoBytes();
      assert Nodes([]) == [];
    }

    /** Reserves bytes below the key data. */
    method Alloc(bytes: nat) returns (ofs: int)
      modifies this`topSize, this`emptySize
      ensures topSize == old(topSize) + bytes && emptySize == old(emptySize) - bytes
      ensures ofs == BODY - topSize
    {
      topSize := topSize + bytes;
      emptySize := emptySize - bytes;
      ofs := BODY - topSize;
    }

    /** Puts a key in at `pos`; there is room for it. */
    method Put(pos: nat, node: KeyNode, bytes: seq<byte>)
      requires Valid() && pos <= |slots| && |bytes| == node.key.size && 1 <= node.key.size && Cost(node) <= emptySize
      modifies this`slots, this`emptySize, this`topSize, data
      ensures Valid()
      ensures Abs() ==
                old(Abs()).(keys := old(Nodes(slots))[..pos] + [node] + old(Nodes(slots))[pos..],
                  empty := old(emptySize) - Cost(node))
      ensures Contents() == old(Contents())[..pos] + [bytes] + old(Contents())[pos..]
    {
      hide Bytes;
      ghost var before, was, d := slots, Nodes(slots), data[..];
      emptySize := emptySize - KEY_NODE;
      var ofs := Alloc(node.key.size);
      assert ofs > 0;
      slots := slots[..pos] + [Slot(node, ofs)] + slots[pos..];
      Copy(data, ofs, bytes);
      assert Nodes(slots) == was[..pos] + [node] + was[pos..];
      PutBytes(was, pos, node);
      PutApart(before, pos, Slot(node, ofs), old(topSize), topSize);
      PutSlices(d, data[..], before, pos, Slot(node, ofs), bytes);
    }

    /** Adds a key at the end, if there is room. */
    method PushBack(node: KeyNode, bytes: seq<byte>) returns (ok: bool)
      requires Valid() && |bytes| == node.key.size && 1 <= node.key.size
      modifies this`slots, this`emptySize, this`topSize, data
      ensures Valid()
      ensures ok <==> Cost(node) <= old(emptySize)
      ensures Abs() == if ok
              then old(Abs()).(keys := old(Nodes(slots)) + [node], empty := old(emptySize) - Cost(node)) else old(Abs())
      ensures Contents() == if ok then old(Contents()) + [bytes] else old(Contents())
    {
      hide Bytes, Slices, Apart, Placed;
      if Cost(node) > emptySize {
        return false;
      }
      ghost var keys, contents := Nodes(slots), Contents();
      Put(|slots|, node, bytes);
      assert keys[..|keys|] == keys && keys[|keys|..] == [] && contents[..|contents|] == contents
             && contents[|contents|..] == [];
      return true;
    }

    /** Takes out the key at `pos`, which has no child to its left. Its bytes stay behind. */
    method DelKeyAt(pos: nat)
      requires Valid() && pos < |slots|
      modifies this`slots, this`emptySize, this`packed
      ensures Valid()
      ensures Abs() == Dropped(old(Abs()), pos, Child(old(Abs()), pos + 1))
      ensures Contents() == old(Contents())[..pos] + old(Contents())[pos+1..]
    {
      hide Bytes, Nodes, Placed, Apart, Slices, Dropped;
      ghost var b, was := Abs(), slots;
      PlacedMore(slots, topSize, BODY);
      DelSlots(slots, pos, topSize, data[..]);
      DroppedBytes(b, pos, Child(b, pos + 1));
      DroppedKeys(b, pos);
      emptySize := emptySize + KEY_NODE;
      slots := slots[..pos] + slots[pos+1..];
      packed := false;
    }

    /** Rebuilds the key data from the slots there are, without those that may be dropped. */
    method Repack(ref: int) returns (ref': int)
      requires data.Length == BODY && Placed(slots, BODY) && Bytes(Nodes(slots)) <= BODY
      modifies this`slots, this`emptySize, this`topSize, this`packed, data
      ensures Valid() && packed
      ensures Nodes(slots) == Kept(Nodes(old(slots)), |old(slots)|, ref)
      ensures emptySize == BODY - Bytes(Nodes(slots))
      ensures ref' == if !(0 <= ref <= |old(slots)|) then ref else |Kept(Nodes(old(slots)), ref, ref)|
      ensures Placed(KeptSlots(old(slots), |old(slots)|, ref), BODY)
      ensures Contents() == Slices(old(data[..]), KeptSlots(old(slots), |old(slots)|, ref))
    {
      hide Bytes, Kept, KeptSlots, MayDrop, Nodes, Placed, Apart, Slices, Rebuilt;
      ghost var d := data[..];
      var temp := new byte[BODY];
      var ofs := BODY;
      ref' := ref;
      topSize := 0;
      var kept: seq<Slot> := [];
      NodesLength(slots);
      RepackStart(slots, ref, d, temp[..]);
      for j := 0 to |slots|
        invariant slots == old(slots) && data[..] == d && fresh(temp) && temp.Length == BODY
        invariant ofs == BODY - topSize && Rebuilt(slots, j, ref, d, temp[..], kept, topSize)
        invariant ref' == if 0 <= ref < j then |Kept(Nodes(slots), ref, ref)| else ref
        invariant 0 <= ref < j ==> ref' < j
      {
        RepackDrop(slots, j, ref, ref', d, temp[..], kept, topSize);
        if MayDrop(Nodes(slots), j, ref') {
          continue;
        }
        RepackRoom(slots, j, ref, d, temp[..], kept, topSize);
        if |kept| != j && ref' == j {
          ref' := |kept|;
        }
        var sz := slots[j].node.key.size;
        ofs := ofs - sz;
        topSize := topSize + sz;
        ghost var t := temp[..];
        Copy(temp, ofs, data[slots[j].ofs..slots[j].ofs + sz]);
        RepackKeep(slots, j, ref, d, t, temp[..], kept, topSize - sz);
        kept := kept + [slots[j].(ofs := ofs)];
      }
      RepackEnd(slots, ref, d, temp[..], kept, topSize);
      if ref' == |slots| {
        ref' := |kept|;
      }
      slots := kept;
      Copy(data, ofs, temp[ofs..BODY]);
      emptySize := BODY - topSize - |slots| * KEY_NODE;
      packed := true;
      SameSlices(temp[..], data[..], kept, ofs);
    }

    /** Reclaims dead bytes and droppable keys. */
    method Pack(ref: int) returns (ref': int)
      requires Valid()
      modifies this`slots, this`emptySize, this`topSize, this`packed, data
      ensures Valid()
      ensures Abs() == PackedBucket(old(Abs()), ref)
      ensures ref' == if old(packed) || !(0 <= ref <= |old(slots)|) then ref else |Kept(Nodes(old(slots)), ref, ref)|
      ensures Placed(KeptSlots(old(slots), |old(slots)|, ref), BODY)
      ensures Contents() == if old(packed) then old(Contents())
              else Slices(old(data[..]), KeptSlots(old(slots), |old(slots)|, ref))
    {
      hide Bytes, Kept, KeptSlots, Apart;
      PlacedMore(slots, topSize, BODY);
      KeptSlotsPlaced(slots, |slots|, ref, BODY);
      if packed {
        return ref;
      }
      ref' := Repack(ref);
    }

    /** Keeps the first `count` keys only, and packs. */
    method TruncateTo(count: nat, ref: int) returns (ref': int)
      requires Valid() && count <= |slots|
      modifies this`slots, this`emptySize, this`topSize, this`packed, data
      ensures Valid()
      ensures Abs() == PackedBucket(old(Abs()).(keys := old(Nodes(slots))[..count], packed := false), ref)
      ensures Placed(KeptSlots(old(slots)[..count], count, ref), BODY)
      ensures Contents() == Slices(old(data[..]), KeptSlots(old(slots)[..count], count, ref))
    {
      hide Bytes, Kept, KeptSlots, Apart;
      PlacedMore(slots, topSize, BODY);
      BytesTail(Nodes(slots), count);
      assert Nodes(slots[..count]) == Nodes(slots)[..count];
      slots := slots[..count];
      ref' := Repack(ref);
    }

    /** Drops the first `count` keys, and packs. */
    method DropFront(count: nat, ref: int) returns (ref': int)
      requires Valid() && count <= |slots|
      modifies this`slots, this`emptySize, this`topSize, this`packed, data
      ensures Valid()
      ensures Abs() == PackedBucket(old(Abs()).(keys := old(Nodes(slots))[count..], packed := false), ref)
      ensures Placed(KeptSlots(old(slots)[count..], |old(slots)| - count, ref), BODY)
      ensures Contents() == Slices(old(data[..]), KeptSlots(old(slots)[count..], |old(slots)| - count, ref))
    {
      hide Bytes, Kept, KeptSlots, Apart;
      PlacedMore(slots, topSize, BODY);
      BytesTail(Nodes(slots), count);
      assert Nodes(slots[count..]) == Nodes(slots)[count..];
      slots := slots[count..];
      ref' := Repack(ref);
    }

    /** Makes room for keys in front, then sets them one by one. */
    method PrependKeys(nodes: seq<KeyNode>, keys: seq<seq<byte>>)
      requires Valid() && |nodes| == |keys| && KeysPositive(nodes) && Bytes(nodes) <= emptySize
      requires forall i | 0 <= i < |nodes| :: |keys[i]| == nodes[i].key.size
      modifies this`slots, this`emptySize, this`topSize, data
      ensures Valid()
      ensures Abs() == old(Abs()).(keys := nodes + old(Nodes(slots)), empty := old(emptySize) - Bytes(nodes))
      ensures Contents() == keys + old(Contents())
    {
      hide Bytes, Nodes, Placed, Apart, Slices, KeysPositive;
      ghost var was, free, top := slots, emptySize, topSize;
      PlacedMore(slots, topSize, BODY);
      SetStart(was, nodes, keys, top, data[..]);
      BytesPositive(nodes);
      emptySize := emptySize - |nodes| * KEY_NODE;
      slots := seq(|nodes|, i requires 0 <= i < |nodes| => Slot(nodes[i], 0)) + slots;
      for j := 0 to |nodes|
        invariant |slots| == |nodes| + |was| && slots[|nodes|..] == was && packed == old(packed)
        invariant emptySize + topSize + |slots| * KEY_NODE == BODY
        invariant SetSoFar(was, nodes, keys, j, slots[..j], top, topSize, old(data[..]), data[..])
      {
        SetRoom(was, nodes, keys, j, slots[..j], top, topSize, free, old(data[..]), data[..]);
        ghost var done, t, d := slots[..j], topSize, data[..];
        var ofs := Alloc(nodes[j].key.size);
        Copy(data, ofs, keys[j]);
        slots := slots[j := Slot(nodes[j], ofs)];
        assert slots[..j+1] == done + [Slot(nodes[j], ofs)];
        SetOne(was, nodes, keys, j, done, top, t, old(data[..]), d, data[..]);
      }
      assert slots == slots[..|nodes|] + was;
      SetEnd(was, nodes, keys, slots, top, topSize, old(data[..]), data[..]);
    }

    /** Inserts a key at `pos`, after packing if that makes room; `pos` follows its place. */
    method BasicInsert(pos: nat, node: KeyNode, bytes: seq<byte>) returns (ok: bool, pos': int)
      requires Valid() && pos <= |slots| && |bytes| == node.key.size && 1 <= node.key.size
      modifies this`slots, this`emptySize, this`topSize, this`packed, data
      ensures Valid() && 0 <= pos'
      ensures var b := if Cost(node) > old(emptySize) then PackedBucket(old(Abs()), pos) else old(Abs());
              && pos' ==
                   (if Cost(node) > old(emptySize)
                     && !old(packed) then |Kept(Nodes(old(slots)), pos, pos)| else pos) <= |b.keys|
              && (ok <==> Cost(node) <= b.empty)
              && Abs() == if ok
                 then b.(keys := b.keys[..pos'] + [node] + b.keys[pos'..], empty := b.empty - Cost(node)) else b
      ensures Placed(KeptSlots(old(slots), |old(slots)|, pos), BODY)
      ensures var c := if Cost(node) > old(emptySize)
              && !old(packed) then Slices(old(data[..]), KeptSlots(old(slots), |old(slots)|, pos)) else old(Contents());
              pos' <= |c| && Contents() == if ok then c[..pos'] + [bytes] + c[pos'..] else c
    {
      hide Bytes, Kept, KeptSlots, Apart, Placed;
      PlacedMore(slots, topSize, BODY);
      KeptSlotsPlaced(slots, |slots|, pos, BODY);
      pos' := pos;
      if Cost(node) > emptySize {
        KeptShorter(Nodes(slots), pos);
        pos' := Pack(pos);
        if Cost(node) > emptySize {
          return false, pos';
        }
      }
      Put(pos', node, bytes);
      return true, pos';
    }
  }

  // ---- Setting keys in front ----

  /** The first `j` keys are set: `done` are their slots, in front of those that were there. */
  ghost predicate SetSoFar(was: seq<Slot>, nodes: seq<KeyNode>, keys: seq<seq<byte>>, j: nat, done: seq<Slot>,
                           top: int, top': int, d: seq<byte>, d': seq<byte>) {
    && j == |done| <= |nodes| == |keys| && |d| == |d'| == BODY
    && Placed(was, BODY) && Placed(done + was, top') && Placed(done + was, BODY) && Apart(done + was)
    && Nodes(done) == nodes[..j] && 0 <= top <= top'
    && top' + j * KEY_NODE == top + Bytes(nodes[..j]) && Slices(d', done + was) == keys[..j] + Slices(d, was)
  }

  lemma SetStart(was: seq<Slot>, nodes: seq<KeyNode>, keys: seq<seq<byte>>, top: int, d: seq<byte>)
    requires |nodes| == |keys| && |d| == BODY && Placed(was, top) && Placed(was, BODY) && Apart(was) && 0 <= top
    ensures SetSoFar(was, nodes, keys, 0, [], top, top, d, d)
  {
    NoBytes();
    assert [] + was == was && nodes[..0] == [] && Nodes([]) == [];
  }

  lemma SetRoom(was: seq<Slot>, nodes: seq<KeyNode>, keys: seq<seq<byte>>, j: nat, done: seq<Slot>,
                top: int, top': int, free: int, d: seq<byte>, d': seq<byte>)
    requires SetSoFar(was, nodes, keys, j, done, top, top', d, d') && j < |nodes| && KeysPositive(nodes)
    requires Bytes(nodes) <= free && free + top <= BODY
    ensures top' + nodes[j].key.size <= BODY && 1 <= nodes[j].key.size
  {
    hide Bytes, Slices, Placed, Apart;
    BytesSplit(nodes, j);
    BytesPositive(nodes[j+1..]);
    assert KeysPositive(nodes[j+1..]);
  }

  lemma SetOne(was: seq<Slot>, nodes: seq<KeyNode>, keys: seq<seq<byte>>, j: nat, done: seq<Slot>,
               top: int, top': int, d: seq<byte>, d': seq<byte>, d'': seq<byte>)
    requires SetSoFar(was, nodes, keys, j, done, top, top', d, d') && j < |nodes| && KeysPositive(nodes)
    requires |keys[j]| == nodes[j].key.size && top' + nodes[j].key.size <= BODY && |d''| == BODY
    requires var ofs := BODY - top' - nodes[j].key.size;
             forall i | 0 <= i < BODY :: d''[i] == if ofs <= i < ofs + |keys[j]| then keys[j][i-ofs] else d'[i]
    ensures var k := Slot(nodes[j], BODY - top' - nodes[j].key.size);
            SetSoFar(was, nodes, keys, j + 1, done + [k], top, top' + nodes[j].key.size, d, d'')
  {
    hide Bytes;
    var k := Slot(nodes[j], BODY - top' - nodes[j].key.size);
    var all := done + was;
    assert all[..j] == done && all[j..] == was && done + [k] + was == all[..j] + [k] + all[j..];
    PutApart(all, j, k, top', top' + k.node.key.size);
    PutSlices(d', d'', all, j, k, keys[j]);
    assert keys[..j+1] == keys[..j] + [keys[j]];
    assert Slices(d', all)[..j] == keys[..j] && Slices(d', all)[j..] == Slices(d, was);
    NodesPush(done, k);
    assert nodes[..j+1] == nodes[..j] + [nodes[j]];
    BytesPush(nodes[..j], nodes[j]);
    assert (done + [k]) + was == done + [k] + was;
  }

  lemma SetEnd(was: seq<Slot>, nodes: seq<KeyNode>, keys: seq<seq<byte>>, slots: seq<Slot>, top: int, top': int,
      d: seq<byte>, d': seq<byte>)
    requires |nodes| <= |slots| && slots == slots[..|nodes|] + was
    requires SetSoFar(was, nodes, keys, |nodes|, slots[..|nodes|], top, top', d, d')
    ensures Placed(slots, top') && Placed(slots, BODY) && Apart(slots) && Nodes(slots) == nodes + Nodes(was)
    ensures Slices(d', slots) == keys + Slices(d, was) && top' + |nodes| * KEY_NODE == top + Bytes(nodes)
    ensures Bytes(Nodes(slots)) == Bytes(nodes) + Bytes(Nodes(was)) && |Nodes(slots)| == |slots|
  {
    hide Bytes;
    assert nodes[..|nodes|] == nodes && keys[..|nodes|] == keys;
    BytesConcat(nodes, Nodes(was));
  }

  lemma KeptShorter(keys: seq<KeyNode>, pos: nat)
    requires pos <= |keys|
    ensures |Kept(keys, pos, pos)| <= |Kept(keys, |keys|, pos)|
  {
    KeptMono(keys, pos, |keys|, pos);
  }

  lemma DelSlots(slots: seq<Slot>, pos: nat, top: int, d: seq<byte>)
    requires pos < |slots| && Placed(slots, top) && Placed(slots, BODY) && Apart(slots) && |d| == BODY
    ensures var rest := slots[..pos] + slots[pos+1..];
            && Placed(rest, top) && Placed(rest, BODY) && Apart(rest)
            && Nodes(rest) == Nodes(slots)[..pos] + Nodes(slots)[pos+1..]
            && Slices(d, rest) == Slices(d, slots)[..pos] + Slices(d, slots)[pos+1..]
            && |Nodes(slots)| == |slots| && Cost(Nodes(slots)[pos]) >= KEY_NODE + 1
  {
    hide Apart, Slices;
    DelApart(slots, pos);
    DelSlices(slots, pos, d);
    var rest := slots[..pos] + slots[pos+1..];
    assert forall i | 0 <= i < |rest| :: rest[i] == slots[if i < pos then i else i + 1];
  }

  lemma DelApart(slots: seq<Slot>, pos: nat)
    requires pos < |slots| && Apart(slots)
    ensures Apart(slots[..pos] + slots[pos+1..])
  {
    var rest := slots[..pos] + slots[pos+1..];
    assert forall i | 0 <= i < |rest| :: rest[i] == slots[if i < pos then i else i + 1];
  }

  lemma DelSlices(slots: seq<Slot>, pos: nat, d: seq<byte>)
    requires pos < |slots| && Placed(slots, BODY) && |d| == BODY
    requires Placed(slots[..pos] + slots[pos+1..], BODY)
    ensures Slices(d, slots[..pos] + slots[pos+1..]) == Slices(d, slots)[..pos] + Slices(d, slots)[pos+1..]
  {
    var rest := slots[..pos] + slots[pos+1..];
    assert forall i | 0 <= i < |rest| :: rest[i] == slots[if i < pos then i else i + 1];
  }

  lemma DroppedKeys(b: Bucket, pos: nat)
    requires pos < |b.keys|
    ensures Dropped(b, pos, Child(b, pos + 1)) ==
              b.(keys := b.keys[..pos] + b.keys[pos+1..], empty := b.empty + KEY_NODE, packed := false)
  {
  }

  // ---- Packing ----

  /** The slots `kept` have the nodes and, in `temp`, the bytes of the first `j` slots that are kept. */
  ghost predicate Rebuilt(slots: seq<Slot>, j: nat, ref: int, d: seq<byte>, temp: seq<byte>, kept: seq<Slot>,
      top: int) {
    && j <= |slots| && |d| == |temp| == BODY && 0 <= top <= BODY && |kept| <= j
    && Placed(kept, top) && Apart(kept) && Nodes(kept) == Kept(Nodes(slots), j, ref)
    && top + |kept| * KEY_NODE == Bytes(Nodes(kept))
    && Placed(KeptSlots(slots, j, ref), BODY) && Placed(kept, BODY)
    && Slices(temp, kept) == Slices(d, KeptSlots(slots, j, ref))
  }

  lemma RepackStart(slots: seq<Slot>, ref: int, d: seq<byte>, temp: seq<byte>)
    requires |d| == |temp| == BODY
    ensures Rebuilt(slots, 0, ref, d, temp, [], 0)
  {
    NoBytes();
    assert Nodes([]) == [];
  }

  /** `ref'` shields the same key as `ref`, and a key dropped changes nothing. */
  lemma RepackDrop(slots: seq<Slot>, j: nat, ref: int, ref': int, d: seq<byte>, temp: seq<byte>, kept: seq<Slot>,
      top: int)
    requires Rebuilt(slots, j, ref, d, temp, kept, top) && j < |slots|
    requires ref' == if 0 <= ref < j then |Kept(Nodes(slots), ref, ref)| else ref
    requires 0 <= ref < j ==> ref' < j
    ensures MayDrop(Nodes(slots), j, ref') <==> MayDrop(Nodes(slots), j, ref)
    ensures MayDrop(Nodes(slots), j, ref) ==> Rebuilt(slots, j + 1, ref, d, temp, kept, top) && j != ref
    ensures j == ref' <==> j == ref
  {
    hide Bytes, Nodes;
    assert KeptSlots(slots, j, ref) + [] == KeptSlots(slots, j, ref);
    assert Kept(Nodes(slots), j, ref) + [] == Kept(Nodes(slots), j, ref);
  }

  lemma RepackRoom(slots: seq<Slot>, j: nat, ref: int, d: seq<byte>, temp: seq<byte>, kept: seq<Slot>, top: int)
    requires Rebuilt(slots, j, ref, d, temp, kept, top) && j < |slots| && Placed(slots, BODY)
             && Bytes(Nodes(slots)) <= BODY
    ensures top + slots[j].node.key.size + |kept| * KEY_NODE + KEY_NODE <= BODY
    ensures 0 <= slots[j].ofs && 1 <= slots[j].node.key.size && End(slots[j]) <= BODY
    ensures |kept| == |Kept(Nodes(slots), j, ref)| <= j && 0 <= top
  {
    hide Bytes, Kept, KeptSlots, Slices;
    var keys := Nodes(slots);
    KeptOk(keys, j, ref);
    BytesSplit(keys, j);
    BytesPositive(keys[j+1..]);
  }

  lemma RepackKeep(slots: seq<Slot>, j: nat, ref: int, d: seq<byte>, temp: seq<byte>, temp': seq<byte>,
      kept: seq<Slot>, top: int)
    requires Rebuilt(slots, j, ref, d, temp, kept, top) && j < |slots| && !MayDrop(Nodes(slots), j, ref)
             && Placed(slots, BODY)
    requires |temp'| == BODY && top + slots[j].node.key.size <= BODY
    requires var sz, ofs := slots[j].node.key.size, BODY - top - slots[j].node.key.size;
             forall i | 0 <= i < BODY ::
                 temp'[i] == if ofs <= i < ofs + sz then d[slots[j].ofs..slots[j].ofs + sz][i-ofs] else temp[i]
    ensures var sz := slots[j].node.key.size;
            Rebuilt(slots, j + 1, ref, d, temp', kept + [slots[j].(ofs := BODY - top - sz)], top + sz)
  {
    hide Bytes, Kept, KeptSlots, MayDrop;
    var sz := slots[j].node.key.size;
    var k := slots[j].(ofs := BODY - top - sz);
    var bytes := d[slots[j].ofs..End(slots[j])];
    assert kept[..|kept|] + [k] + kept[|kept|..] == kept + [k];
    PutApart(kept, |kept|, k, top, top + sz);
    PutSlices(temp, temp', kept, |kept|, k, bytes);
    assert Slices(temp, kept)[..|kept|] + [bytes] + Slices(temp, kept)[|kept|..] == Slices(temp, kept) + [bytes];
    NodesPush(kept, k);
    BytesPush(Nodes(kept), k.node);
    KeptOneMore(slots, j, ref, d);
    PlacedMore(kept + [k], top + sz, BODY);
  }

  lemma KeptOneMore(slots: seq<Slot>, j: nat, ref: int, d: seq<byte>)
    requires j < |slots| && !MayDrop(Nodes(slots), j, ref) && Placed(slots, BODY) && |d| == BODY
             && Placed(KeptSlots(slots, j, ref), BODY)
    ensures KeptSlots(slots, j + 1, ref) == KeptSlots(slots, j, ref) + [slots[j]]
            && Placed(KeptSlots(slots, j + 1, ref), BODY)
    ensures Kept(Nodes(slots), j + 1, ref) == Kept(Nodes(slots), j, ref) + [slots[j].node]
    ensures Slices(d, KeptSlots(slots, j + 1, ref)) == Slices(d, KeptSlots(slots, j, ref)) +
              [d[slots[j].ofs..End(slots[j])]]
  {
    hide MayDrop;
  }

  lemma RepackEnd(slots: seq<Slot>, ref: int, d: seq<byte>, temp: seq<byte>, kept: seq<Slot>, top: int)
    requires Rebuilt(slots, |slots|, ref, d, temp, kept, top) && Bytes(Nodes(slots)) <= BODY && Placed(slots, BODY)
    ensures 0 <= BODY - top - |kept| * KEY_NODE && 0 <= top <= BODY
    ensures Placed(kept, top) && Apart(kept) && Nodes(kept) == Kept(Nodes(slots), |slots|, ref) && |kept| <= |slots|
    ensures top + |kept| * KEY_NODE == Bytes(Nodes(kept)) && |Nodes(kept)| == |kept|
    ensures Placed(KeptSlots(slots, |slots|, ref), BODY) && Placed(kept, BODY)
    ensures Slices(temp, kept) == Slices(d, KeptSlots(slots, |slots|, ref))
  {
    hide Bytes, Kept, KeptSlots, Slices;
    KeptOk(Nodes(slots), |slots|, ref);
    assert Nodes(slots)[..|slots|] == Nodes(slots);
  }

  lemma SameSlices(d: seq<byte>, d': seq<byte>, slots: seq<Slot>, ofs: nat)
    requires |d| == |d'| == BODY && ofs <= BODY && Placed(slots, BODY - ofs) && Placed(slots, BODY)
    requires forall i | ofs <= i < BODY :: d'[i] == d[i]
    ensures Slices(d', slots) == Slices(d, slots)
  {
    forall i | 0 <= i < |slots|
      ensures Slices(d', slots)[i] == Slices(d, slots)[i]
    {
      assert d'[slots[i].ofs..End(slots[i])] == d[slots[i].ofs..End(slots[i])];
    }
  }

  lemma PutBytes(keys: seq<KeyNode>, pos: nat, k: KeyNode)
    requires pos <= |keys|
    ensures Bytes(keys[..pos] + [k] + keys[pos..]) == Bytes(keys) + Cost(k)
  {
    hide Bytes;
    assert keys == keys[..pos] + keys[pos..];
    BytesConcat(keys[..pos], keys[pos..]);
    BytesPush(keys[..pos], k);
    BytesConcat(keys[..pos] + [k], keys[pos..]);
  }

  lemma PutApart(slots: seq<Slot>, pos: nat, k: Slot, top: int, top': int)
    requires pos <= |slots| && Placed(slots, top) && Apart(slots) && top' == top + k.node.key.size
    requires k.ofs == BODY - top' && 1 <= k.node.key.size && 0 <= top
    ensures Placed(slots[..pos] + [k] + slots[pos..], top') && Apart(slots[..pos] + [k] + slots[pos..])
  {
    var all := slots[..pos] + [k] + slots[pos..];
    forall i | 0 <= i < |all|
      ensures all[i] == if i < pos then slots[i] else if i == pos then k else slots[i-1]
    {
    }
  }

  /** Bytes written below all key data leave that data as it was. */
  lemma PutSlices(d: seq<byte>, d': seq<byte>, slots: seq<Slot>, pos: nat, k: Slot, bytes: seq<byte>)
    requires |d| == |d'| == BODY && pos <= |slots| && Placed(slots, BODY) && |bytes| == k.node.key.size
             && 0 <= k.ofs && End(k) <= BODY
    requires 1 <= k.node.key.size
    requires forall i | 0 <= i < |slots| :: End(k) <= slots[i].ofs
    requires forall i | 0 <= i < BODY :: d'[i] == if k.ofs <= i < End(k) then bytes[i-k.ofs] else d[i]
    ensures Placed(slots[..pos] + [k] + slots[pos..], BODY)
    ensures Slices(d', slots[..pos] + [k] + slots[pos..]) == Slices(d, slots)[..pos] + [bytes] + Slices(d, slots)[pos..]
  {
    var all := slots[..pos] + [k] + slots[pos..];
    forall i | 0 <= i < |all|
      ensures all[i] == if i < pos then slots[i] else if i == pos then k else slots[i-1]
    {
    }
    var one, two := Slices(d', all), Slices(d, slots)[..pos] + [bytes] + Slices(d, slots)[pos..];
    forall i | 0 <= i < |all|
      ensures one[i] == two[i]
    {
      var x := all[i];
      assert one[i] == d'[x.ofs..End(x)];
      if i == pos {
        assert d'[x.ofs..End(x)] == bytes;
      } else {
        assert d'[x.ofs..End(x)] == d[x.ofs..End(x)];
      }
    }
  }
}
