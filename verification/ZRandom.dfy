/**
 Random access over a compressed text: blocks with checkpoints, a cache of decoded
 blocks, and iterators whose copies share one current-block slot.
 */
module ZRandom {
  import opened Basics

  type byte = x: int | 0 <= x < 256

  const BLOCK_SIZE: nat := 16384

  const MAX_ENTRIES: nat := 8

  const TWO_64: nat := 0x1_0000_0000_0000_0000

  /** The foreign compressor: one call per block, each block flushed so that it decodes on its own. */
  datatype Codec = Codec(deflate: (seq<byte>, bool) -> seq<byte>, inflate: seq<byte> -> seq<byte>)

  /** Inflating at the start of a compressed block yields that block, whatever follows. */
  ghost predicate Lossless(c: Codec) {
    forall block: seq<byte>, last: bool, rest: seq<byte> ::
      c.inflate(c.deflate(block, last) + rest) == block
  }

  /** A codec as plain as can be: every byte of a block behind a one, and a zero at the end. */
  function PlainDeflate(block: seq<byte>): seq<byte> {
    if block == [] then [0] else [1, block[0]] + PlainDeflate(block[1..])
  }

  function PlainInflate(data: seq<byte>): seq<byte> {
    if |data| < 2 || data[0] == 0 then [] else [data[1]] + PlainInflate(data[2..])
  }

  lemma {:induction false} PlainInverse(block: seq<byte>, rest: seq<byte>)
    ensures PlainInflate(PlainDeflate(block) + rest) == block
  {
    var data := PlainDeflate(block) + rest;
    if block == [] {
      assert data[0] == 0;
    } else {
      PlainInverse(block[1..], rest);
      assert data[2..] == PlainDeflate(block[1..]) + rest;
    }
  }

  /** There are lossless codecs. */
  lemma LosslessExists()
    ensures Lossless(Codec((block, last) => PlainDeflate(block), data => PlainInflate(data)))
  {
    var c := Codec((block, last) => PlainDeflate(block), data => PlainInflate(data));
    forall block: seq<byte>, last: bool, rest: seq<byte>
      ensures c.inflate(c.deflate(block, last) + rest) == block
    {
      PlainInverse(block, rest);
    }
  }

  datatype File = File(data: seq<byte>, originalSize: nat, blockSize: nat, offsets: seq<nat>)

  function Min(a: int, b: int): int { if a < b then a else b }

  /** The bytes of block `i` of a text. */
  function BlockBytes(text: seq<byte>, i: nat): seq<byte> {
    text[Min(i * BLOCK_SIZE, |text|)..Min((i + 1) * BLOCK_SIZE, |text|)]
  }

  /** The file decodes, block by block, to `text`; every position of the text lies in a recorded block. */
  ghost predicate Encodes(f: File, c: Codec, text: seq<byte>) {
    && f.originalSize == |text| && f.blockSize == BLOCK_SIZE
    && |f.offsets| == |text| / BLOCK_SIZE + 1
    && forall i | 0 <= i < |f.offsets| ::
         f.offsets[i] <= |f.data| && c.inflate(f.data[f.offsets[i]..]) == BlockBytes(text, i)
  }

  /** What has been written before block `n`: every checkpoint starts a compressed block. */
  ghost predicate Written(data: seq<byte>, offsets: seq<nat>, c: Codec, text: seq<byte>) {
    forall i | 0 <= i < |offsets| :: Checkpoint(data, offsets[i], c, BlockBytes(text, i))
  }

  ghost predicate Checkpoint(data: seq<byte>, offset: nat, c: Codec, block: seq<byte>) {
    exists last, rest :: offset <= |data| && data[offset..] == c.deflate(block, last) + rest
  }

  lemma CheckpointGrows(data: seq<byte>, more: seq<byte>, offset: nat, c: Codec, block: seq<byte>)
    requires Checkpoint(data, offset, c, block)
    ensures Checkpoint(data + more, offset, c, block)
  {
    var last, rest :| offset <= |data| && data[offset..] == c.deflate(block, last) + rest;
    assert (data + more)[offset..] == c.deflate(block, last) + (rest + more);
  }

  method Compress(text: seq<byte>, c: Codec) returns (f: File)
    requires Lossless(c)
    ensures Encodes(f, c, text) && f.blockSize == 16384
  {
    var checkpoints: seq<nat> := [];
    var originalSize, compressedSize := 0, 0;
    var data: seq<byte> := [];
    var finish := false;
    while !finish
      invariant compressedSize == |data| && Written(data, checkpoints, c, text)
      invariant originalSize == Min(|checkpoints| * BLOCK_SIZE, |text|)
      invariant if finish then |checkpoints| == |text| / BLOCK_SIZE + 1 else |checkpoints| * BLOCK_SIZE <= |text|
      decreases if finish then 0 else 1, |text| - originalSize
    {
      ghost var n := |checkpoints|;
      var block := text[originalSize..Min(originalSize + BLOCK_SIZE, |text|)];
      originalSize := originalSize + |block|;
      if |block| < BLOCK_SIZE {
        finish := true;
      }
      checkpoints := checkpoints + [compressedSize];
      var pending := c.deflate(block, finish);
      ghost var start, whole := data, pending;
      var full := true;
      while full
        invariant data + pending == start + whole && compressedSize == |data|
        invariant !full ==> pending == []
        decreases full, |pending|
      {
        var have := Min(BLOCK_SIZE, |pending|);
        data := data + pending[..have];
        pending := pending[have..];
        compressedSize := compressedSize + have;
        full := have == BLOCK_SIZE;
      }
      assert data == start + whole;
      assert BlockBytes(text, n) == block;
      forall i | 0 <= i < |checkpoints|
        ensures Checkpoint(data, checkpoints[i], c, BlockBytes(text, i))
      {
        if i < n {
          CheckpointGrows(start, whole, checkpoints[i], c, BlockBytes(text, i));
        } else {
          assert data[|start|..] == c.deflate(block, finish) + [];
        }
      }
    }
    f := File(data, originalSize, BLOCK_SIZE, checkpoints);
  }

  // ---- Decoded blocks and their cache ----

  /** A decoded block: the position of its first byte, and the bytes. Shared, never changed. */
  datatype Block = Block(first: nat, bytes: seq<byte>)

  function TheBlock(text: seq<byte>, id: nat): Block {
    Block(id * BLOCK_SIZE, BlockBytes(text, id))
  }

  class Cache {
    var entries: map<nat, (nat, Block)>
    var timestamp: nat

    constructor ()
      ensures entries == map[] && timestamp == 0
    {
      entries, timestamp := map[], 0;
    }

    /** Every entry is the block its id names, and there are at most eight. */
    ghost predicate Coherent(text: seq<byte>)
      reads this
    {
      && timestamp < TWO_64
      && |entries| <= 8
      && forall id | id in entries :: entries[id].1 == TheBlock(text, id)
    }

    /** The clock is 64 bits wide; when it wraps, the cache is emptied. */
    method Tick()
      requires timestamp < TWO_64
      modifies this
      ensures timestamp == (old(timestamp) + 1) % 0x1_0000_0000_0000_0000
      ensures entries == if timestamp == 0 then map[] else old(entries)
    {
      timestamp := (timestamp + 1) % TWO_64;
      if timestamp == 0 {
        entries := map[];
      }
    }

    method Get(key: nat, ghost text: seq<byte>) returns (r: Option<Block>)
      requires Coherent(text)
      modifies this
      ensures Coherent(text)
      ensures r == if key in old(entries) then Some(TheBlock(text, key)) else None
      ensures key !in old(entries) ==> entries == old(entries) && timestamp == old(timestamp)
      ensures key in old(entries) ==>
                && timestamp == (old(timestamp) + 1) % TWO_64
                && entries == if timestamp == 0 then map[]
                   else old(entries)[key := (old(timestamp), TheBlock(text, key))]
    {
      hide TheBlock, BlockBytes;
      if key in entries {
        var block := entries[key].1;
        ghost var was := entries;
        entries := entries[key := (timestamp, block)];
        assert entries.Keys == was.Keys;
        Tick();
        return Some(block);
      }
      return None;
    }

    /** The entry the eviction loop picks: the smallest block id, in whatever order the table is walked. */
    method Victim() returns (victim: nat)
      requires entries != map[]
      ensures victim in entries && forall id | id in entries :: victim <= id
    {
      var minTimestamp := 0;
      var minIter: Option<nat> := None;
      var rest := entries.Keys;
      while rest != {}
        invariant rest <= entries.Keys
        invariant minIter.None? ==> rest == entries.Keys
        invariant minIter.Some? ==> && minIter.value == minTimestamp && minTimestamp in entries
                                    && forall id | id in entries :: id in rest || minTimestamp <= id
        decreases |rest|
      {
        var id :| id in rest;
        rest := rest - {id};
        if minIter.None? || id <= minTimestamp {
          minTimestamp := id;
          minIter := Some(id);
        }
      }
      victim := minIter.value;
    }

    method Put(key: nat, block: Block, ghost text: seq<byte>)
      requires Coherent(text) && key !in entries && block == TheBlock(text, key)
      modifies this
      ensures Coherent(text) && timestamp == (old(timestamp) + 1) % TWO_64
      ensures timestamp == 0 ==> entries == map[]
      ensures timestamp != 0 ==> key in entries && entries[key] == (old(timestamp), block)
      ensures timestamp != 0 ==> entries.Keys <= old(entries).Keys + {key}
      ensures timestamp != 0 ==> forall id | id in old(entries) ::
                if id in entries then entries[id] == old(entries)[id]
                else |old(entries)| == MAX_ENTRIES && forall other | other in old(entries) :: id <= other
    {
      hide TheBlock, BlockBytes;
      ghost var was := entries;
      if |entries| == MAX_ENTRIES {
        var victim := Victim();
        Evicted(was, victim);
        entries := entries - {victim};
      }
      Grown(entries, key, (timestamp, block));
      entries := entries[key := (timestamp, block)];
      Tick();
    }
  }

  lemma Evicted(was: map<nat, (nat, Block)>, victim: nat)
    requires victim in was
    ensures |was - {victim}| == |was| - 1
  {
    assert (was - {victim}).Keys == was.Keys - {victim};
  }

  lemma Grown(kept: map<nat, (nat, Block)>, key: nat, entry: (nat, Block))
    requires key !in kept
    ensures |kept[key := entry]| == |kept| + 1
  {
    assert kept[key := entry].Keys == kept.Keys + {key};
  }

  class Decompressor {
    const file: File
    const codec: Codec
    const cache: Cache

    constructor (file: File, codec: Codec)
      ensures this.file == file && this.codec == codec && fresh(cache)
      ensures cache.entries == map[] && cache.timestamp == 0
    {
      this.file, this.codec := file, codec;
      this.cache := new Cache();
    }

    ghost predicate Valid(text: seq<byte>)
      reads cache
    {
      Encodes(file, codec, text) && cache.Coherent(text)
    }

    method ReadBlock(id: nat, ghost text: seq<byte>) returns (block: Block)
      requires Valid(text) && id < |file.offsets|
      modifies cache
      ensures Valid(text) && block == TheBlock(text, id)
    {
      var cached := cache.Get(id, text);
      if cached.Some? {
        return cached.value;
      }
      block := Block(id * file.blockSize, codec.inflate(file.data[file.offsets[id]..]));
      cache.Put(id, block, text);
    }
  }

  // ---- Iterators ----

  /** The current-block slot shared by an iterator and its copies. */
  class Slot {
    var current: Option<Block>

    constructor ()
      ensures current == None
    {
      current := None;
    }

    ghost predicate Coherent(text: seq<byte>)
      reads this
    {
      current.Some? ==> exists id: nat :: id * BLOCK_SIZE <= |text| && current.value == TheBlock(text, id)
    }
  }

  datatype Iterator = Iterator(pos: nat, slot: Slot)

  predicate PosInBlock(pos: nat, b: Block) {
    b.first <= pos < b.first + |b.bytes|
  }

  /** A position inside a block reads the byte of the text at that position. */
  lemma BlockReads(text: seq<byte>, id: nat, pos: nat)
    requires id * BLOCK_SIZE <= |text|
    ensures PosInBlock(pos, TheBlock(text, id)) <==> pos < |text| && pos / BLOCK_SIZE == id
    ensures PosInBlock(pos, TheBlock(text, id)) ==>
              TheBlock(text, id).first == id * BLOCK_SIZE
                && TheBlock(text, id).bytes[pos - id * BLOCK_SIZE] == text[pos]
  {
  }

  lemma EncodedSizes(f: File, c: Codec, text: seq<byte>)
    requires Encodes(f, c, text)
    ensures f.blockSize == BLOCK_SIZE && |f.offsets| == |text| / BLOCK_SIZE + 1
  {
  }

  lemma BlockOfPos(text: seq<byte>, pos: nat)
    requires pos < |text|
    ensures pos / BLOCK_SIZE < |text| / BLOCK_SIZE + 1 && (pos / BLOCK_SIZE) * BLOCK_SIZE <= |text|
  {
  }

  /** Dereferencing below the original size reads the original byte, whatever the slot held before. */
  method Dereference(dec: Decompressor, it: Iterator, ghost text: seq<byte>) returns (b: byte)
    requires dec.Valid(text) && it.slot.Coherent(text) && it.pos < |text|
    modifies dec.cache, it.slot
    ensures dec.Valid(text) && it.slot.Coherent(text) && b == text[it.pos]
  {
    hide TheBlock, BlockBytes, Encodes;
    if it.slot.current.Some? && PosInBlock(it.pos, it.slot.current.value) {
      ghost var id: nat :| id * BLOCK_SIZE <= |text| && it.slot.current.value == TheBlock(text, id);
      BlockReads(text, id, it.pos);
    } else {
      EncodedSizes(dec.file, dec.codec, text);
      var id := it.pos / dec.file.blockSize;
      BlockOfPos(text, it.pos);
      assert id < |dec.file.offsets|;
      var block := dec.ReadBlock(id, text);
      it.slot.current := Some(block);
      BlockReads(text, id, it.pos);
      assert PosInBlock(it.pos, block);
    }
    b := it.slot.current.value.bytes[it.pos - it.slot.current.value.first];
  }

  // ---- Whole runs ----

  datatype Op = Begin | Copy(i: nat) | Move(i: nat, n: int) | Read(i: nat)

  /** What a run may do: name existing iterators, and read below the original size. */
  predicate Allowed(positions: seq<nat>, ops: seq<Op>, size: nat)
    decreases |ops|
  {
    ops == [] ||
    (&& (ops[0].Begin? || ops[0].i < |positions|)
     && (ops[0].Read? ==> positions[ops[0].i] < size)
     && Allowed(Moved(positions, ops[0]), ops[1..], size))
  }

  /** The reference: iterators are plain positions. */
  function Moved(positions: seq<nat>, op: Op): seq<nat>
    requires op.Begin? || op.i < |positions|
  {
    match op
    case Begin => positions + [0]
    case Copy(i) => positions + [positions[i]]
    case Move(i, n) => positions[i := (positions[i] + n) % TWO_64]
    case Read(_) => positions
  }

  /** The reference: reads are plain indexing into the original text. */
  function Reads(text: seq<byte>, positions: seq<nat>, ops: seq<Op>): seq<byte>
    requires Allowed(positions, ops, |text|)
    decreases |ops|
  {
    if ops == [] then []
    else (if ops[0].Read? then [text[positions[ops[0].i]]] else [])
         + Reads(text, Moved(positions, ops[0]), ops[1..])
  }

  ghost predicate Tracks(its: seq<Iterator>, positions: seq<nat>) {
    |its| == |positions| && forall i | 0 <= i < |its| :: its[i].pos == positions[i]
  }

  ghost function Slots(its: seq<Iterator>): set<Slot> { set i | 0 <= i < |its| :: its[i].slot }

  ghost predicate AllCoherent(slots: set<Slot>, text: seq<byte>)
    reads slots
  {
    forall s | s in slots :: s.Coherent(text)
  }

  /** One operation on a population of iterators, some of which may share slots. */
  method Step(dec: Decompressor, its: seq<Iterator>, op: Op, ghost positions: seq<nat>, ghost text: seq<byte>)
    returns (its': seq<Iterator>, out: seq<byte>)
    requires dec.Valid(text) && Tracks(its, positions) && AllCoherent(Slots(its), text)
    requires (op.Begin? || op.i < |positions|) && (op.Read? ==> positions[op.i] < |text|)
    modifies dec.cache, Slots(its)
    ensures dec.Valid(text) && Tracks(its', Moved(positions, op)) && AllCoherent(Slots(its'), text)
    ensures fresh(Slots(its') - Slots(its))
    ensures out == if op.Read? then [text[positions[op.i]]] else []
  {
    hide TheBlock, BlockBytes, Encodes;
    its', out := its, [];
    match op {
      case Begin =>
        var slot := new Slot();
        its' := its + [Iterator(0, slot)];
        assert Slots(its') <= Slots(its) + {slot};
      case Copy(i) =>
        its' := its + [its[i]];
        assert Slots(its') <= Slots(its);
      case Move(i, n) =>
        its' := its[i := its[i].(pos := (its[i].pos + n) % TWO_64)];
        assert Slots(its') <= Slots(its);
      case Read(i) =>
        var b := Dereference(dec, its[i], text);
        out := [b];
    }
  }

  /** Any run over any number of iterators, copies included, reads what plain indexing reads. */
  method Run(dec: Decompressor, ops: seq<Op>, ghost text: seq<byte>) returns (out: seq<byte>)
    requires dec.Valid(text) && Allowed([], ops, |text|)
    modifies dec.cache
    ensures dec.Valid(text) && out == Reads(text, [], ops)
  {
    hide TheBlock, BlockBytes, Encodes, AllCoherent, Moved, Tracks, Allowed, Reads, Slots;
    out := [];
    var its: seq<Iterator> := [];
    ghost var positions: seq<nat> := [];
    var k := 0;
    assert ops[0..] == ops;
    NoIterators(text);
    while k < |ops|
      invariant 0 <= k <= |ops| && dec.Valid(text)
      invariant Tracks(its, positions) && fresh(Slots(its)) && AllCoherent(Slots(its), text)
      invariant Allowed(positions, ops[k..], |text|)
      invariant out + Reads(text, positions, ops[k..]) == Reads(text, [], ops)
    {
      RunStep(text, positions, ops, k);
      var got;
      its, got := Step(dec, its, ops[k], positions, text);
      out := out + got;
      positions := Moved(positions, ops[k]);
      k := k + 1;
    }
    RunEnds(text, positions, ops[k..]);
  }

  /** One operation of a run. */
  lemma RunStep(text: seq<byte>, positions: seq<nat>, ops: seq<Op>, k: nat)
    requires k < |ops| && Allowed(positions, ops[k..], |text|)
    ensures (ops[k].Begin? || ops[k].i < |positions|) && (ops[k].Read? ==> positions[ops[k].i] < |text|)
    ensures Allowed(Moved(positions, ops[k]), ops[k+1..], |text|)
    ensures Reads(text, positions, ops[k..]) ==
            (if ops[k].Read? then [text[positions[ops[k].i]]] else []) +
                Reads(text, Moved(positions, ops[k]), ops[k+1..])
  {
    hide Moved;
    assert ops[k..][0] == ops[k] && ops[k..][1..] == ops[k+1..];
  }

  lemma RunEnds(text: seq<byte>, positions: seq<nat>, ops: seq<Op>)
    requires ops == []
    ensures Allowed(positions, ops, |text|) && Reads(text, positions, ops) == []
  {
  }

  lemma NoIterators(text: seq<byte>)
    ensures Tracks([], []) && Slots([]) == {} && AllCoherent(Slots([]), text)
  {
  }

  /** Compress, then read through iterators: the stack behaves like the original text. */
  method CompressAndRun(text: seq<byte>, c: Codec, ops: seq<Op>) returns (out: seq<byte>)
    requires Lossless(c) && Allowed([], ops, |text|)
    ensures out == Reads(text, [], ops)
  {
    var f := Compress(text, c);
    var dec := new Decompressor(f, c);
    out := Run(dec, ops, text);
  }
}
