/**
 Where the nodes of the tree are: the text position and the parentheses of every
 slot, whatever precedes and follows its document in the collection.
 */
module Navigation {
  import opened Lexer
  import opened Succinct
  import opened Layout

  /** Number of parentheses before position `q` of the indexed text. */
  ghost function Bit(data: string, q: nat): nat
    requires q <= |data|
  {
    |Bp(data[..q])|
  }

  ghost predicate ClosedAt(data: string, q: nat) {
    q <= |data| && Closed(data[..q])
  }

  lemma SliceOfSlice<T>(s: seq<T>, a: nat, b: nat, i: nat, j: nat)
    requires a <= b <= |s| && i <= j <= b - a
    ensures s[a..b][i..j] == s[a+i..a+j]
  {
    forall k | 0 <= k < j - i
      ensures s[a..b][i..j][k] == s[a+i..a+j][k]
    {
      assert s[a..b][i..j][k] == s[a..b][i+k] == s[a+(i+k)];
    }
  }

  lemma SliceOfSum<T>(x: seq<T>, y: seq<T>, z: seq<T>)
    ensures (x + (y + z))[|x|..|x|+|y|] == y
  {
  }

  /** A piece of text after a closed prefix contributes its own parentheses. */
  lemma Chunk(data: string, q: nat, s: string)
    requires ClosedAt(data, q) && q + |s| <= |data| && data[q..q+|s|] == s && Closed(s)
    ensures ClosedAt(data, q + |s|)
    ensures Bit(data, q + |s|) == Bit(data, q) + |Bp(s)| <= |Bp(data)|
    ensures Bp(data)[Bit(data, q)..Bit(data, q + |s|)] == Bp(s)
  {
    var r := q + |s|;
    ClosedConcat(data[..q], s);
    assert data[..q] + s == data[..r];
    ClosedConcat(data[..r], data[r..]);
    assert data[..r] + data[r..] == data;
  }

  /** A structural character outside literals: its two parentheses. */
  lemma Structural(data: string, q: nat)
    requires ClosedAt(data, q) && q < |data| && IsStructural(data[q])
    ensures ClosedAt(data, q + 1) && Bit(data, q + 1) == Bit(data, q) + 2 <= |Bp(data)|
    ensures Bp(data)[Bit(data, q)] == Parens(data[q])[0]
    ensures Bp(data)[Bit(data, q) + 1] == Parens(data[q])[1]
  {
    OneStructural(data[q]);
    assert data[q..q+1] == [data[q]];
    Chunk(data, q, [data[q]]);
    var b := Bit(data, q);
    assert Bp(data)[b] == Bp(data)[b..b+2][0] && Bp(data)[b+1] == Bp(data)[b..b+2][1];
  }

  /** A structural character outside literals: `select` on the first of its nodes is its position. */
  lemma SelectStructural(data: string, q: nat)
    requires ClosedAt(data, q) && q < |data| && IsStructural(data[q])
    ensures Bit(data, q) % 2 == 0 && Bit(data, q) / 2 < Ones(Nav(data))
    ensures Select(Nav(data), Bit(data, q) / 2) == q
  {
    hide Bp, Nav, BpFrom, NavFrom, Run, Select, Ones;
    SelectParts(data, q);
    SelectRank(Nav(data), q);
  }

  /** The navigation bits up to a structural character outside literals. */
  lemma SelectParts(data: string, q: nat)
    requires ClosedAt(data, q) && q < |data| && IsStructural(data[q])
    ensures q < |Nav(data)| && Nav(data)[q] && Bit(data, q) == 2 * Ones(Nav(data)[..q])
  {
    hide BpFrom, NavFrom, Run, Ones;
    var head, c, rest := data[..q], data[q], data[q+1..];
    BpLength(Outside, head);
    NavMeaning(Outside, head);
    OneStructural(c);
    ClosedConcat(head, [c] + rest);
    ClosedConcat([c], rest);
    assert data == head + ([c] + rest);
    assert Nav(data)[..q] == Nav(head) && Nav(data)[q];
  }

  predicate OpensSlot(c: char) { c == '[' || c == '{' || c == ',' || c == ':' }

  predicate ClosesSlot(c: char) { c == ']' || c == '}' || c == ',' || c == ':' }

  /** The text of the slot stands at its position, behind a closed prefix. */
  ghost predicate Reads(data: string, p: Place) {
    && End(p) <= |data| && data[p.start..End(p)] == SlotText(p.slot)
    && PlacedSlot(p.slot) && ClosedAt(data, p.start)
  }

  /** A slot inside a container: structural characters on both sides. */
  ghost predicate Enclosed(data: string, p: Place) {
    && Reads(data, p)
    && 0 < p.start && ClosedAt(data, p.start - 1) && OpensSlot(data[p.start-1])
    && End(p) < |data| && ClosesSlot(data[End(p)])
  }

  /** `node` stands for the slot at `p`: an even node for a root, an odd one for a slot of a container. */
  ghost predicate AtPlace(data: string, p: Place, node: nat) {
    && Reads(data, p)
    && (node % 2 == 0 ==> node == Bit(data, p.start) && p.slot.pre == p.slot.post == "" && p.slot.value.Node?)
    && (node % 2 == 1 ==> Enclosed(data, p) && node == Bit(data, p.start) - 1)
  }

  lemma SlotSpan(data: string, p: Place)
    requires Reads(data, p)
    ensures ClosedAt(data, End(p))
    ensures Bit(data, End(p)) == Bit(data, p.start) + |Encode(p.slot.value)| <= |Bp(data)|
    ensures Bp(data)[Bit(data, p.start)..Bit(data, End(p))] == Encode(p.slot.value)
  {
    SlotEncodes(p.slot);
    Chunk(data, p.start, SlotText(p.slot));
  }

  /** The pair of parentheses around an enclosed slot. */
  lemma SlotParens(data: string, p: Place)
    requires Enclosed(data, p)
    ensures var node := Bit(data, p.start) - 1;
            && ClosedAt(data, End(p))
            && 0 <= node && node % 2 == 1 && Bit(data, End(p)) + 2 <= |Bp(data)| && node < Bit(data, End(p))
            && Bp(data)[node] && !Bp(data)[Bit(data, End(p))]
            && Bp(data)[Bit(data, End(p)) + 1] == (data[End(p)] == ',' || data[End(p)] == ':')
            && FindClose(Bp(data), node) == Bit(data, End(p))
            && FindOpen(Bp(data), Bit(data, End(p))) == node
  {
    hide Bp, Nav, Encode, SlotText, Text, FindClose, FindOpen, Ones, Select, Balanced, PlacedSlot;
    Structural(data, p.start - 1);
    SelectStructural(data, p.start - 1);
    SlotSpan(data, p);
    Structural(data, End(p));
    EncodeBalanced(p.slot.value);
    Matching(Bp(data), Bit(data, p.start) - 1, Encode(p.slot.value));
  }

  /** The container in the slot at `p` begins at the next even node, at its opening bracket. */
  lemma ContainerNode(data: string, p: Place, node: nat)
    requires AtPlace(data, p, node) && p.slot.value.Node?
    ensures var open := p.start + |p.slot.pre|;
            && open < |data| && data[open] == Opener(p.slot.value.kind)
            && ClosedAt(data, open) && node + node % 2 == Bit(data, open)
            && SlotPlace(p, 0).start == open + 1
  {
    hide Bp, Closed, SlotText, Text, Body, Spaces, PlacedSlot, Bit;
    var v, pre := p.slot.value, p.slot.pre;
    var open := p.start + |pre|;
    OpenerText(p.slot);
    SliceOfSlice(data, p.start, End(p), 0, |pre|);
    assert data[p.start..End(p)][|pre|] == data[open];
    PreSpaces(p.slot);
    SpacesPlain(pre);
    Chunk(data, p.start, pre);
    FirstPlace(p);
  }

  /** The text of a slot with a container begins with its whitespace and the opening bracket. */
  lemma OpenerText(s: Slot)
    requires s.value.Node?
    ensures |s.pre| < |SlotText(s)| && SlotText(s)[0..|s.pre|] == s.pre && SlotText(s)[|s.pre|] == Opener(s.value.kind)
  {
    assert SlotText(s) == s.pre + (Text(s.value) + s.post);
  }

  lemma PreSpaces(s: Slot)
    requires PlacedSlot(s)
    ensures Spaces(s.pre) && Spaces(s.post) && (s.value.Node? ==> s.value.slots != [])
  {
  }

  lemma FirstPlace(p: Place)
    requires p.slot.value.Node? && p.slot.value.slots != []
    ensures SlotPlace(p, 0).start == p.start + |p.slot.pre| + 1
  {
  }

  /** The opener and the first `k` slots, read in the indexed text. */
  lemma InContainer(data: string, p: Place, k: nat)
    requires p.slot.value.Node? && k <= |p.slot.value.slots|
    requires End(p) <= |data| && data[p.start..End(p)] == SlotText(p.slot)
    ensures var v := p.slot.value;
            var open := p.start + |p.slot.pre|;
            var head := [Opener(v.kind)] + Body(v.kind, v.slots, k);
            && open + |head| + |p.slot.post| <= End(p)
            && data[open..open+|head|] == head
            && (k == |v.slots| ==> open + |head| + |p.slot.post| == End(p))
  {
    hide Body;
    var v, pre := p.slot.value, p.slot.pre;
    var n := |v.slots|;
    var open := p.start + |pre|;
    var whole := [Opener(v.kind)] + Body(v.kind, v.slots, n);
    var head := [Opener(v.kind)] + Body(v.kind, v.slots, k);
    BodyPrefix(v.kind, v.slots, k, n);
    assert head == whole[..|head|];
    assert SlotText(p.slot) == pre + (whole + p.slot.post);
    SliceOfSum(pre, head, whole[|head|..] + p.slot.post);
    assert SlotText(p.slot) == pre + (head + (whole[|head|..] + p.slot.post));
    SliceOfSlice(data, p.start, End(p), |pre|, |pre| + |head|);
  }

  lemma {:induction false} BodyPrefix(kind: Kind, slots: seq<Slot>, i: nat, k: nat)
    requires i <= k <= |slots|
    ensures Body(kind, slots, i) <= Body(kind, slots, k)
    decreases k
  {
    if i < k {
      BodyPrefix(kind, slots, i, k - 1);
    }
  }

  lemma BodyStep(kind: Kind, slots: seq<Slot>, i: nat)
    requires i < |slots|
    ensures Body(kind, slots, i + 1) == Body(kind, slots, i) + SlotText(slots[i]) + [Follower(kind, |slots|, i)]
  {
    hide SlotText;
  }

  /** Where slot `i` of a container stands: its text and its follower. */
  lemma SlotReads(data: string, p: Place, node: nat, i: nat)
    requires AtPlace(data, p, node) && Valid(p.slot.value)
    requires p.slot.value.Node? && i < |p.slot.value.slots|
    ensures var q := SlotPlace(p, i);
            && Reads(data, q) && p.start < q.start && End(q) < End(p)
            && data[End(q)] == Follower(p.slot.value.kind, |p.slot.value.slots|, i)
    ensures i + 1 == |p.slot.value.slots| ==> End(SlotPlace(p, i)) + 1 + |p.slot.post| == End(p)
  {
    hide Bp, Nav, Encode, EncodeSlots, SlotText, Body, Valid, Text;
    var v := p.slot.value;
    var open := p.start + |p.slot.pre|;
    BodyStep(v.kind, v.slots, i);
    ContainerNode(data, p, node);
    SlotsPlaced(v);
    InContainer(data, p, i);
    InContainer(data, p, i + 1);
    var head := [Opener(v.kind)] + Body(v.kind, v.slots, i);
    var upto := [Opener(v.kind)] + Body(v.kind, v.slots, i + 1);
    var s := SlotText(v.slots[i]);
    var q := SlotPlace(p, i);
    assert upto == head + (s + [Follower(v.kind, |v.slots|, i)]);
    SliceOfSum(head, s, [Follower(v.kind, |v.slots|, i)]);
    SliceOfSlice(data, open, open + |upto|, |head|, |head| + |s|);
    assert data[End(q)] == data[open..open+|upto|][|upto|-1];
    BodyEncodes(v.kind, v.slots, i);
    Chunk(data, open, head);
  }

  /** The slots of a container are enclosed places, at the node their position gives. */
  lemma ChildPlace(data: string, p: Place, node: nat, i: nat)
    requires AtPlace(data, p, node) && Valid(p.slot.value)
    requires p.slot.value.Node? && i < |p.slot.value.slots|
    ensures var q := SlotPlace(p, i);
            && Enclosed(data, q) && Bit(data, q.start) > 0 && AtPlace(data, q, Bit(data, q.start) - 1)
            && data[End(q)] == Follower(p.slot.value.kind, |p.slot.value.slots|, i)
            && End(q) < End(p)
    ensures i > 0 ==> SlotPlace(p, i).start == End(SlotPlace(p, i - 1)) + 1
  {
    hide Bp, Nav, Encode, SlotText, Text, Valid, Body, FindClose, FindOpen, PlacedSlot, SlotPlace, Bit;
    SlotReads(data, p, node, i);
    var q := SlotPlace(p, i);
    if i == 0 {
      ContainerNode(data, p, node);
    } else {
      SlotAfter(p, i);
      SlotReads(data, p, node, i - 1);
      SlotSpan(data, SlotPlace(p, i - 1));
    }
    SlotParens(data, q);
  }

  /** Slots stand one behind the other, with one character in between. */
  lemma SlotAfter(p: Place, i: nat)
    requires p.slot.value.Node? && 0 < i < |p.slot.value.slots|
    ensures SlotPlace(p, i).start == End(SlotPlace(p, i - 1)) + 1
  {
    hide SlotText;
  }

  ghost function SlotNode(data: string, p: Place, i: nat): int
    requires p.slot.value.Node? && i < |p.slot.value.slots| && SlotPlace(p, i).start <= |data|
  {
    Bit(data, SlotPlace(p, i).start) - 1
  }

  /** The steps of a walk over the slots of a container, in either direction. */
  lemma Siblings(data: string, p: Place, node: nat, i: nat)
    requires AtPlace(data, p, node) && Valid(p.slot.value)
    requires p.slot.value.Node? && i < |p.slot.value.slots|
    ensures SlotPlace(p, i).start <= |data| && 0 <= SlotNode(data, p, i) < |Bp(data)| - 2
    ensures var self := SlotNode(data, p, i);
            && Bp(data)[self] && self < FindClose(Bp(data), self) < |Bp(data)| - 1
            && !Bp(data)[FindClose(Bp(data), self)]
            && FindOpen(Bp(data), FindClose(Bp(data), self)) == self
            && (i == 0 ==> self == node + node % 2 + 1)
    ensures var next := FindClose(Bp(data), SlotNode(data, p, i)) + 1;
            if i + 1 == |p.slot.value.slots| then !Bp(data)[next]
            else Bp(data)[next] && SlotPlace(p, i + 1).start <= |data| && next == SlotNode(data, p, i + 1)
  {
    hide Bp, Nav, Valid, Encode, SlotText, Text, Body, FindClose, FindOpen, PlacedSlot;
    var q := SlotPlace(p, i);
    ChildPlace(data, p, node, i);
    SlotParens(data, q);
    ContainerNode(data, p, node);
    if i == 0 {
      Structural(data, q.start - 1);
    }
    Structural(data, End(q));
    if i + 1 < |p.slot.value.slots| {
      ChildPlace(data, p, node, i + 1);
    }
  }

  /** The parentheses of the container itself. */
  lemma ContainerSpan(data: string, p: Place, node: nat)
    requires AtPlace(data, p, node) && Valid(p.slot.value) && p.slot.value.Node?
    ensures var self := node + node % 2;
            && self < |Bp(data)| && Bp(data)[self]
            && FindClose(Bp(data), self) == Bit(data, End(p)) - 1 < |Bp(data)|
  {
    hide Bp, Closed, SlotText, Text, Body, Spaces, PlacedSlot, Encode, EncodeSlots, FindClose, Balanced, Valid;
    var v := p.slot.value;
    ContainerNode(data, p, node);
    var open := p.start + |p.slot.pre|;
    PreSpaces(p.slot);
    OpenerText(p.slot);
    SpacesPlain(p.slot.pre);
    SlotSpan(data, p);
    SliceOfSlice(data, p.start, End(p), 0, |p.slot.pre|);
    Chunk(data, p.start, p.slot.pre);
    EncodeSlotsBalanced(v.slots, |v.slots|);
    EncodeContainer(v);
    Framed(Bp(data), Bit(data, open), EncodeSlots(v.slots, |v.slots|));
  }

  lemma EncodeContainer(v: Value)
    requires v.Node?
    ensures Encode(v) == [true] + EncodeSlots(v.slots, |v.slots|) + [false]
  {
  }

  /** The closing parenthesis of a container stands right behind that of its last slot. */
  lemma ContainerParens(data: string, p: Place, node: nat)
    requires AtPlace(data, p, node) && Valid(p.slot.value) && p.slot.value.Node?
    ensures var n := |p.slot.value.slots|;
            var self := node + node % 2;
            && n > 0 && self < |Bp(data)| && Bp(data)[self]
            && SlotPlace(p, n - 1).start <= |data| && 0 <= SlotNode(data, p, n - 1) < |Bp(data)|
            && Bp(data)[SlotNode(data, p, n - 1)]
            && FindClose(Bp(data), self) == FindClose(Bp(data), SlotNode(data, p, n - 1)) + 1
  {
    var n := |p.slot.value.slots|;
    SlotsPlaced(p.slot.value);
    ContainerSpan(data, p, node);
    ChildPlace(data, p, node, n - 1);
    var last := SlotPlace(p, n - 1);
    SlotParens(data, last);
    BehindLast(data, p, node, last);
  }

  lemma BehindLast(data: string, p: Place, node: nat, last: Place)
    requires AtPlace(data, p, node) && Valid(p.slot.value) && p.slot.value.Node?
    requires p.slot.value.slots != [] && last == SlotPlace(p, |p.slot.value.slots| - 1)
    ensures End(last) <= |data| && Bit(data, End(p)) == Bit(data, End(last)) + 2
  {
    SlotReads(data, p, node, |p.slot.value.slots| - 1);
    SlotSpan(data, last);
    PostReads(data, p);
    StructuralThenSpaces(data, End(last), p.slot.post);
  }

  lemma StructuralThenSpaces(data: string, q: nat, post: string)
    requires ClosedAt(data, q) && q + 1 + |post| <= |data| && IsStructural(data[q])
    requires data[q+1..q+1+|post|] == post && Spaces(post)
    ensures Bit(data, q + 1 + |post|) == Bit(data, q) + 2
  {
    Structural(data, q);
    SpacesPlain(post);
    Chunk(data, q + 1, post);
  }

  lemma PostReads(data: string, p: Place)
    requires End(p) <= |data| && data[p.start..End(p)] == SlotText(p.slot)
    ensures data[End(p)-|p.slot.post|..End(p)] == p.slot.post
  {
    var k := |p.slot.pre| + |Text(p.slot.value)|;
    assert SlotText(p.slot)[k..] == p.slot.post;
    SliceOfSlice(data, p.start, End(p), k, k + |p.slot.post|);
  }

  lemma Framed(bp: seq<bool>, c: nat, e: seq<bool>)
    requires c + |e| + 2 <= |bp| && bp[c..c+|e|+2] == [true] + e + [false] && Balanced(e)
    ensures bp[c] && FindClose(bp, c) == c + |e| + 1
  {
    var w := bp[c..c+|e|+2];
    assert w[0] == bp[c] && w[|e|+1] == bp[c+|e|+1];
    SliceOfSlice(bp, c, c + |e| + 2, 1, 1 + |e|);
    SliceOfSum([true], e, [false]);
    assert w == [true] + (e + [false]);
    Matching(bp, c, e);
  }
}
