/**
 The walks to the child of an object or of an array, as the index runs them, on
 every layout; and the exact layouts on which they find what a parser would.
 */
module Children {
  import opened Basics
  import opened Lexer
  import opened Succinct
  import opened Keys
  import opened Builder
  import opened Layout
  import opened Navigation

  /** The index of a text. */
  ghost predicate Indexes(ix: SemiIndex, data: string) {
    ix.nav == Nav(data) && ix.bp == Bp(data)
  }

  function GetPos(ix: SemiIndex, node: nat, offset: nat): int
    requires node / 2 < Ones(ix.nav)
  {
    Select(ix.nav, node / 2) + node % 2 - offset
  }

  function FindEnd(ix: SemiIndex, node: nat, offset: nat): int
    requires node < |ix.bp| && ix.bp[node] && FindClose(ix.bp, node) / 2 < Ones(ix.nav)
  {
    Select(ix.nav, FindClose(ix.bp, node) / 2) + (1 - node % 2) - offset
  }

  /**
   The range of a node is exactly its slot: the value with its surrounding
   whitespace for an element, and the bare container for a root.
   */
  lemma RangeOf(ix: SemiIndex, data: string, p: Place, node: nat, offset: nat)
    requires Indexes(ix, data) && AtPlace(data, p, node) && Known(p.slot.value)
    ensures node / 2 < Ones(ix.nav) && GetPos(ix, node, offset) == p.start - offset
    ensures node < |ix.bp| && ix.bp[node] && FindClose(ix.bp, node) / 2 < Ones(ix.nav)
    ensures FindEnd(ix, node, offset) == End(p) - offset
  {
    hide Bp, Nav, Valid, Text, Body, Encode, Select, Ones, SlotText, FindClose;
    if node % 2 == 1 {
      SlotParens(data, p);
      Structural(data, p.start - 1);
      SelectStructural(data, p.start - 1);
      SelectStructural(data, End(p));
    } else {
      var n := |p.slot.value.slots|;
      ContainerNode(data, p, node);
      SelectStructural(data, p.start);
      ContainerSpan(data, p, node);
      SlotsPlaced(p.slot.value);
      SlotReads(data, p, node, n - 1);
      var last := SlotPlace(p, n - 1);
      SlotSpan(data, last);
      SelectStructural(data, End(last));
      BehindLast(data, p, node, last);
    }
  }

  /** The range of every child lies strictly inside that of its container. */
  lemma RangesNested(ix: SemiIndex, data: string, p: Place, node: nat, offset: nat, i: nat)
    requires Indexes(ix, data) && AtPlace(data, p, node) && Valid(p.slot.value) && p.slot.value.Node?
             && i < |p.slot.value.slots|
    ensures SlotPlace(p, i).start <= |data| && 0 <= SlotNode(data, p, i)
    ensures HasRange(ix, node) && HasRange(ix, SlotNode(data, p, i))
    ensures var child := SlotNode(data, p, i);
            GetPos(ix, node, offset) < GetPos(ix, child, offset) <= FindEnd(ix, child, offset) < FindEnd(ix, node,
              offset)
  {
    hide Bp, Nav, Valid, Text, Body, Encode, Select, Ones, SlotText, FindClose, AtPlace, SlotPlace;
    ChildAt(data, p, node, i);
    SlotReads(data, p, node, i);
    SlotKnown(p, i);
    RangeOf(ix, data, p, node, offset);
    RangeOf(ix, data, SlotPlace(p, i), SlotNode(data, p, i), offset);
  }

  /** The ranges of siblings are disjoint and in order. */
  lemma RangesOrdered(ix: SemiIndex, data: string, p: Place, node: nat, offset: nat, i: nat, j: nat)
    requires Indexes(ix, data) && AtPlace(data, p, node) && Valid(p.slot.value) && p.slot.value.Node?
    requires i < j < |p.slot.value.slots|
    ensures SlotPlace(p, i).start <= |data| && SlotPlace(p, j).start <= |data|
    ensures 0 <= SlotNode(data, p, i) < SlotNode(data, p, j)
    ensures HasRange(ix, SlotNode(data, p, i)) && HasRange(ix, SlotNode(data, p, j))
    ensures FindEnd(ix, SlotNode(data, p, i), offset) < GetPos(ix, SlotNode(data, p, j), offset)
  {
    hide Bp, Nav, Valid, Text, Body, Encode, Select, Ones, SlotText, FindClose, AtPlace, SlotPlace;
    RangesNested(ix, data, p, node, offset, i);
    RangesNested(ix, data, p, node, offset, j);
    ChildAt(data, p, node, i);
    ChildAt(data, p, node, j);
    SlotKnown(p, i);
    SlotKnown(p, j);
    RangeOf(ix, data, SlotPlace(p, i), SlotNode(data, p, i), offset);
    RangeOf(ix, data, SlotPlace(p, j), SlotNode(data, p, j), offset);
    PlacesApart(p, i, j);
    NodesApart(data, p, node, i, j);
  }

  /** The accessor of a node can report a range. */
  predicate HasRange(ix: SemiIndex, node: nat) {
    && node / 2 < Ones(ix.nav) && node < |ix.bp| && ix.bp[node] && FindClose(ix.bp, node) / 2 < Ones(ix.nav)
  }

  lemma SlotKnown(p: Place, i: nat)
    requires Known(p.slot.value) && p.slot.value.Node? && i < |p.slot.value.slots|
    ensures Known(SlotPlace(p, i).slot.value) && SlotPlace(p, i).slot == p.slot.value.slots[i]
  {
    SlotsPlaced(p.slot.value);
  }

  lemma {:induction false} NodesApart(data: string, p: Place, node: nat, i: nat, j: nat)
    requires AtPlace(data, p, node) && Valid(p.slot.value) && p.slot.value.Node? && i < j < |p.slot.value.slots|
    ensures SlotPlace(p, i).start <= |data| && SlotPlace(p, j).start <= |data|
    ensures SlotNode(data, p, i) < SlotNode(data, p, j)
    decreases j - i
  {
    hide Bp, Nav, Valid, AtPlace, FindClose, FindOpen, SlotPlace, SlotNode;
    Siblings(data, p, node, i);
    if i + 1 < j {
      NodesApart(data, p, node, i + 1, j);
    }
  }

  /** The iterator `json` stands at position `offset` of the indexed text and reads it up to `hi`. */
  ghost predicate Window(data: string, json: string, offset: nat, hi: nat) {
    offset <= hi <= |data| && hi - offset <= |json| && data[offset..hi] == json[..hi-offset]
  }

  lemma WindowAt(data: string, json: string, offset: nat, hi: nat, q: nat)
    requires Window(data, json, offset, hi) && offset <= q < hi
    ensures json[q-offset] == data[q]
  {
    assert data[offset..hi][q-offset] == json[..hi-offset][q-offset];
  }

  /** A value of a slot: well formed, or the blank of an empty container. */
  predicate Known(v: Value) { v.Blank? || Valid(v) }

  /** What the walks assume of the node they start from. */
  ghost predicate Start(data: string, json: string, offset: nat, hi: nat, p: Place, node: nat) {
    && AtPlace(data, p, node) && Known(p.slot.value)
    && Window(data, json, offset, hi) && offset <= p.start && End(p) + node % 2 <= hi
  }

  /** The character the walks look at first: the bracket of a container, or what follows another value. */
  lemma Opening(ix: SemiIndex, data: string, json: string, offset: nat, hi: nat, p: Place, node: nat)
    requires Indexes(ix, data) && Start(data, json, offset, hi, p, node)
    ensures var v := p.slot.value;
            var even := node + node % 2;
            && even / 2 < Ones(ix.nav) && 0 <= GetPos(ix, even, offset) < |json|
            && var c := json[GetPos(ix, even, offset)];
               if v.Node? then c == Opener(v.kind) && GetPos(ix, even, offset) == p.start + |p.slot.pre| - offset
               else c != '[' && c != '{'
  {
    hide Bp, Nav, Valid, Body, Encode, Select, Ones, AtPlace, SlotText;
    if p.slot.value.Node? {
      OpeningBracket(data, p, node);
      var open := p.start + |p.slot.pre|;
      SelectStructural(data, open);
      WindowAt(data, json, offset, hi, open);
    } else {
      OpeningOther(data, p, node);
      SelectStructural(data, End(p));
      WindowAt(data, json, offset, hi, End(p));
    }
  }

  lemma OpeningBracket(data: string, p: Place, node: nat)
    requires AtPlace(data, p, node) && p.slot.value.Node?
    ensures var open := p.start + |p.slot.pre|;
            && open < End(p) <= |data| && data[open] == Opener(p.slot.value.kind)
            && ClosedAt(data, open) && node + node % 2 == Bit(data, open)
  {
    ContainerNode(data, p, node);
    assert SlotText(p.slot) == p.slot.pre + (Text(p.slot.value) + p.slot.post);
  }

  lemma OpeningOther(data: string, p: Place, node: nat)
    requires AtPlace(data, p, node) && !p.slot.value.Node?
    ensures && node % 2 == 1 && End(p) < |data| && ClosesSlot(data[End(p)])
            && ClosedAt(data, End(p)) && node + 1 == Bit(data, End(p))
  {
    SlotParens(data, p);
    SlotSpan(data, p);
  }

  /** The character behind the opening bracket closes the container only in `{}` and `[]`. */
  lemma SecondChar(data: string, json: string, offset: nat, hi: nat, p: Place, node: nat)
    requires Start(data, json, offset, hi, p, node) && p.slot.value.Node?
    ensures var v := p.slot.value;
            && v.slots != [] && SlotPlace(p, 0).start == p.start + |p.slot.pre| + 1
            && 0 <= SlotPlace(p, 0).start - offset < |json|
            && (json[SlotPlace(p, 0).start - offset] == Closer(v.kind) <==> IsEmpty(v.slots) && v.slots[0].pre == "")
  {
    hide Bp, Nav, Text, Body, Encode, AtPlace;
    var v := p.slot.value;
    SlotsPlaced(v);
    var q := SlotPlace(p, 0);
    ContainerNode(data, p, node);
    SlotReads(data, p, node, 0);
    WindowAt(data, json, offset, hi, q.start);
    var s := v.slots[0];
    if SlotText(s) == "" {
      assert s.value.Blank? by { SlotEmpty(s); }
    } else {
      assert data[q.start..End(q)][0] == data[q.start];
      FirstOfSlot(s);
    }
  }

  lemma SlotEmpty(s: Slot)
    requires PlacedSlot(s) && SlotText(s) == ""
    ensures s.value.Blank? && s.pre == ""
  {
    assert |SlotText(s)| == |s.pre| + |Text(s.value)| + |s.post|;
  }

  lemma FirstOfSlot(s: Slot)
    requires PlacedSlot(s) && SlotText(s) != "" && (s.value.Blank? ==> s.post == "")
    ensures SlotText(s)[0] != ']' && SlotText(s)[0] != '}'
    ensures s.value.Blank? ==> s.pre != ""
  {
    if s.pre != "" {
      assert SlotText(s)[0] == s.pre[0];
      assert s.pre[0] in s.pre;
    } else if !s.value.Blank? {
      assert SlotText(s)[0] == Text(s.value)[0];
      if s.value.Atom? {
        assert s.value.text[0] in s.value.text;
      }
    }
  }

  // ---- Objects ----

  /** Where the walk starts comparing member `m`: one past its slot's start, except for the first. */
  function ProbePos(p: Place, offset: nat, m: nat): int
    requires p.slot.value.Node? && 2 * m < |p.slot.value.slots|
  {
    SlotPlace(p, 2 * m).start - offset + (if m == 0 then 0 else 1)
  }

  ghost predicate ProbeMatches(json: string, p: Place, offset: nat, m: nat, key: string)
    requires p.slot.value.Node? && 2 * m < |p.slot.value.slots|
  {
    var at := ProbePos(p, offset, m);
    at >= 0 && QuoteFrom(json, at) && Spells(json, FirstQuote(json, at) + 1, key)
  }

  /** The first member at or after `m` that the walk accepts. */
  ghost function WalkIndex(json: string, p: Place, offset: nat, m: nat, key: string): (r: nat)
    requires p.slot.value.Node? && |p.slot.value.slots| % 2 == 0 && 2 * m <= |p.slot.value.slots|
    ensures m <= r <= |p.slot.value.slots| / 2
    ensures forall i | m <= i < r :: !ProbeMatches(json, p, offset, i, key)
    ensures 2 * r < |p.slot.value.slots| ==> ProbeMatches(json, p, offset, r, key)
    decreases |p.slot.value.slots| - 2 * m
  {
    if 2 * m == |p.slot.value.slots| || ProbeMatches(json, p, offset, m, key) then m
    else WalkIndex(json, p, offset, m + 1, key)
  }

  /** The slot the object walk ends at. */
  ghost function ObjectWalk(json: string, p: Place, offset: nat, key: string): (r: Option<nat>)
    requires Known(p.slot.value)
    ensures r.Some? ==> p.slot.value.Node? && r.value < |p.slot.value.slots|
  {
    var v := p.slot.value;
    if !v.Node? || v.kind.Array? || IsEmpty(v.slots) then None
    else
      var m := WalkIndex(json, p, offset, 0, key);
      if 2 * m == |v.slots| then None else Some(2 * m + 1)
  }

  /** An object with only blanks in it: the walk takes the blank for a key. */
  predicate BlankObject(v: Value) { v.Node? && v.kind.Object? && IsEmpty(v.slots) && v.slots[0].pre != "" }

  /** The text behind such an object happens to spell the key. */
  ghost predicate SpelledBehind(json: string, p: Place, offset: nat, key: string) {
    BlankObject(p.slot.value) && ProbeMatches(json, p, offset, 0, key)
  }

  /** Where the literal of key `m` stands in the iterator's text, and a quote at or behind the probe. */
  lemma KeyText(data: string, json: string, offset: nat, hi: nat, p: Place, node: nat, m: nat)
    requires Start(data, json, offset, hi, p, node) && p.slot.value.Node? && p.slot.value.kind.Object?
    requires !IsEmpty(p.slot.value.slots) && 2 * m < |p.slot.value.slots|
    ensures var s := p.slot.value.slots[2*m];
            var q := SlotPlace(p, 2 * m).start - offset;
            && s.value.Str? && q >= 0 && q + |SlotText(s)| <= |json|
            && json[q..q+|SlotText(s)|] == SlotText(s)
            && QuoteFrom(json, ProbePos(p, offset, m))
  {
    hide Bp, Nav, Valid, Body, Encode, AtPlace, Closed, SlotText, Text, Window, QuoteFrom;
    var v := p.slot.value;
    ObjectKeys(v);
    SlotReads(data, p, node, 2 * m);
    var s := v.slots[2*m];
    var q := SlotPlace(p, 2 * m);
    WindowText(data, json, offset, hi, q.start, End(q));
    LiteralText(s);
    QuoteAt(json, q.start - offset, SlotText(s), |s.pre| + 1 + |s.value.raw|, ProbePos(p, offset, m));
  }

  lemma WindowText(data: string, json: string, offset: nat, hi: nat, a: nat, b: nat)
    requires Window(data, json, offset, hi) && offset <= a <= b <= hi
    ensures b <= |data| && b - offset <= |json| && json[a-offset..b-offset] == data[a..b]
  {
    SliceOfSlice(data, offset, hi, a - offset, b - offset);
    SliceOfSlice(json, 0, hi - offset, a - offset, b - offset);
    assert json[0..hi-offset] == json[..hi-offset];
  }

  lemma QuoteAt(json: string, i: nat, t: string, k: nat, from: nat)
    requires k < |t| && i + |t| <= |json| && json[i..i+|t|] == t && t[k] == '"' && from <= i + k
    ensures QuoteFrom(json, from)
  {
    assert json[i..i+|t|][k] == json[i+k];
  }

  /** A key probed from outside its literal is compared with exactly that literal. */
  lemma ProbeExact(data: string, json: string, offset: nat, hi: nat, p: Place, node: nat, m: nat, key: string)
    requires Start(data, json, offset, hi, p, node) && p.slot.value.Node? && p.slot.value.kind.Object?
    requires !IsEmpty(p.slot.value.slots) && 2 * m < |p.slot.value.slots|
    requires m == 0 || p.slot.value.slots[2*m].pre != ""
    requires '"' !in key
    ensures p.slot.value.slots[2*m].value.Str? && ValidRaw(p.slot.value.slots[2*m].value.raw)
    ensures ProbeMatches(json, p, offset, m, key) <==> Decode(p.slot.value.slots[2*m].value.raw) == key
  {
    hide Bp, Nav, Valid, Text, Body, Encode, AtPlace, SlotText, Spells, Decode, ValidRaw;
    var v := p.slot.value;
    ObjectKeys(v);
    KeyText(data, json, offset, hi, p, node, m);
    var s := v.slots[2*m];
    var q := SlotPlace(p, 2 * m).start - offset;
    LiteralIn(json, q, s, ProbePos(p, offset, m));
    SpellsDecodes(json, q + |s.pre| + 1, s.value.raw, key);
  }

  lemma LiteralIn(json: string, q: nat, s: Slot, at: nat)
    requires Spaces(s.pre) && s.value.Str?
    requires q + |SlotText(s)| <= |json| && json[q..q+|SlotText(s)|] == SlotText(s)
    requires q <= at <= q + |s.pre|
    ensures var i := q + |s.pre| + 1;
            var raw := s.value.raw;
            && i + |raw| < |json| && json[i..i+|raw|] == raw && json[i+|raw|] == '"'
            && QuoteFrom(json, at) && FirstQuote(json, at) + 1 == i
  {
    hide SlotText, FirstQuote;
    var raw := s.value.raw;
    var i := q + |s.pre| + 1;
    var t := SlotText(s);
    LiteralText(s);
    SliceOfSlice(json, q, q + |t|, |s.pre| + 1, |s.pre| + 1 + |raw|);
    assert json[q..q+|t|][|s.pre|] == json[i-1];
    assert json[q..q+|t|][|s.pre| + 1 + |raw|] == json[i+|raw|];
    forall j | at <= j < i - 1
      ensures json[j] != '"'
    {
      assert json[q..q+|t|][j-q] == json[j];
      assert t[j-q] == s.pre[j-q] && s.pre[j-q] in s.pre;
    }
    assert json[i-1] == '"';
  }

  /** The parts of the text of a slot with a literal. */
  lemma LiteralText(s: Slot)
    requires s.value.Str?
    ensures var t, n, raw := SlotText(s), |s.pre|, s.value.raw;
            && n + |raw| + 2 <= |t| && t[..n] == s.pre && t[n] == '"' && t[n+1..n+1+|raw|] == raw && t[n+1+|raw|] == '"'
            && forall j | 0 <= j < n :: t[j] == s.pre[j]
  {
    var raw := s.value.raw;
    assert SlotText(s) == (s.pre + "\"") + (raw + ("\"" + s.post));
    SliceOfSum(s.pre + "\"", raw, "\"" + s.post);
  }

  /** The state of the object walk before member `m`. */
  ghost predicate KeyCursor(bp: seq<bool>, data: string, p: Place, offset: nat, m: nat, curNode: nat, curNodePos: int) {
    && p.slot.value.Node? && 2 * m <= |p.slot.value.slots| && curNode < |bp|
    && if 2 * m == |p.slot.value.slots| then !bp[curNode]
       else
         && bp[curNode] && SlotPlace(p, 2 * m).start <= |data| && curNode == SlotNode(data, p, 2 * m)
         && curNodePos == ProbePos(p, offset, m)
  }

  lemma ObjectBegins(data: string, json: string, offset: nat, hi: nat, p: Place, node: nat)
    requires Start(data, json, offset, hi, p, node) && p.slot.value.Node? && p.slot.value.kind.Object?
    ensures !IsEmpty(p.slot.value.slots) ==> |p.slot.value.slots| % 2 == 0
    ensures KeyCursor(Bp(data), data, p, offset, 0, node + node % 2 + 1, p.start + |p.slot.pre| + 1 - offset)
  {
    hide Bp, Nav, Valid, Text, Encode, AtPlace, SlotText;
    if !IsEmpty(p.slot.value.slots) {
      ObjectKeys(p.slot.value);
    }
    SlotsPlaced(p.slot.value);
    Siblings(data, p, node, 0);
  }

  /** The key of member `m` and the node of its value. */
  lemma ObjectStep(data: string, json: string, offset: nat, hi: nat, p: Place, node: nat,
                   m: nat, curNode: nat, curNodePos: int)
    requires Start(data, json, offset, hi, p, node) && p.slot.value.Node? && p.slot.value.kind.Object?
    requires !IsEmpty(p.slot.value.slots) && |p.slot.value.slots| % 2 == 0
    requires KeyCursor(Bp(data), data, p, offset, m, curNode, curNodePos) && Bp(data)[curNode]
    ensures 2 * m + 1 < |p.slot.value.slots| && curNodePos >= 0 && QuoteFrom(json, curNodePos)
    ensures curNodePos == ProbePos(p, offset, m)
    ensures var value := FindClose(Bp(data), curNode) + 1;
            && SlotPlace(p, 2 * m + 1).start <= |data| && value == SlotNode(data, p, 2 * m + 1)
            && value < |Bp(data)| && Bp(data)[value] && AtPlace(data, SlotPlace(p, 2 * m + 1), value)
  {
    hide Bp, Nav, Valid, Text, Body, Encode, AtPlace, SlotText, Select, Ones, FindClose, QuoteFrom, SlotPlace;
    Siblings(data, p, node, 2 * m);
    ChildPlace(data, p, node, 2 * m + 1);
    KeyText(data, json, offset, hi, p, node, m);
  }

  lemma ObjectNext(ix: SemiIndex, data: string, offset: nat, p: Place, node: nat, m: nat)
    requires Indexes(ix, data) && AtPlace(data, p, node) && Valid(p.slot.value)
    requires p.slot.value.Node? && 2 * m + 1 < |p.slot.value.slots| && |p.slot.value.slots| % 2 == 0
    requires SlotPlace(p, 2 * m + 1).start <= |data| && 0 <= SlotNode(data, p, 2 * m + 1) < |ix.bp|
    requires ix.bp[SlotNode(data, p, 2 * m + 1)]
    ensures var next := FindClose(ix.bp, SlotNode(data, p, 2 * m + 1)) + 1;
            && next / 2 < Ones(ix.nav)
            && KeyCursor(ix.bp, data, p, offset, m + 1, next, GetPos(ix, next, offset) + 1)
  {
    hide Bp, Nav, Valid, Text, Body, Encode, AtPlace, SlotText, Select, Ones, FindClose, SlotPlace;
    Siblings(data, p, node, 2 * m + 1);
    NextPos(ix, data, p, node, m);
  }

  /**
   The object walk. On every layout it ends at the first member it accepts, at the node
   of its value. In an object with only blanks in it, it accepts when the text behind
   spells the key, and returns a closing parenthesis; when it does not accept there, it
   asks for the partner of that parenthesis, which no structure promises.
   */
  method GetObjectChild(ix: SemiIndex, json: string, node0: nat, offset: nat, key: string,
                        ghost data: string, ghost hi: nat, ghost p: Place)
    returns (found: bool, child: nat)
    requires Indexes(ix, data) && Start(data, json, offset, hi, p, node0)
    requires BlankObject(p.slot.value) ==> SpelledBehind(json, p, offset, key)
    ensures var w := ObjectWalk(json, p, offset, key);
            if BlankObject(p.slot.value) then found && child < |ix.bp| && !ix.bp[child]
            else if w.Some? then
              && found && SlotPlace(p, w.value).start <= |data| && child == SlotNode(data, p, w.value)
              && AtPlace(data, SlotPlace(p, w.value), child)
            else !found
  {
    hide Bp, Nav, Valid, Text, Body, Encode, AtPlace, SlotText, Spells, Select, Ones, FindClose, SlotPlace, QuoteFrom,
         Window, SlotNode, GetPos, ProbePos, KeyCursor;
    ghost var v := p.slot.value;
    Opening(ix, data, json, offset, hi, p, node0);
    var node := node0 + node0 % 2;
    var openingPos := GetPos(ix, node, offset);
    child := node0;
    if json[openingPos] != '{' {
      return false, child;
    }
    SecondChar(data, json, offset, hi, p, node0);
    if json[openingPos + 1] == '}' {
      return false, child;
    }
    ObjectBegins(data, json, offset, hi, p, node0);
    var curNode: nat := node + 1;
    var curNodePos := openingPos + 1;
    ghost var m, blank := 0, BlankObject(v);
    CursorEnd(ix.bp, data, p, offset, m, curNode, curNodePos);
    while true
      invariant 2 * m <= |v.slots| && (blank ==> m == 0)
      invariant !blank ==>
                  |v.slots| % 2 == 0 && WalkIndex(json, p, offset, m, key) == WalkIndex(json, p, offset, 0, key)
      invariant curNode < |ix.bp| && KeyCursor(ix.bp, data, p, offset, m, curNode, curNodePos)
      decreases |v.slots| - 2 * m
    {
      CursorEnd(ix.bp, data, p, offset, m, curNode, curNodePos);
      if !ix.bp[curNode] {
        return false, child;
      }
      if blank {
        BlankStep(data, json, offset, p, node0, key, curNode, curNodePos);
      } else {
        ObjectStep(data, json, offset, hi, p, node0, m, curNode, curNodePos);
      }
      var curNodeEnd := FindClose(ix.bp, curNode);
      var curNodeValBegin := curNodeEnd + 1;
      var matched := CheckKey(json, key, curNodePos);
      if matched {
        return true, curNodeValBegin;
      }
      var curNodeValEnd := FindClose(ix.bp, curNodeValBegin);
      curNode := curNodeValEnd + 1;
      ObjectNext(ix, data, offset, p, node0, m);
      curNodePos := GetPos(ix, curNode, offset) + 1;
      m := m + 1;
      CursorEnd(ix.bp, data, p, offset, m, curNode, curNodePos);
    }
  }

  /** The only turn of the walk over an object with only blanks in it. */
  lemma BlankStep(data: string, json: string, offset: nat, p: Place, node: nat, key: string, curNode: nat,
      curNodePos: int)
    requires AtPlace(data, p, node) && Known(p.slot.value) && SpelledBehind(json, p, offset, key)
    requires KeyCursor(Bp(data), data, p, offset, 0, curNode, curNodePos)
    ensures curNodePos >= 0 && QuoteFrom(json, curNodePos) && Spells(json, FirstQuote(json, curNodePos) + 1, key)
    ensures var value := FindClose(Bp(data), curNode) + 1;
            value < |Bp(data)| && !Bp(data)[value]
  {
    hide Bp, Nav, Valid, Text, Encode, AtPlace, SlotText, Spells;
    Siblings(data, p, node, 0);
  }

  lemma CursorEnd(bp: seq<bool>, data: string, p: Place, offset: nat, m: nat, curNode: nat, curNodePos: int)
    requires KeyCursor(bp, data, p, offset, m, curNode, curNodePos)
    ensures p.slot.value.Node? && 2 * m <= |p.slot.value.slots| && curNode < |bp|
    ensures bp[curNode] <==> 2 * m < |p.slot.value.slots|
  {
  }

  lemma NextPos(ix: SemiIndex, data: string, p: Place, node: nat, m: nat)
    requires Indexes(ix, data) && AtPlace(data, p, node) && Valid(p.slot.value)
    requires p.slot.value.Node? && 2 * m + 1 < |p.slot.value.slots|
    ensures SlotPlace(p, 2 * m + 1).start <= |data| && 0 <= SlotNode(data, p, 2 * m + 1) < |ix.bp|
            && ix.bp[SlotNode(data, p, 2 * m + 1)]
    ensures var next := FindClose(ix.bp, SlotNode(data, p, 2 * m + 1)) + 1;
            && next / 2 < Ones(ix.nav)
            && (2 * m + 2 < |p.slot.value.slots| ==> GetPos(ix, next, 0) == SlotPlace(p, 2 * m + 2).start)
  {
    hide Bp, Nav, Valid, Text, Body, Encode, Select, Ones, SlotText, AtPlace;
    var q := SlotPlace(p, 2 * m + 1);
    Siblings(data, p, node, 2 * m + 1);
    ChildPlace(data, p, node, 2 * m + 1);
    SlotParens(data, q);
    SelectStructural(data, End(q));
    if 2 * m + 2 < |p.slot.value.slots| {
      ChildPlace(data, p, node, 2 * m + 2);
    }
  }

  /** Members up to `k` are all written with whitespace in front of the key, the first one excepted. */
  predicate SpacedUpTo(slots: seq<Slot>, k: nat) {
    forall i | 0 < i <= k && 2 * i < |slots| :: slots[2*i].pre != ""
  }

  /** The walk accepts the member a parser finds, and none before it. */
  ghost predicate AcceptsFirst(json: string, p: Place, offset: nat, key: string)
    requires p.slot.value.Node? && Members(p.slot.value.slots)
  {
    var f := KeyIndex(p.slot.value.slots, key, 0);
    && (2 * f < |p.slot.value.slots| ==> ProbeMatches(json, p, offset, f, key))
    && forall i | 0 <= i < f :: !ProbeMatches(json, p, offset, i, key)
  }

  /**
   The object walk agrees with a parser exactly when it accepts the member a parser
   finds and none before it. For a key without a quote that comes down to the members
   written without whitespace before their keys; in `{}` there is nothing to accept.
   */
  lemma ObjectWalkExact(data: string, json: string, offset: nat, hi: nat, p: Place, node: nat, key: string)
    requires Start(data, json, offset, hi, p, node) && p.slot.value.Node? && p.slot.value.kind.Object?
    requires !BlankObject(p.slot.value)
    ensures IsEmpty(p.slot.value.slots) ==> ObjectWalk(json, p, offset, key) == ChildSlot(p.slot.value, AtKey(key))
    ensures !IsEmpty(p.slot.value.slots) ==>
              && Members(p.slot.value.slots)
              && (ObjectWalk(json, p, offset, key) == ChildSlot(p.slot.value, AtKey(key)) <==>
                   AcceptsFirst(json, p, offset, key))
    ensures !IsEmpty(p.slot.value.slots) && '"' !in key ==>
              var slots := p.slot.value.slots;
              && Members(slots)
              && (ObjectWalk(json, p, offset, key) == ChildSlot(p.slot.value, AtKey(key)) <==>
                   var f := KeyIndex(slots, key, 0);
                   && (f > 0 && 2 * f < |slots| && slots[2*f].pre == "" ==> ProbeMatches(json, p, offset, f, key))
                   && forall i | 0 < i < f && slots[2*i].pre == "" :: !ProbeMatches(json, p, offset, i, key))
  {
    hide Bp, Nav, Valid, Text, Body, Encode, AtPlace, SlotText, ProbeMatches, Decode, ValidRaw;
    var v := p.slot.value;
    if !IsEmpty(v.slots) {
      ObjectKeys(v);
      var f := KeyIndex(v.slots, key, 0);
      if '"' !in key {
        forall i | 0 <= i < |v.slots| / 2 && (i == 0 || v.slots[2*i].pre != "")
          ensures ProbeMatches(json, p, offset, i, key) <==> Decode(v.slots[2*i].value.raw) == key
        {
          ProbeExact(data, json, offset, hi, p, node, i, key);
        }
      }
    }
  }

  /** A key that cannot continue what stands behind a literal. */
  predicate Ordinary(key: string) {
    '"' !in key && (key == "" || (!IsSpace(key[0]) && key[0] != ':'))
  }

  /** Without whitespace before the key, the probe starts inside the literal and misses its opening quote. */
  lemma TightProbe(data: string, json: string, offset: nat, hi: nat, p: Place, node: nat, m: nat, key: string)
    requires Start(data, json, offset, hi, p, node) && p.slot.value.Node? && p.slot.value.kind.Object?
    requires !IsEmpty(p.slot.value.slots) && 0 < 2 * m < |p.slot.value.slots|
    requires p.slot.value.slots[2*m].pre == ""
    requires Ordinary(key)
    ensures p.slot.value.slots[2*m].value.Str? && ValidRaw(p.slot.value.slots[2*m].value.raw)
    ensures var raw := p.slot.value.slots[2*m].value.raw;
            ProbeMatches(json, p, offset, m, key) <==> KeyBehindQuote(raw, key)
  {
    hide Bp, Nav, Valid, Text, Body, Encode, AtPlace, SlotText, Spells, KeyBehindQuote, ValidRaw, SlotPlace, Window;
    var s := p.slot.value.slots[2*m];
    ObjectKeys(p.slot.value);
    KeyText(data, json, offset, hi, p, node, m);
    KeyFollowed(data, json, offset, hi, p, node, m);
    var q := SlotPlace(p, 2 * m).start - offset;
    LiteralIn(json, q, s, q);
    SpellsInside(json, q + 1, s.value.raw, key);
  }

  /** Comparing from inside a literal: what counts is the rest behind its first quote. */
  lemma SpellsInside(json: string, i: nat, raw: string, key: string)
    requires ValidRaw(raw) && i + |raw| + 1 < |json| && json[i..i+|raw|] == raw && json[i+|raw|] == '"'
    requires IsSpace(json[i+|raw|+1]) || json[i+|raw|+1] == ':'
    requires Ordinary(key)
    ensures QuoteFrom(json, i) && (Spells(json, FirstQuote(json, i) + 1, key) <==> KeyBehindQuote(raw, key))
  {
    if '"' in raw {
      hide *;
      SpellsBehindQuote(json, i, raw, key);
    } else {
      FirstQuoteIn(json, i, raw, |raw|);
    }
  }

  lemma SpellsBehindQuote(json: string, i: nat, raw: string, key: string)
    requires ValidRaw(raw) && i + |raw| < |json| && json[i..i+|raw|] == raw && json[i+|raw|] == '"'
    requires '"' in raw && '"' !in key
    ensures QuoteFrom(json, i) && (Spells(json, FirstQuote(json, i) + 1, key) <==> KeyBehindQuote(raw, key))
  {
    hide Spells, Decode, ValidRaw, FirstQuote, AfterQuote;
    AfterQuoteShorter(raw);
    BehindQuoteIn(json, i, raw);
    SpellsDecodes(json, FirstQuote(json, i) + 1, AfterQuote(raw), key);
  }

  /** The first quote of a literal is the first one in the text around it, with the same text behind it. */
  lemma BehindQuoteIn(json: string, i: nat, raw: string)
    requires i + |raw| < |json| && json[i..i+|raw|] == raw && '"' in raw
    ensures QuoteFrom(json, i) && FirstQuote(json, i) == i + FirstQuote(raw, 0)
    ensures var f := FirstQuote(json, i) + 1;
            f + |AfterQuote(raw)| == i + |raw| && json[f..f+|AfterQuote(raw)|] == AfterQuote(raw)
  {
    hide FirstQuote;
    var f := FirstQuote(raw, 0);
    assert json[i..i+|raw|][f] == json[i+f];
    FirstQuoteIn(json, i, raw, f);
    SliceOfSlice(json, i, i + |raw|, f + 1, |raw|);
    assert AfterQuote(raw) == raw[f+1..|raw|];
  }

  lemma FirstQuoteIn(json: string, i: nat, raw: string, f: nat)
    requires f <= |raw| && i + |raw| < |json| && json[i..i+|raw|] == raw && json[i+f] == '"'
    requires forall j | 0 <= j < f :: raw[j] != '"'
    ensures QuoteFrom(json, i) && FirstQuote(json, i) == i + f
  {
    forall j | i <= j < i + f
      ensures json[j] != '"'
    {
      assert json[i..i+|raw|][j-i] == json[j];
    }
  }

  /** The character behind a key literal is whitespace or the colon. */
  lemma KeyFollowed(data: string, json: string, offset: nat, hi: nat, p: Place, node: nat, m: nat)
    requires Start(data, json, offset, hi, p, node) && p.slot.value.Node? && p.slot.value.kind.Object?
    requires !IsEmpty(p.slot.value.slots) && 2 * m < |p.slot.value.slots| && p.slot.value.slots[2*m].value.Str?
    ensures var s := p.slot.value.slots[2*m];
            var i := SlotPlace(p, 2 * m).start - offset + |s.pre| + |s.value.raw| + 2;
            0 <= i < |json| && (IsSpace(json[i]) || json[i] == ':')
  {
    hide Bp, Nav, Valid, Body, Encode, AtPlace, Closed, SlotText, Text, SlotPlace, QuoteFrom;
    ObjectKeys(p.slot.value);
    SlotReads(data, p, node, 2 * m);
    KeyText(data, json, offset, hi, p, node, m);
    var s := p.slot.value.slots[2*m];
    var place := SlotPlace(p, 2 * m);
    SlotPlaceSlot(p, 2 * m);
    var q := place.start - offset;
    var k := |s.pre| + |s.value.raw| + 2;
    LiteralTail(s);
    if s.post == "" {
      WindowAt(data, json, offset, hi, End(place));
    } else {
      assert s.post[0] in s.post;
      assert json[q..q+|SlotText(s)|][k] == json[q+k];
    }
  }

  lemma SlotPlaceSlot(p: Place, i: nat)
    requires p.slot.value.Node? && i < |p.slot.value.slots|
    ensures SlotPlace(p, i).slot == p.slot.value.slots[i]
  {
  }

  /** What stands behind the literal of a slot. */
  lemma LiteralTail(s: Slot)
    requires s.value.Str?
    ensures var k := |s.pre| + |s.value.raw| + 2;
            |SlotText(s)| == k + |s.post| && (s.post != "" ==> SlotText(s)[k] == s.post[0])
  {
    assert SlotText(s) == s.pre + ("\"" + s.value.raw + "\"") + s.post;
  }

  /**
   For a key that begins with neither whitespace nor a colon, the object walk agrees
   with a parser exactly when the member a parser finds is the first one or has
   whitespace before its key, and no earlier key written without such whitespace
   has the query key behind its first escaped quote.
   */
  lemma ObjectWalkOrdinary(data: string, json: string, offset: nat, hi: nat, p: Place, node: nat, key: string)
    requires Start(data, json, offset, hi, p, node)
    requires Ordinary(key)
    requires p.slot.value.Node? && p.slot.value.kind.Object? && !IsEmpty(p.slot.value.slots)
    ensures var slots := p.slot.value.slots;
            && Members(slots)
            && (ObjectWalk(json, p, offset, key) == ChildSlot(p.slot.value, AtKey(key)) <==>
                 var f := KeyIndex(slots, key, 0);
                 && (f == 0 || 2 * f == |slots| || slots[2*f].pre != "")
                 && forall i | 0 < i < f && slots[2*i].pre == "" :: !KeyBehindQuote(slots[2*i].value.raw, key))
  {
    hide Bp, Nav, Valid, Text, Body, Encode, AtPlace, SlotText, ProbeMatches, Decode, ValidRaw, AfterQuote;
    var v := p.slot.value;
    ObjectKeys(v);
    ObjectWalkExact(data, json, offset, hi, p, node, key);
    forall i | 0 < i < |v.slots| / 2 && v.slots[2*i].pre == ""
      ensures ProbeMatches(json, p, offset, i, key) <==> KeyBehindQuote(v.slots[2*i].value.raw, key)
      ensures Decode(v.slots[2*i].value.raw) == key ==> !ProbeMatches(json, p, offset, i, key)
    {
      TightProbe(data, json, offset, hi, p, node, i, key);
      if '"' in v.slots[2*i].value.raw {
        AfterQuoteShorter(v.slots[2*i].value.raw);
      }
    }
  }

  /** The document `{"a":1,"b":2}`. */
  function TightDocument(): Value {
    Node(Object, [Slot("", Str("a"), ""), Slot("", Atom("1"), ""), Slot("", Str("b"), ""), Slot("", Atom("2"), "")])
  }

  lemma TightDocumentValid()
    ensures var v := TightDocument();
            && Valid(v) && ValidRaw("a") && ValidRaw("b") && Decode("a") == "a" && Decode("b") == "b"
  {
    var slots := TightDocument().slots;
    assert ValidRaw("") && "a"[1..] == "" && "b"[1..] == "";
    assert ValidAtom("1") && ValidAtom("2") && ValidRaw("a") && ValidRaw("b");
    assert forall i | 0 <= i < 4 :: ValidSlot(slots[i]);
  }

  /** Its member `"b"` is not found: nothing separates the key from the comma. */
  lemma TightMemberMissed()
    ensures Valid(TightDocument()) && ChildSlot(TightDocument(), AtKey("b")) == Some(3)
    ensures ObjectWalk(Text(TightDocument()), RootPlace(TightDocument()), 0, "b") == None
  {
    var v := TightDocument();
    TightDocumentValid();
    var t, p := Text(v), RootPlace(v);
    assert SlotText(p.slot) == t && t[..0] == "" && t[0..|t|] == t[..|t|];
    assert Bit(t, 0) == 0;
    assert Start(t, t, 0, |t|, p, 0);
    assert v.slots[2*0].value.raw == "a" && v.slots[2*1].value.raw == "b";
    assert KeyIndex(v.slots, "b", 1) == 1 && KeyIndex(v.slots, "b", 0) == 1;
    hide Bp, Nav, Valid, Text, Body, Encode, AtPlace, SlotText, ProbeMatches, Decode, ValidRaw, AfterQuote, Start,
         RootPlace;
    ProbeExact(t, t, 0, |t|, p, 0, 0, "b");
    TightProbe(t, t, 0, |t|, p, 0, 1, "b");
    assert WalkIndex(t, p, 0, 1, "b") == WalkIndex(t, p, 0, 2, "b") == 2;
  }

  /**
   In an empty object written with inner whitespace the walk takes the blank slot for
   a key; the node it would look up as the value is a closing parenthesis.
   */
  lemma BlankObjectHasNoValueNode(data: string, p: Place, node: nat)
    requires AtPlace(data, p, node) && Valid(p.slot.value) && p.slot.value.Node? && IsEmpty(p.slot.value.slots)
    ensures var key := node + node % 2 + 1;
            && key < |Bp(data)| && Bp(data)[key]
            && FindClose(Bp(data), key) + 1 < |Bp(data)| && !Bp(data)[FindClose(Bp(data), key) + 1]
  {
    assert |p.slot.value.slots| == 1;
    hide *;
    Siblings(data, p, node, 0);
  }

  /**
   On every such object, when the text behind it spells the key, the walk reports a
   member where a parser finds none, and gives a closing parenthesis for its node.
   */
  method BlankObjectFound(ix: SemiIndex, json: string, node: nat, offset: nat, key: string,
                          ghost data: string, ghost hi: nat, ghost p: Place)
    returns (found: bool, child: nat)
    requires Indexes(ix, data) && Start(data, json, offset, hi, p, node) && SpelledBehind(json, p, offset, key)
    ensures found && child < |ix.bp| && !ix.bp[child]
    ensures Valid(p.slot.value) && ChildSlot(p.slot.value, AtKey(key)) == None
  {
    found, child := GetObjectChild(ix, json, node, offset, key, data, hi, p);
  }

  /** The document `[{ },"a"]`. */
  function BlankDocument(): Value {
    Node(Array, [Slot("", Node(Object, [Slot(" ", Blank, "")]), ""), Slot("", Str("a"), "")])
  }

  /** Behind its first element the text spells `a`, so the lookup of that key in `{ }` succeeds. */
  lemma BlankDocumentSpells()
    ensures Valid(BlankDocument())
    ensures var p := SlotPlace(RootPlace(BlankDocument()), 0);
            SpelledBehind(Text(BlankDocument()), p, 0, "a")
  {
    var v := BlankDocument();
    var e := v.slots[0].value;
    assert ValidRaw("") && "a"[1..] == "" && ValidRaw("a");
    assert IsEmpty(e.slots) && Valid(e);
    assert forall i | 0 <= i < 2 :: ValidSlot(v.slots[i]);
    BlankDocumentText();
    var json := Text(v);
    assert json[5] == '"' && json[6] == 'a' && json[7] == '"';
    assert FirstQuote(json, 2) == 5;
    assert Spells(json, 7, "");
    assert Spells(json, 6, "a");
  }

  lemma BlankDocumentText()
    ensures Text(BlankDocument()) == "[{ },\"a\"]"
    ensures var p := SlotPlace(RootPlace(BlankDocument()), 0); ProbePos(p, 0, 0) == 2
  {
    var v := BlankDocument();
    var e := v.slots[0].value;
    assert Body(Object, e.slots, 0) == "" && Body(Object, e.slots, 1) == " }";
    assert Text(e) == "{ }";
    assert Body(Array, v.slots, 0) == "" && Body(Array, v.slots, 1) == "{ },";
    assert Text(v.slots[1].value) == "\"a\"";
    assert Body(Array, v.slots, 2) == "{ },\"a\"]";
  }

  // ---- Arrays ----

  /** The slot the array walk ends at. An empty array with inner whitespace counts as one element. */
  ghost function ArrayWalk(v: Value, idx: int): (r: Option<nat>)
    ensures r.Some? ==> v.Node? && r.value < |v.slots|
  {
    if !v.Node? || v.kind.Object? || (IsEmpty(v.slots) && v.slots[0].pre == "") then None
    else ArraySlot(|v.slots|, idx)
  }

  lemma ChildAt(data: string, p: Place, node: nat, i: nat)
    requires AtPlace(data, p, node) && Valid(p.slot.value)
    requires p.slot.value.Node? && i < |p.slot.value.slots|
    ensures SlotPlace(p, i).start <= |data| && SlotNode(data, p, i) >= 0
    ensures AtPlace(data, SlotPlace(p, i), SlotNode(data, p, i))
  {
    ChildPlace(data, p, node, i);
  }

  /** What the array walk knows before its loops: it fails at once, or counts slots from either end. */
  lemma ArrayEntry(ix: SemiIndex, data: string, json: string, offset: nat, hi: nat, p: Place, node: nat, idx: int)
    requires Indexes(ix, data) && Start(data, json, offset, hi, p, node)
    ensures var v, even := p.slot.value, node + node % 2;
            && even / 2 < Ones(ix.nav) && 0 <= GetPos(ix, even, offset) < |json|
            && var at := GetPos(ix, even, offset);
               if json[at] != '[' then ArrayWalk(v, idx) == None
               else
                 && at + 1 < |json| && Valid(v) && v.Node? && v.slots != []
                 && ArrayWalk(v, idx) == (if json[at+1] == ']' then None else
                      var k := if idx >= 0 then idx else |v.slots| + idx;
                      if 0 <= k < |v.slots| then Some(k) else None)
    ensures ix.bp == Bp(data) && AtPlace(data, p, node)
  {
    hide Bp, Nav, Valid, Text, Body, Encode, AtPlace, SlotText, Select, Ones, SlotPlace, GetPos, Window;
    Opening(ix, data, json, offset, hi, p, node);
    if p.slot.value.Node? {
      SecondChar(data, json, offset, hi, p, node);
    }
  }

  method GetArrayChild(ix: SemiIndex, json: string, node0: nat, offset: nat, idx: int,
                       ghost data: string, ghost hi: nat, ghost p: Place)
    returns (found: bool, child: nat)
    requires Indexes(ix, data) && Start(data, json, offset, hi, p, node0)
    ensures var w := ArrayWalk(p.slot.value, idx);
            if w.Some? then
              && found && SlotPlace(p, w.value).start <= |data| && child == SlotNode(data, p, w.value)
              && AtPlace(data, SlotPlace(p, w.value), child)
            else !found
  {
    hide *;
    ArrayEntry(ix, data, json, offset, hi, p, node0, idx);
    var node := node0 + node0 % 2;
    var openingPos := GetPos(ix, node, offset);
    child := node0;
    if json[openingPos] != '[' {
      return false, child;
    }
    if json[openingPos + 1] == ']' {
      return false, child;
    }
    ghost var n := |p.slot.value.slots|;
    var i := 0;
    var curNode: nat;
    if idx >= 0 {
      Siblings(data, p, node0, 0);
      curNode := node + 1;
      while true
        invariant 0 <= i <= n && i <= idx && 0 <= curNode < |ix.bp|
        invariant i < n ==> SlotPlace(p, i).start <= |data| && curNode == SlotNode(data, p, i) && ix.bp[curNode]
        invariant i == n ==> !ix.bp[curNode]
        decreases n - i
      {
        if !ix.bp[curNode] {
          return false, child;
        }
        if i == idx {
          break;
        }
        Siblings(data, p, node0, i);
        curNode := FindClose(ix.bp, curNode) + 1;
        i := i + 1;
      }
      ChildAt(data, p, node0, i);
    } else {
      ContainerParens(data, p, node0);
      Siblings(data, p, node0, n - 1);
      curNode := FindClose(ix.bp, node) - 1;
      while true
        invariant 0 <= i <= n && i <= -idx - 1 && 0 <= curNode < |ix.bp|
        invariant i < n ==> && SlotPlace(p, n - 1 - i).start <= |data|
                            && 0 <= SlotNode(data, p, n - 1 - i) < |ix.bp| && ix.bp[SlotNode(data, p, n - 1 - i)]
                            && curNode == FindClose(ix.bp, SlotNode(data, p, n - 1 - i)) && !ix.bp[curNode]
        invariant i == n ==> ix.bp[curNode]
        decreases n - i
      {
        if ix.bp[curNode] {
          return false, child;
        }
        if i == -idx - 1 {
          break;
        }
        Siblings(data, p, node0, n - 1 - i);
        if i + 1 < n {
          Siblings(data, p, node0, n - 2 - i);
        }
        curNode := FindOpen(ix.bp, curNode) - 1;
        i := i + 1;
      }
      Siblings(data, p, node0, n - 1 - i);
      curNode := FindOpen(ix.bp, curNode);
      ChildAt(data, p, node0, n - 1 - i);
    }
    return true, curNode;
  }

  /** The array walk agrees with a parser except on the first or last element of `[ ]`. */
  lemma ArrayWalkExact(v: Value, idx: int)
    requires Valid(v)
    ensures ArrayWalk(v, idx) == ChildSlot(v, AtIndex(idx)) <==>
            !(v.Node? && v.kind.Array? && IsEmpty(v.slots) && v.slots[0].pre != "" && -1 <= idx <= 0)
  {
  }

  // ---- Both directions, node by node ----

  /** The node the forward walk stands at after `i` steps. */
  ghost function ForwardNode(bp: seq<bool>, node: nat, i: nat): int {
    if i == 0 then node + 1
    else
      var c := ForwardNode(bp, node, i - 1);
      if 0 <= c < |bp| && bp[c] then FindClose(bp, c) + 1 else c
  }

  /** The node the backward walk stands at after `i` steps. */
  ghost function BackwardNode(bp: seq<bool>, node: nat, i: nat): int
    requires node < |bp| && bp[node]
  {
    if i == 0 then FindClose(bp, node) - 1
    else
      var c := BackwardNode(bp, node, i - 1);
      if 0 <= c < |bp| && !bp[c] then FindOpen(bp, c) - 1 else c
  }

  /** The forward walk stands at the slots in turn, and then at a closing parenthesis. */
  lemma {:induction false} ForwardNodes(data: string, p: Place, node: nat, i: nat)
    requires AtPlace(data, p, node) && Valid(p.slot.value) && p.slot.value.Node? && i <= |p.slot.value.slots|
    ensures var c := ForwardNode(Bp(data), node + node % 2, i);
            && 0 <= c < |Bp(data)| && (Bp(data)[c] <==> i < |p.slot.value.slots|)
            && (i < |p.slot.value.slots| ==> SlotPlace(p, i).start <= |data| && c == SlotNode(data, p, i))
    decreases i
  {
    hide Bp, Nav, Valid, AtPlace, FindClose, FindOpen, SlotPlace, SlotNode;
    if i == 0 {
      SlotsPlaced(p.slot.value);
      Siblings(data, p, node, 0);
    } else {
      ForwardNodes(data, p, node, i - 1);
      Siblings(data, p, node, i - 1);
      if i < |p.slot.value.slots| {
        Siblings(data, p, node, i);
      }
    }
  }

  /** The backward walk stands at the ends of the slots in turn, and then at an opening parenthesis. */
  lemma {:induction false} BackwardNodes(data: string, p: Place, node: nat, i: nat)
    requires AtPlace(data, p, node) && Valid(p.slot.value) && p.slot.value.Node? && i <= |p.slot.value.slots|
    ensures node + node % 2 < |Bp(data)| && Bp(data)[node + node % 2]
    ensures var n, c := |p.slot.value.slots|, BackwardNode(Bp(data), node + node % 2, i);
            && 0 <= c < |Bp(data)| && (Bp(data)[c] <==> i == n)
            && (i < n ==> && SlotPlace(p, n - 1 - i).start <= |data| && 0 <= SlotNode(data, p, n - 1 - i) < |Bp(data)|
                          && Bp(data)[SlotNode(data, p, n - 1 - i)]
                          && c == FindClose(Bp(data), SlotNode(data, p, n - 1 - i)))
    decreases i
  {
    hide Bp, Nav, Valid, AtPlace, FindClose, FindOpen, SlotPlace, SlotNode;
    var n := |p.slot.value.slots|;
    ContainerParens(data, p, node);
    if i == 0 {
      Siblings(data, p, node, n - 1);
    } else {
      BackwardNodes(data, p, node, i - 1);
      Siblings(data, p, node, n - i);
      if i < n {
        Siblings(data, p, node, n - 1 - i);
      } else {
        ContainerSpan(data, p, node);
      }
    }
  }

  /**
   Counting from the end is counting from the start: the node behind `k` backward steps
   is the node after `n - k` forward ones. Both walks stop after `n` steps.
   */
  lemma BackwardIsForward(data: string, p: Place, node: nat, k: nat)
    requires AtPlace(data, p, node) && Valid(p.slot.value) && p.slot.value.Node? && 1 <= k <= |p.slot.value.slots|
    ensures var bp, open, n := Bp(data), node + node % 2, |p.slot.value.slots|;
            && open < |bp| && bp[open]
            && 0 <= BackwardNode(bp, open, k - 1) < |bp| && !bp[BackwardNode(bp, open, k - 1)]
            && FindOpen(bp, BackwardNode(bp, open, k - 1)) == ForwardNode(bp, open, n - k)
            && 0 <= ForwardNode(bp, open, n) < |bp| && !bp[ForwardNode(bp, open, n)]
            && 0 <= BackwardNode(bp, open, n) < |bp| && bp[BackwardNode(bp, open, n)]
  {
    hide Bp, Nav, Valid, AtPlace, FindClose, FindOpen, SlotPlace, SlotNode, ForwardNode, BackwardNode;
    var n := |p.slot.value.slots|;
    ForwardNodes(data, p, node, n - k);
    ForwardNodes(data, p, node, n);
    BackwardNodes(data, p, node, k - 1);
    BackwardNodes(data, p, node, n);
    Siblings(data, p, node, n - k);
  }

  /**
   Looking up an element from either end of a container of `n` slots gives the same node; or
   both fail, which they do exactly behind the end, in an object, and in `[]`.
   */
  method FromEitherEnd(ix: SemiIndex, json: string, node: nat, offset: nat, n: nat, k: int,
                       ghost data: string, ghost hi: nat, ghost p: Place)
    returns (found: bool, child: nat, found': bool, child': nat)
    requires Indexes(ix, data) && Start(data, json, offset, hi, p, node)
    requires p.slot.value.Node? && n == |p.slot.value.slots| && k >= 1
    ensures var v := p.slot.value;
            found <==> k <= n && v.kind.Array? && !(IsEmpty(v.slots) && v.slots[0].pre == "")
    ensures found' <==> found
    ensures found ==> child == child'
  {
    hide Bp, Nav, AtPlace, Valid, SlotPlace, SlotNode, Start;
    found, child := GetArrayChild(ix, json, node, offset, -k, data, hi, p);
    found', child' := GetArrayChild(ix, json, node, offset, if k <= n then n - k else k, data, hi, p);
  }
}
