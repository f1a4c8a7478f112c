/**
 JSON texts as trees with their layout, the parenthesis encoding of such a tree,
 and the plain reference for path lookup on the value it denotes.
 */
module Layout {
  import opened Basics
  import opened Lexer
  import opened Succinct
  import opened Keys

  datatype Kind = Array | Object

  /**
   A container is its opening bracket followed by slots, each followed by one
   structural character: the separator, or the closing bracket after the last.
   The slots of an object are its keys and values in turn. An empty container has
   one slot, which is Blank.
   */
  datatype Value = Blank | Atom(text: string) | Str(raw: string) | Node(kind: Kind, slots: seq<Slot>)

  /** A value with the whitespace around it. */
  datatype Slot = Slot(pre: string, value: Value, post: string)

  function Opener(kind: Kind): char { if kind.Array? then '[' else '{' }

  function Closer(kind: Kind): char { if kind.Array? then ']' else '}' }

  /** The structural character behind slot `i` of `n`. */
  function Follower(kind: Kind, n: nat, i: nat): char {
    if i + 1 == n then Closer(kind) else if kind.Object? && i % 2 == 0 then ':' else ','
  }

  function Text(v: Value): string
    decreases v, 0
  {
    match v
    case Blank => ""
    case Atom(t) => t
    case Str(raw) => "\"" + raw + "\""
    case Node(kind, slots) => [Opener(kind)] + Body(kind, slots, |slots|)
  }

  function SlotText(s: Slot): string
    decreases s, 1
  {
    s.pre + Text(s.value) + s.post
  }

  /** The first `k` slots, each with its follower. */
  function Body(kind: Kind, slots: seq<Slot>, k: nat): string
    requires k <= |slots|
    decreases slots, k
  {
    if k == 0 then ""
    else Body(kind, slots, k - 1) + SlotText(slots[k-1]) + [Follower(kind, |slots|, k - 1)]
  }

  predicate Spaces(s: string) { forall c | c in s :: IsSpace(c) }

  predicate ValidAtom(t: string) {
    t != "" && forall c | c in t :: !IsSpace(c) && !IsStructural(c) && c != '"'
  }

  predicate IsEmpty(slots: seq<Slot>) { |slots| == 1 && slots[0].value.Blank? }

  /** Well-formed JSON, section 2 of RFC 8259 for the layout and section 7 for the literals. */
  predicate Valid(v: Value)
    decreases v, 0
  {
    match v
    case Blank => false
    case Atom(t) => ValidAtom(t)
    case Str(raw) => ValidRaw(raw)
    case Node(kind, slots) =>
      || (IsEmpty(slots) && Spaces(slots[0].pre) && slots[0].post == "")
      || (&& slots != []
          && (kind.Object? ==> |slots| % 2 == 0)
          && forall i | 0 <= i < |slots| ::
               && ValidSlot(slots[i])
               && (kind.Object? && i % 2 == 0 ==> slots[i].value.Str?))
  }

  predicate ValidSlot(s: Slot)
    decreases s, 1
  {
    Spaces(s.pre) && Spaces(s.post) && Valid(s.value)
  }

  /** What holds of every slot of a valid container, the blank one included. */
  predicate PlacedSlot(s: Slot) {
    Spaces(s.pre) && Spaces(s.post) && (s.value.Blank? || Valid(s.value))
  }

  lemma SlotsPlaced(v: Value)
    requires Valid(v) && v.Node?
    ensures v.slots != [] && forall i | 0 <= i < |v.slots| :: PlacedSlot(v.slots[i])
    ensures v.slots[0].value.Blank? ==> IsEmpty(v.slots) && v.slots[0].post == ""
  {
    if v.slots[0].value.Blank? && ValidSlot(v.slots[0]) {
      assert Valid(v.slots[0].value);
    }
  }

  // ---- The parenthesis encoding ----

  function Encode(v: Value): seq<bool>
    decreases v, 0
  {
    match v
    case Node(_, slots) => [true] + EncodeSlots(slots, |slots|) + [false]
    case _ => []
  }

  function EncodeSlots(slots: seq<Slot>, k: nat): seq<bool>
    requires k <= |slots|
    decreases slots, k
  {
    if k == 0 then []
    else EncodeSlots(slots, k - 1) + ([true] + Encode(slots[k-1].value) + [false])
  }

  lemma {:induction false} EncodeBalanced(v: Value)
    ensures Balanced(Encode(v))
    decreases v, 0
  {
    if v.Node? {
      EncodeSlotsBalanced(v.slots, |v.slots|);
      BalancedWrap(EncodeSlots(v.slots, |v.slots|));
    }
  }

  lemma {:induction false} EncodeSlotsBalanced(slots: seq<Slot>, k: nat)
    requires k <= |slots|
    ensures Balanced(EncodeSlots(slots, k))
    decreases slots, k
  {
    if k > 0 {
      EncodeSlotsBalanced(slots, k - 1);
      EncodeBalanced(slots[k-1].value);
      BalancedWrap(Encode(slots[k-1].value));
      BalancedConcat(EncodeSlots(slots, k - 1), [true] + Encode(slots[k-1].value) + [false]);
    }
  }

  lemma SpacesPlain(s: string)
    requires Spaces(s)
    ensures Closed(s) && Bp(s) == []
  {
    PlainText(s);
  }

  lemma OneStructural(c: char)
    requires IsStructural(c)
    ensures Closed([c]) && Bp([c]) == Parens(c) && Nav([c]) == [true]
  {
    assert [c][1..] == "";
    assert Run(Outside, "") == Outside && BpFrom(Outside, "") == [] && NavFrom(Outside, "") == [];
    assert Next(Outside, c) == Outside;
    assert BpFrom(Outside, [c]) == Parens(c) + BpFrom(Outside, "");
    assert NavFrom(Outside, [c]) == [true] + NavFrom(Outside, "");
  }

  /** The scanner's parentheses for a well-formed value are exactly the encoding of its tree. */
  lemma {:induction false} BpEncodes(v: Value)
    requires v.Blank? || Valid(v)
    ensures Closed(Text(v)) && Bp(Text(v)) == Encode(v)
    decreases v, 0
  {
    match v
    case Blank =>
    case Atom(t) => PlainText(t);
    case Str(raw) => LiteralScans(raw);
    case Node(kind, slots) =>
      SlotsPlaced(v);
      BodyEncodes(kind, slots, |slots|);
  }

  lemma {:induction false} SlotEncodes(s: Slot)
    requires PlacedSlot(s)
    ensures Closed(SlotText(s)) && Bp(SlotText(s)) == Encode(s.value)
    decreases s, 1
  {
    SpacesPlain(s.pre);
    SpacesPlain(s.post);
    BpEncodes(s.value);
    ClosedConcat(s.pre, Text(s.value));
    ClosedConcat(s.pre + Text(s.value), s.post);
  }

  lemma Regroup(a: seq<bool>, b: seq<bool>, more: bool)
    ensures [true] + a + [true] + b + [false, more] == [true] + (a + ([true] + b + [false])) + [more]
  {
  }

  /** After the opener and `k` slots, the last bit opens slot `k` (or closes the container). */
  lemma {:induction false} BodyEncodes(kind: Kind, slots: seq<Slot>, k: nat)
    requires k <= |slots| && slots != []
    requires forall i | 0 <= i < |slots| :: PlacedSlot(slots[i])
    ensures var head := [Opener(kind)] + Body(kind, slots, k);
            Closed(head) && Bp(head) == [true] + EncodeSlots(slots, k) + [k < |slots|]
    decreases slots, k
  {
    hide Bp, Closed, PlacedSlot, Text;
    var head := [Opener(kind)] + Body(kind, slots, k);
    if k == 0 {
      OneStructural(Opener(kind));
      assert head == [Opener(kind)];
    } else {
      var before := [Opener(kind)] + Body(kind, slots, k - 1);
      var s := slots[k-1];
      var f := Follower(kind, |slots|, k - 1);
      BodyEncodes(kind, slots, k - 1);
      SlotEncodes(s);
      OneStructural(f);
      ClosedConcat(before, SlotText(s));
      ClosedConcat(before + SlotText(s), [f]);
      assert head == before + SlotText(s) + [f];
      Regroup(EncodeSlots(slots, k - 1), Encode(s.value), k < |slots|);
    }
  }

  // ---- The value denoted, and the reference lookup ----

  datatype Json = Scalar(text: string) | Chars(chars: string) | List(elems: seq<Json>) | Dict(members: seq<(string,
    Json)>)

  function Meaning(v: Value): Json
    requires Valid(v)
  {
    match v
    case Atom(t) => Scalar(t)
    case Str(raw) => Chars(Decode(raw))
    case Node(Array, slots) =>
      if IsEmpty(slots) then List([])
      else
        assert forall i | 0 <= i < |slots| :: ValidSlot(slots[i]) && Valid(slots[i].value);
        List(seq(|slots|, i requires 0 <= i < |slots| => Meaning(slots[i].value)))
    case Node(Object, slots) =>
      if IsEmpty(slots) then Dict([])
      else
        ObjectKeys(v);
        Dict(seq(|slots| / 2, i requires 0 <= i < |slots| / 2 =>
                  (Decode(slots[2*i].value.raw), Meaning(slots[2*i+1].value))))
  }

  datatype PathElem = AtKey(key: string) | AtIndex(idx: int)

  /** The child of a JSON value: the first member of that name, or an element counted from either end. */
  function Child(j: Json, e: PathElem): Option<Json> {
    match (j, e)
    case (List(elems), AtIndex(i)) =>
      var k := if i >= 0 then i else |elems| + i;
      if 0 <= k < |elems| then Some(elems[k]) else None
    case (Dict(members), AtKey(key)) =>
      FirstMember(members, key)
    case _ => None
  }

  function FirstMember(members: seq<(string, Json)>, key: string): Option<Json> {
    if members == [] then None
    else if members[0].0 == key then Some(members[0].1)
    else FirstMember(members[1..], key)
  }

  function Lookup(j: Json, path: seq<PathElem>): Option<Json>
    decreases |path|
  {
    if path == [] then Some(j)
    else match Child(j, path[0])
         case None => None
         case Some(c) => Lookup(c, path[1..])
  }

  // ---- The same lookup on the laid-out tree ----

  /** Keys and values in turn. */
  predicate Members(slots: seq<Slot>) {
    && |slots| % 2 == 0
    && forall m | 0 <= m < |slots| / 2 :: slots[2*m].value.Str? && ValidRaw(slots[2*m].value.raw)
  }

  /** The first member of a nonempty object, from member `i` on, whose key decodes to `key`. */
  function KeyIndex(slots: seq<Slot>, key: string, i: nat): (r: nat)
    requires 2 * i <= |slots| && Members(slots)
    ensures i <= r <= |slots| / 2
    ensures r < |slots| / 2 ==> Decode(slots[2*r].value.raw) == key
    ensures forall m | i <= m < r :: Decode(slots[2*m].value.raw) != key
    decreases |slots| - 2 * i
  {
    if 2 * i == |slots| then i
    else if Decode(slots[2*i].value.raw) == key then i
    else KeyIndex(slots, key, i + 1)
  }

  lemma ObjectKeys(v: Value)
    requires Valid(v) && v.Node? && v.kind.Object? && !IsEmpty(v.slots)
    ensures Members(v.slots) && |v.slots| >= 2
    ensures forall m | 0 <= m < |v.slots| / 2 ::
              && ValidSlot(v.slots[2*m]) && ValidSlot(v.slots[2*m+1]) && Valid(v.slots[2*m+1].value)
  {
    forall m | 0 <= m < |v.slots| / 2
      ensures v.slots[2*m].value.Str? && ValidRaw(v.slots[2*m].value.raw)
      ensures ValidSlot(v.slots[2*m]) && ValidSlot(v.slots[2*m+1]) && Valid(v.slots[2*m+1].value)
    {
      assert ValidSlot(v.slots[2*m]) && ValidSlot(v.slots[2*m+1]);
      assert Valid(v.slots[2*m].value);
    }
  }

  function ArraySlot(n: nat, idx: int): Option<nat> {
    var k := if idx >= 0 then idx else n + idx;
    if 0 <= k < n then Some(k) else None
  }

  /** The slot that holds the child, if there is one. */
  function ChildSlot(v: Value, e: PathElem): (r: Option<nat>)
    requires Valid(v)
    ensures r.Some? ==> v.Node? && r.value < |v.slots| && ValidSlot(v.slots[r.value])
  {
    if !v.Node? || IsEmpty(v.slots) then None
    else if v.kind.Array? && e.AtIndex? then ArraySlot(|v.slots|, e.idx)
    else if v.kind.Object? && e.AtKey? then
      ObjectKeys(v);
      var m := KeyIndex(v.slots, e.key, 0);
      if 2 * m == |v.slots| then None else Some(2 * m + 1)
    else None
  }

  lemma {:induction false} KeyIndexMeaning(slots: seq<Slot>, members: seq<(string, Json)>, key: string, i: nat)
    requires 2 * i <= |slots| && Members(slots) && |members| == |slots| / 2
    requires forall m | 0 <= m < |slots| / 2 :: members[m].0 == Decode(slots[2*m].value.raw)
    ensures FirstMember(members[i..], key) ==
            var m := KeyIndex(slots, key, i);
            if m < |members| then Some(members[m].1) else None
    decreases |slots| - 2 * i
  {
    if 2 * i < |slots| {
      assert members[i..][1..] == members[i+1..];
      if Decode(slots[2*i].value.raw) != key {
        KeyIndexMeaning(slots, members, key, i + 1);
      }
    }
  }

  /** The slot found denotes the child of the denoted value. */
  lemma ChildMeaning(v: Value, e: PathElem)
    requires Valid(v)
    ensures Child(Meaning(v), e) ==
            match ChildSlot(v, e)
            case None => None
            case Some(i) => Some(Meaning(v.slots[i].value))
  {
    if v.Node? && v.kind.Object? && e.AtKey? && !IsEmpty(v.slots) {
      ObjectKeys(v);
      var members := Meaning(v).members;
      KeyIndexMeaning(v.slots, members, e.key, 0);
      assert members[0..] == members;
    }
  }

  /** A slot together with the position of its text, counted from the root bracket. */
  datatype Place = Place(start: nat, slot: Slot)

  function End(p: Place): nat { p.start + |SlotText(p.slot)| }

  function RootPlace(root: Value): Place { Place(0, Slot("", root, "")) }

  /** The place of slot `i` of the container at `p`. */
  function SlotPlace(p: Place, i: nat): Place
    requires p.slot.value.Node? && i < |p.slot.value.slots|
  {
    var v := p.slot.value;
    Place(p.start + |p.slot.pre| + 1 + |Body(v.kind, v.slots, i)|, v.slots[i])
  }

  function Locate(p: Place, path: seq<PathElem>): (r: Option<Place>)
    requires ValidSlot(p.slot)
    ensures r.Some? ==> ValidSlot(r.value.slot)
    decreases |path|
  {
    if path == [] then Some(p)
    else match ChildSlot(p.slot.value, path[0])
         case None => None
         case Some(i) => Locate(SlotPlace(p, i), path[1..])
  }

  /** Locating in the layout and looking up in the denoted value are the same thing. */
  lemma {:induction false} LocateMeaning(p: Place, path: seq<PathElem>)
    requires ValidSlot(p.slot)
    ensures Lookup(Meaning(p.slot.value), path) ==
            match Locate(p, path)
            case None => None
            case Some(q) => Some(Meaning(q.slot.value))
    decreases |path|
  {
    if path != [] {
      ChildMeaning(p.slot.value, path[0]);
      match ChildSlot(p.slot.value, path[0])
      case None =>
      case Some(i) => LocateMeaning(SlotPlace(p, i), path[1..]);
    }
  }

  // ---- Ranges ----

  lemma {:induction false} BodyGrows(kind: Kind, slots: seq<Slot>, i: nat, k: nat)
    requires i < k <= |slots|
    ensures |Body(kind, slots, i)| + |SlotText(slots[i])| + 1 <= |Body(kind, slots, k)|
    decreases k
  {
    if i + 1 < k {
      BodyGrows(kind, slots, i, k - 1);
    }
  }

  /** The places of the slots are in order and apart. */
  lemma PlacesApart(p: Place, i: nat, j: nat)
    requires p.slot.value.Node? && i < j < |p.slot.value.slots|
    ensures End(SlotPlace(p, i)) < SlotPlace(p, j).start
  {
    var v := p.slot.value;
    BodyGrows(v.kind, v.slots, i, j);
  }
}
