/**
 The reader accepts all of JSON: every well-formed layout whose literals it can decode is read as
 the value it denotes, whatever blanks it is written with.
 */
module LayoutRead {
  import opened Basics
  import opened Keys
  import opened FastWriter
  import opened ReaderSpec
  import opened Written
  import opened Grammar
  import L = Layout
  import J = JsonValue

  /** A literal name, or the text of a number that can be represented. */
  predicate ReadableAtom(t: string, scan: Scan) {
    || t == "null" || t == "true" || t == "false"
    || (&& t != "" && (IsDigit(t[0]) || t[0] == '-') && (forall c | c in t :: InNumber(c))
        && ReadBackNumber(t, scan).Some?)
  }

  predicate Readable(v: L.Value, scan: Scan)
    decreases v
  {
    match v
    case Blank => true
    case Atom(t) => ReadableAtom(t, scan)
    case Str(raw) => Unescape(raw).Some?
    case Node(_, slots) => forall i | 0 <= i < |slots| :: Readable(slots[i].value, scan)
  }

  /** The value a layout stands for in the JSON library; a later member of the same name replaces. */
  function ValueOf(v: L.Value, scan: Scan): J.Value
    requires Readable(v, scan)
    decreases v, 0
  {
    match v
    case Blank => J.Null
    case Atom(t) =>
      if t == "null" then J.Null
      else if t == "true" then J.Boolean(true)
      else if t == "false" then J.Boolean(false)
      else ReadBackNumber(t, scan).value
    case Str(raw) => J.String(Unescape(raw).value)
    case Node(kind, slots) =>
      if kind.Array? then J.Array(if L.IsEmpty(slots) then [] else Elements(slots, |slots|, scan))
      else J.Object(if L.IsEmpty(slots) then [] else Fields(slots, |slots| / 2, scan))
  }

  function Elements(slots: seq<L.Slot>, k: nat, scan: Scan): (r: seq<J.Value>)
    requires k <= |slots| && forall i | 0 <= i < |slots| :: Readable(slots[i].value, scan)
    ensures |r| == k
    decreases slots, k
  {
    if k == 0 then [] else Elements(slots, k - 1, scan) + [ValueOf(slots[k-1].value, scan)]
  }

  function Fields(slots: seq<L.Slot>, m: nat, scan: Scan): seq<(string, J.Value)>
    requires 2 * m <= |slots| && forall i | 0 <= i < |slots| :: Readable(slots[i].value, scan)
    decreases slots, m
  {
    if m == 0 then [] else
      J.Put(Fields(slots, m - 1, scan), CString(NameOf(slots[2*m-2].value)), ValueOf(slots[2*m-1].value, scan))
  }

  /** The name a key slot spells. */
  function NameOf(v: L.Value): string {
    if v.Str? && Unescape(v.raw).Some? then Unescape(v.raw).value else ""
  }

  // ---- Tokens of a layout ----

  lemma {:induction false} SpacesThen(doc: string, i: nat, spaces: string)
    requires L.Spaces(spaces) && PrefixAt(doc, i, spaces)
    requires i + |spaces| == |doc| || !IsSpace(doc[i+|spaces|])
    ensures SpaceEnd(doc, i) == i + |spaces|
    decreases |spaces|
  {
    if spaces != "" {
      FirstCharacter(doc, i, spaces);
      assert spaces[0] in spaces;
      assert spaces == spaces[..1] + spaces[1..];
      PrefixSplit(doc, i, spaces[..1], spaces[1..]);
      assert forall c | c in spaces[1..] :: c in spaces;
      SpacesThen(doc, i + 1, spaces[1..]);
    }
  }

  /** A complete literal behind its opening quote ends at the quote behind it. */
  lemma {:induction false} RawStringEnd(doc: string, i: nat, raw: string)
    requires ValidRaw(raw) && PrefixAt(doc, i, raw + "\"")
    ensures StringEnd(doc, i) == Some(i + |raw| + 1)
    decreases |raw|
  {
    hide ValidRaw, StringEnd;
    if raw == "" {
      assert raw + "\"" == "\"";
      FirstCharacter(doc, i, "\"");
      StringEndStep(doc, i);
    } else {
      RawStart(raw);
      RawStep(raw);
      var w := Width(raw);
      assert raw + "\"" == raw[..w] + (raw[w..] + "\"");
      PrefixSplit(doc, i, raw[..w], raw[w..] + "\"");
      FirstCharacter(doc, i, raw[..w]);
      PrefixIs(doc, i + w, raw[w..] + "\"");
      StringEndStep(doc, i);
      RawStringEnd(doc, i + w, raw[w..]);
    }
  }

  lemma StringEndStep(doc: string, i: nat)
    requires i < |doc|
    ensures doc[i] == '"' ==> StringEnd(doc, i) == Some(i + 1)
    ensures doc[i] == '\\' && i + 1 < |doc| ==> StringEnd(doc, i) == StringEnd(doc, i + 2)
    ensures doc[i] != '"' && doc[i] != '\\' ==> StringEnd(doc, i) == StringEnd(doc, i + 1)
  {
  }

  /** The structural character behind a slot. */
  lemma FollowerToken(doc: string, i: nat, post: string, c: char)
    requires L.Spaces(post) && PrefixAt(doc, i, post + [c]) && c in ",:]}"
    ensures i <= |doc|
    ensures var t := TokenAt(doc, i);
            && t == NextToken(doc, i) && t.end == i + |post| + 1 && t.kind != CommentToken
            && t.kind == (if c == ',' then ArraySeparator else if c == ':' then MemberSeparator
                          else if c == ']' then ArrayEnd else ObjectEnd)
  {
    hide TokenAt;
    PrefixSplit(doc, i, post, [c]);
    FirstCharacter(doc, i + |post|, [c]);
    SpacesThen(doc, i, post);
    SpaceEndTwice(doc, i);
    CharToken(doc, i + |post|, TokenAt(doc, i + |post|));
  }

  lemma ReadableFirst(v: L.Value, scan: Scan)
    requires L.Valid(v) && Readable(v, scan)
    ensures var t := L.Text(v); t != "" && !IsSpace(t[0]) && t[0] != '/' && t[0] != ']' && t[0] != '}'
  {
  }

  /** Where the value of a slot begins. */
  lemma SlotBegins(doc: string, at: nat, s: L.Slot, scan: Scan)
    requires L.ValidSlot(s) && Readable(s.value, scan) && PrefixAt(doc, at, L.SlotText(s))
    requires Delimited(doc, at + |L.SlotText(s)|)
    ensures var i := at + |s.pre|;
            && at <= |doc| && SpaceEnd(doc, at) == i < |doc| && PrefixAt(doc, i, L.Text(s.value))
            && doc[i] != '/' && doc[i] != ']' && doc[i] != '}' && !IsSpace(doc[i])
            && Delimited(doc, i + |L.Text(s.value)|)
            && |L.SlotText(s)| == |s.pre| + |L.Text(s.value)| + |s.post|
  {
    hide L.Text, L.SlotText, L.Valid, Readable, SpaceEnd, PrefixAt, InNumber;
    var t := L.Text(s.value);
    ReadableFirst(s.value, scan);
    SlotParts(doc, at, s);
    FirstCharacter(doc, at + |s.pre|, t);
    SpacesThen(doc, at, s.pre);
    if s.post != "" {
      FirstCharacter(doc, at + |s.pre| + |t|, s.post);
      assert s.post[0] in s.post;
      SpaceDelimits(s.post[0]);
    }
  }

  lemma SlotParts(doc: string, at: nat, s: L.Slot)
    requires PrefixAt(doc, at, L.SlotText(s))
    ensures PrefixAt(doc, at, s.pre) && PrefixAt(doc, at + |s.pre|, L.Text(s.value))
    ensures PrefixAt(doc, at + |s.pre| + |L.Text(s.value)|, s.post)
    ensures |L.SlotText(s)| == |s.pre| + |L.Text(s.value)| + |s.post|
  {
    hide L.Text, PrefixAt;
    var t := L.Text(s.value);
    assert L.SlotText(s) == s.pre + (t + s.post);
    PrefixSplit(doc, at, s.pre, t + s.post);
    PrefixSplit(doc, at + |s.pre|, t, s.post);
  }

  lemma SpaceDelimits(c: char)
    ensures IsSpace(c) ==> !InNumber(c)
    ensures c in ",:]}" ==> !InNumber(c) && !IsSpace(c)
  {
  }

  lemma AtomRead(doc: string, i: nat, t: string, scan: Scan)
    requires L.ValidAtom(t) && ReadableAtom(t, scan) && PrefixAt(doc, i, t) && Delimited(doc, i + |t|)
    ensures i < |doc|
    ensures var k := TokenAt(doc, i);
            && k.start == i && k.end == i + |t| && doc[i..i+|t|] == t
            && (if t == "null" then k.kind == NullToken else if t == "true" then k.kind == TrueToken
                else if t == "false" then k.kind == FalseToken else k.kind == NumberToken)
  {
    hide TokenAt, ReadBackNumber, SpaceEnd;
    FirstCharacter(doc, i, t);
    PrefixIs(doc, i, t);
    assert t[0] in t;
    SpaceEndHere(doc, i);
    if t == "null" || t == "true" || t == "false" {
      WordToken(doc, i, t, TokenAt(doc, i));
    } else {
      NumberTokenEnd(doc, i, t);
      NumberKind(doc, i);
    }
  }

  lemma NumberKind(doc: string, i: nat)
    requires i < |doc| && SpaceEnd(doc, i) == i && (IsDigit(doc[i]) || doc[i] == '-')
    ensures TokenAt(doc, i) == Token(NumberToken, i, NumberEnd(doc, i + 1))
  {
    hide StringEnd, NumberEnd, CommentAt;
  }

  lemma NameRead(doc: string, at: nat, s: L.Slot, c: char)
    requires L.ValidSlot(s) && s.value.Str? && PrefixAt(doc, at, L.SlotText(s) + [c]) && c == ':'
    ensures at <= |doc|
    ensures var t := TokenAt(doc, at);
            && t == NextToken(doc, at) == Token(StringToken, at + |s.pre|, at + |s.pre| + |s.value.raw| + 2)
            && LiteralText(doc, t) == Unescape(s.value.raw)
            && TokenAt(doc, t.end).kind == MemberSeparator && TokenAt(doc, t.end).end == at + |L.SlotText(s)| + 1
  {
    hide TokenAt, StringEnd, SpaceEnd, Unescape, ValidRaw, PrefixAt;
    var raw := s.value.raw;
    assert L.SlotText(s) + [c] == s.pre + ("\"" + ((raw + "\"") + (s.post + [c])));
    var i := at + |s.pre|;
    PrefixSplit(doc, at, s.pre, "\"" + ((raw + "\"") + (s.post + [c])));
    PrefixSplit(doc, i, "\"", (raw + "\"") + (s.post + [c]));
    PrefixSplit(doc, i + 1, raw + "\"", s.post + [c]);
    PrefixSplit(doc, i + 1, raw, "\"");
    FirstCharacter(doc, i, "\"");
    PrefixIs(doc, i, "\"");
    SpacesThen(doc, at, s.pre);
    SpaceEndTwice(doc, at);
    RawStringEnd(doc, i + 1, raw);
    StringLexed(doc, i, TokenAt(doc, i));
    PrefixIs(doc, i + 1, raw);
    FollowerToken(doc, i + |raw| + 2, s.post, c);
  }

  // ---- Containers ----

  lemma {:induction false} BodyPart(doc: string, q: nat, kind: L.Kind, slots: seq<L.Slot>, k: nat, n: nat)
    requires k < n <= |slots| && PrefixAt(doc, q, L.Body(kind, slots, n))
    ensures PrefixAt(doc, q + |L.Body(kind, slots, k)|, L.SlotText(slots[k]) + [L.Follower(kind, |slots|, k)])
    ensures |L.Body(kind, slots, k + 1)| == |L.Body(kind, slots, k)| + |L.SlotText(slots[k])| + 1
    decreases n
  {
    hide L.SlotText, PrefixAt, L.Follower;
    var last := L.SlotText(slots[n-1]) + [L.Follower(kind, |slots|, n - 1)];
    assert L.Body(kind, slots, n) == L.Body(kind, slots, n - 1) + last;
    PrefixSplit(doc, q, L.Body(kind, slots, n - 1), last);
    if k + 1 < n {
      BodyPart(doc, q, kind, slots, k, n - 1);
    }
  }

  /** A slot and the character behind it. */
  lemma SlotSplit(doc: string, at: nat, s: L.Slot, c: char)
    requires PrefixAt(doc, at, L.SlotText(s) + [c]) && c in ",:]}"
    ensures PrefixAt(doc, at, L.SlotText(s)) && Delimited(doc, at + |L.SlotText(s)|)
    ensures PrefixAt(doc, at + |s.pre| + |L.Text(s.value)|, s.post + [c])
    ensures |L.SlotText(s)| == |s.pre| + |L.Text(s.value)| + |s.post|
  {
    hide L.Text, PrefixAt, InNumber;
    PrefixSplit(doc, at, L.SlotText(s), [c]);
    FirstCharacter(doc, at + |L.SlotText(s)|, [c]);
    SpaceDelimits(c);
    var head := s.pre + L.Text(s.value);
    assert L.SlotText(s) + [c] == head + (s.post + [c]);
    PrefixSplit(doc, at, head, s.post + [c]);
    PrefixIs(doc, at, L.SlotText(s));
  }

  lemma ElementsNext(slots: seq<L.Slot>, k: nat, scan: Scan)
    requires k < |slots| && forall i | 0 <= i < |slots| :: Readable(slots[i].value, scan)
    ensures Elements(slots, 0, scan) == []
    ensures Elements(slots, k + 1, scan) == Elements(slots, k, scan) + [ValueOf(slots[k].value, scan)]
  {
    hide Readable, ValueOf;
  }

  lemma FieldsNext(slots: seq<L.Slot>, m: nat, scan: Scan)
    requires 2 * m + 1 < |slots| && forall i | 0 <= i < |slots| :: Readable(slots[i].value, scan)
    ensures Fields(slots, 0, scan) == []
    ensures Fields(slots, m + 1, scan) ==
            J.Put(Fields(slots, m, scan), CString(NameOf(slots[2*m].value)), ValueOf(slots[2*m+1].value, scan))
  {
    hide Readable, ValueOf, NameOf, CString, J.Put;
    assert 2 * (m + 1) - 2 == 2 * m && 2 * (m + 1) - 1 == 2 * m + 1;
  }

  /** The slots of a container, each well formed and readable. */
  predicate Slots(slots: seq<L.Slot>, scan: Scan) {
    forall i | 0 <= i < |slots| :: L.ValidSlot(slots[i]) && Readable(slots[i].value, scan)
  }

  lemma LeafRead(doc: string, at: nat, s: L.Slot, comments: bool, scan: Scan)
    requires L.ValidSlot(s) && Readable(s.value, scan) && PrefixAt(doc, at, L.SlotText(s)) && !s.value.Node?
    requires Delimited(doc, at + |L.SlotText(s)|)
    ensures at <= |doc|
    ensures ValueAt(doc, at, comments, scan) == Some((ValueOf(s.value, scan), at + |s.pre| + |L.Text(s.value)|))
  {
    hide L.SlotText, PrefixAt, SpaceEnd, TokenAt, ValueAt, ArrayFrom, MembersFrom, Unescape, ReadBackNumber,
         L.ValidAtom, ValidRaw, StringEnd;
    SlotBegins(doc, at, s, scan);
    FirstSame(doc, at, comments);
    ValueIs(doc, at, comments, scan);
    var i := at + |s.pre|;
    if s.value.Atom? {
      AtomRead(doc, i, s.value.text, scan);
    } else {
      var raw := s.value.raw;
      assert L.Text(s.value) == "\"" + (raw + "\"");
      PrefixSplit(doc, i, "\"", raw + "\"");
      PrefixSplit(doc, i + 1, raw, "\"");
      PrefixIs(doc, i, "\"");
      RawStringEnd(doc, i + 1, raw);
      SpaceEndHere(doc, i);
      StringLexed(doc, i, TokenAt(doc, i));
      PrefixIs(doc, i + 1, raw);
    }
  }

  /** A container behind its blanks. */
  lemma NodeBegins(doc: string, at: nat, s: L.Slot, comments: bool, scan: Scan)
    requires L.ValidSlot(s) && Readable(s.value, scan) && PrefixAt(doc, at, L.SlotText(s)) && s.value.Node?
    requires Delimited(doc, at + |L.SlotText(s)|)
    ensures var i, v := at + |s.pre|, s.value;
            var n := |v.slots|;
            && i + 1 <= |doc| && PrefixAt(doc, i + 1, L.Body(v.kind, v.slots, n))
            && |L.Text(v)| == 1 + |L.Body(v.kind, v.slots, n)|
            && ValueAt(doc, at, comments, scan) ==
                 (if v.kind.Array? then ArrayFrom(doc, i + 1, comments, scan)
                  else MembersFrom(doc, i + 1, [], "", comments, scan))
  {
    hide L.SlotText, L.Body, PrefixAt, SpaceEnd, TokenAt, ValueAt, ArrayFrom, MembersFrom, Readable;
    SlotBegins(doc, at, s, scan);
    FirstSame(doc, at, comments);
    ValueIs(doc, at, comments, scan);
    var i, v := at + |s.pre|, s.value;
    assert L.Text(v) == [L.Opener(v.kind)] + L.Body(v.kind, v.slots, |v.slots|);
    PrefixSplit(doc, i, [L.Opener(v.kind)], L.Body(v.kind, v.slots, |v.slots|));
    FirstCharacter(doc, i, [L.Opener(v.kind)]);
    OpenerToken(doc, i, v.kind);
    PrefixIs(doc, i + 1, L.Body(v.kind, v.slots, |v.slots|));
  }

  lemma OpenerToken(doc: string, i: nat, kind: L.Kind)
    requires i < |doc| && doc[i] == L.Opener(kind)
    ensures TokenAt(doc, i) == Token(if kind.Array? then ArrayBegin else ObjectBegin, i, i + 1)
  {
    SpaceEndHere(doc, i);
  }

  lemma EmptyBody(doc: string, i: nat, v: L.Value)
    requires v.Node? && L.IsEmpty(v.slots) && L.Valid(v) && PrefixAt(doc, i, L.Body(v.kind, v.slots, 1))
    ensures i <= |doc|
    ensures var t := TokenAt(doc, i);
            && t == NextToken(doc, i) && t.kind == (if v.kind.Array? then ArrayEnd else ObjectEnd)
            && t.end == i + |L.Body(v.kind, v.slots, 1)|
  {
    hide TokenAt, PrefixAt;
    var s := v.slots[0];
    NoBlank(v);
    assert L.Body(v.kind, v.slots, 0) == "" && L.SlotText(s) == s.pre + "" + "";
    assert L.Body(v.kind, v.slots, 1) == s.pre + [L.Closer(v.kind)];
    FollowerToken(doc, i, s.pre, L.Closer(v.kind));
  }

  lemma NoBlank(v: L.Value)
    requires v.Node? && L.IsEmpty(v.slots) && L.Valid(v)
    ensures L.Spaces(v.slots[0].pre) && v.slots[0].post == ""
  {
    assert !L.ValidSlot(v.slots[0]);
  }

  lemma SlotsOf(v: L.Value, scan: Scan)
    requires v.Node? && !L.IsEmpty(v.slots) && L.Valid(v) && Readable(v, scan)
    ensures v.slots != [] && Slots(v.slots, scan) && (v.kind.Object? ==> Keyed(v.slots))
    ensures forall i | 0 <= i < |v.slots| :: Readable(v.slots[i].value, scan)
  {
  }

  predicate Keyed(slots: seq<L.Slot>) {
    |slots| % 2 == 0 && forall i | 0 <= i < |slots| && i % 2 == 0 :: slots[i].value.Str?
  }

  /** The value in a slot is read as what it stands for, up to where it ends. */
  lemma {:induction false} SlotRead(doc: string, at: nat, s: L.Slot, comments: bool, scan: Scan)
    requires L.ValidSlot(s) && Readable(s.value, scan) && PrefixAt(doc, at, L.SlotText(s))
    requires Delimited(doc, at + |L.SlotText(s)|)
    ensures at <= |doc|
    ensures ValueAt(doc, at, comments, scan) == Some((ValueOf(s.value, scan), at + |s.pre| + |L.Text(s.value)|))
    decreases s.value, 0
  {
    hide L.Text, L.SlotText, L.Valid, L.Body, PrefixAt, SpaceEnd, TokenAt, ValueAt, ArrayFrom, MembersFrom, Readable,
         ValueOf, Elements, Fields, ItemsFrom;
    if s.value.Node? {
      var v := s.value;
      var i := at + |s.pre| + 1;
      NodeBegins(doc, at, s, comments, scan);
      ValueOfNode(v, scan);
      if L.IsEmpty(v.slots) {
        ValidOf(s);
        EmptyBody(doc, i, v);
        EmptyRead(doc, i, comments, scan);
      } else {
        ValidOf(s);
        SlotsOf(v, scan);
        ElementsNext(v.slots, 0, scan);
        NoText(v.kind, v.slots);
        if v.kind.Array? {
          EmptyRead(doc, i, comments, scan);
          ItemsRead(doc, i, v.slots, 0, comments, scan);
        } else {
          Fields0(v.slots, scan);
          FieldsRead(doc, i, v.slots, 0, "", comments, scan);
        }
      }
    } else {
      LeafRead(doc, at, s, comments, scan);
    }
  }

  lemma ValidOf(s: L.Slot)
    requires L.ValidSlot(s)
    ensures L.Valid(s.value)
  {
    hide L.Valid;
  }

  lemma NoText(kind: L.Kind, slots: seq<L.Slot>)
    ensures L.Body(kind, slots, 0) == ""
  {
  }

  lemma Fields0(slots: seq<L.Slot>, scan: Scan)
    requires forall i | 0 <= i < |slots| :: Readable(slots[i].value, scan)
    ensures Fields(slots, 0, scan) == []
  {
  }

  lemma ValueOfNode(v: L.Value, scan: Scan)
    requires v.Node? && Readable(v, scan)
    ensures forall i | 0 <= i < |v.slots| :: Readable(v.slots[i].value, scan)
    ensures v.kind.Array? ==>
              ValueOf(v, scan) == J.Array(if L.IsEmpty(v.slots) then [] else Elements(v.slots, |v.slots|, scan))
    ensures v.kind.Object? ==>
              ValueOf(v, scan) == J.Object(if L.IsEmpty(v.slots) then [] else Fields(v.slots, |v.slots| / 2, scan))
  {
    hide Elements, Fields;
  }

  lemma EmptyRead(doc: string, i: nat, comments: bool, scan: Scan)
    requires i <= |doc|
    ensures TokenAt(doc, i).kind == ArrayEnd ==>
              ArrayFrom(doc, i, comments, scan) == Some((J.Array([]), TokenAt(doc, i).end))
    ensures TokenAt(doc, i).kind != ArrayEnd ==>
              ArrayFrom(doc, i, comments, scan) == ItemsFrom(doc, i, [], comments, scan)
    ensures NextToken(doc, i).kind == ObjectEnd ==>
              MembersFrom(doc, i, [], "", comments, scan) == Some((J.Object([]), NextToken(doc, i).end))
  {
    hide TokenAt, NextToken, ItemsFrom, MemberFrom;
  }

  /** The elements from slot `k` on. */
  lemma {:induction false} ItemsRead(doc: string, i: nat, slots: seq<L.Slot>, k: nat, comments: bool, scan: Scan)
    requires k < |slots| && Slots(slots, scan) && (forall i | 0 <= i < |slots| :: Readable(slots[i].value, scan))
    requires PrefixAt(doc, i, L.Body(L.Kind.Array, slots, |slots|))
    ensures i + |L.Body(L.Kind.Array, slots, k)| <= |doc|
    ensures ItemsFrom(doc, i + |L.Body(L.Kind.Array, slots, k)|, Elements(slots, k, scan), comments, scan) ==
            Some((J.Array(Elements(slots, |slots|, scan)), i + |L.Body(L.Kind.Array, slots, |slots|)|))
    ensures k == 0 ==> TokenAt(doc, i).kind != ArrayEnd
    decreases slots, |slots| - k
  {
    hide L.Text, L.SlotText, L.ValidSlot, L.Body, PrefixAt, SpaceEnd, TokenAt, ValueAt, NextToken, Readable, ValueOf,
         Elements, Delimited;
    var q := i + |L.Body(L.Kind.Array, slots, k)|;
    var s, f := slots[k], L.Follower(L.Kind.Array, |slots|, k);
    BodyPart(doc, i, L.Kind.Array, slots, k, |slots|);
    SlotSplit(doc, q, s, f);
    SlotRead(doc, q, s, comments, scan);
    var end := q + |s.pre| + |L.Text(s.value)|;
    PostSpaces(s);
    FollowerToken(doc, end, s.post, f);
    ElementsNext(slots, k, scan);
    if k == 0 {
      NoText(L.Kind.Array, slots);
      NotClosed(doc, q, s, scan);
    }
    if k + 1 < |slots| {
      ItemsRead(doc, i, slots, k + 1, comments, scan);
    }
  }

  lemma PostSpaces(s: L.Slot)
    requires L.ValidSlot(s)
    ensures L.Spaces(s.post)
  {
    hide L.Valid;
  }

  lemma NotClosed(doc: string, at: nat, s: L.Slot, scan: Scan)
    requires L.ValidSlot(s) && Readable(s.value, scan) && PrefixAt(doc, at, L.SlotText(s))
    requires Delimited(doc, at + |L.SlotText(s)|)
    ensures at <= |doc| && TokenAt(doc, at).kind != ArrayEnd
  {
    hide L.Text, L.SlotText, L.ValidSlot, PrefixAt, SpaceEnd, TokenAt, Readable, Delimited;
    SlotBegins(doc, at, s, scan);
    SpaceEndTwice(doc, at);
    BracketToken(doc, SpaceEnd(doc, at));
  }

  /** The members from pair `m` on. */
  lemma {:induction false} FieldsRead(doc: string, i: nat, slots: seq<L.Slot>, m: nat, last: string, comments: bool,
      scan: Scan)
    requires 2 * m < |slots| && Slots(slots, scan) && Keyed(slots)
    requires forall i | 0 <= i < |slots| :: Readable(slots[i].value, scan)
    requires PrefixAt(doc, i, L.Body(L.Kind.Object, slots, |slots|))
    ensures i + |L.Body(L.Kind.Object, slots, 2 * m)| <= |doc|
    ensures MembersFrom(doc, i + |L.Body(L.Kind.Object, slots, 2 * m)|, Fields(slots, m, scan), last, comments, scan) ==
            Some((J.Object(Fields(slots, |slots| / 2, scan)), i + |L.Body(L.Kind.Object, slots, |slots|)|))
    decreases slots, |slots| - 2 * m
  {
    hide L.Text, L.SlotText, L.ValidSlot, L.Body, PrefixAt, SpaceEnd, TokenAt, ValueAt, NextToken, Readable, ValueOf,
         Fields, Delimited, MemberFrom, J.Put, CString, NameOf, LiteralText;
    var q := i + |L.Body(L.Kind.Object, slots, 2 * m)|;
    var f := L.Follower(L.Kind.Object, |slots|, 2 * m + 1);
    BodyPart(doc, i, L.Kind.Object, slots, 2 * m, |slots|);
    BodyPart(doc, i, L.Kind.Object, slots, 2 * m + 1, |slots|);
    var t := PairRead(doc, q, slots[2*m], slots[2*m+1], f, comments, scan);
    FieldsNext(slots, m, scan);
    if 2 * m + 2 < |slots| {
      FieldsRead(doc, i, slots, m + 1, NameOf(slots[2*m].value), comments, scan);
    } else {
      assert |slots| / 2 == m + 1;
    }
  }

  /** A name, a colon, a value and what stands behind it. */
  lemma {:induction false} PairRead(doc: string, q: nat, name: L.Slot, value: L.Slot, f: char, comments: bool,
      scan: Scan)
    returns (t: Token)
    requires L.ValidSlot(name) && name.value.Str? && Readable(name.value, scan)
    requires L.ValidSlot(value) && Readable(value.value, scan) && (f == ',' || f == '}')
    requires PrefixAt(doc, q, L.SlotText(name) + [':'])
    requires PrefixAt(doc, q + |L.SlotText(name)| + 1, L.SlotText(value) + [f])
    ensures q <= |doc| && NextToken(doc, q).kind == StringToken
    ensures MemberFrom(doc, NextToken(doc, q), comments, scan) ==
            Some((NameOf(name.value), ValueOf(value.value, scan), t))
    ensures t.end == q + |L.SlotText(name)| + 1 + |L.SlotText(value)| + 1 && (t.kind == ObjectEnd <==> f == '}')
    decreases value.value, 1
  {
    hide L.Text, L.SlotText, L.ValidSlot, PrefixAt, SpaceEnd, TokenAt, ValueAt, NextToken, Readable, ValueOf,
         Delimited, MemberFrom, Unescape, LiteralText;
    NameRead(doc, q, name, ':');
    NameIsRead(name.value, scan);
    var r := q + |L.SlotText(name)| + 1;
    SlotSplit(doc, r, value, f);
    SlotRead(doc, r, value, comments, scan);
    var end := r + |value.pre| + |L.Text(value.value)|;
    PostSpaces(value);
    FollowerToken(doc, end, value.post, f);
    MemberStages(doc, NextToken(doc, q), comments, scan);
    t := TokenAt(doc, end);
  }

  lemma NameIsRead(v: L.Value, scan: Scan)
    requires v.Str? && Readable(v, scan)
    ensures Unescape(v.raw) == Some(NameOf(v))
  {
    hide Unescape;
  }

  /** A well-formed text the reader can decode is read as the value it denotes, comments allowed or not. */
  lemma LayoutAccepted(doc: string, pre: string, root: L.Value, post: string, comments: bool, scan: Scan)
    requires L.Valid(root) && Readable(root, scan) && L.Spaces(pre) && L.Spaces(post)
    requires doc == pre + L.Text(root) + post
    ensures ValueAt(doc, 0, comments, scan) == Some((ValueOf(root, scan), |pre| + |L.Text(root)|))
  {
    hide L.Text, L.Valid, Readable, ValueAt, ValueOf;
    var s := L.Slot(pre, root, post);
    assert L.SlotText(s) == doc && doc[0..|doc|] == doc;
    SlotRead(doc, 0, s, comments, scan);
  }
}
