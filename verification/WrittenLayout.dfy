/**
 What the JSON writer writes, seen by the index: its texts are well-formed layouts, they denote
 the values written, and what the index finds in them.
 */
module WrittenLayout {
  import opened Basics
  import opened Lexer
  import opened Keys
  import opened FastWriter
  import opened ReaderSpec
  import opened Written
  import opened Escapes
  import opened Layout
  import opened Children
  import opened LayoutWalk
  import J = JsonValue

  /** The layout of a written value: nothing but the structural characters between its parts. */
  function LayoutOf(v: J.Value): Value
    requires Writable(v)
    decreases v, 0
  {
    match v
    case Null => Atom("null")
    case Boolean(b) => Atom(if b then "true" else "false")
    case Int(i) => Atom(IntText(i))
    case UInt(u) => Atom(Digits(if u < 0 then 0 else u))
    case String(s) => Literal(s)
    case Array(items) => Node(Layout.Kind.Array, if items == [] then [Tight(Blank)] else
        seq(|items|, i requires 0 <= i < |items| => Tight(LayoutOf(items[i]))))
    case Object(ms) => Node(Layout.Kind.Object, if ms == [] then [Tight(Blank)] else
        seq(2 * |ms|, j requires 0 <= j < 2 * |ms| => Tight(Half(ms[j/2], j % 2))))
    case Real(_) => Blank
  }

  function Literal(s: string): Value { Str(Escape(CString(s))) }

  /** The name of a member, or its value. */
  function Half(m: (string, J.Value), side: nat): Value
    requires Writable(m.1)
    decreases m, 1
  {
    if side == 0 then Literal(m.0) else LayoutOf(m.1)
  }

  function Tight(v: Value): Slot { Slot("", v, "") }

  lemma ArraySlots(v: J.Value)
    requires Writable(v) && v.Array? && v.items != []
    ensures LayoutOf(v).Node? && LayoutOf(v).kind.Array? && |LayoutOf(v).slots| == |v.items|
    ensures forall i | 0 <= i < |v.items| :: Writable(v.items[i]) && LayoutOf(v).slots[i] == Tight(LayoutOf(v.items[i]))
  {
  }

  lemma ObjectSlots(v: J.Value)
    requires Writable(v) && v.Object? && v.members != []
    ensures LayoutOf(v).Node? && LayoutOf(v).kind.Object? && |LayoutOf(v).slots| == 2 * |v.members|
    ensures forall k | 0 <= k < |v.members| :: Writable(v.members[k].1)
    ensures forall j | 0 <= j < 2 * |v.members| :: LayoutOf(v).slots[j] == Tight(Half(v.members[j/2], j % 2))
  {
    hide Half, Tight, J.Ordered;
  }

  lemma NoSlots(v: J.Value)
    requires Writable(v) && (v == J.Array([]) || v == J.Object([]))
    ensures LayoutOf(v) == Node(if v.Array? then Layout.Kind.Array else Layout.Kind.Object, [Tight(Blank)])
  {
  }

  lemma LeafText(v: J.Value, fmt: real -> string)
    requires Writable(v) && !v.Array? && !v.Object?
    ensures Text(LayoutOf(v)) == Render(v, fmt)
  {
  }

  lemma NodeText(v: Value, w: J.Value, fmt: real -> string)
    requires v.Node?
    ensures Text(v) == [Opener(v.kind)] + Body(v.kind, v.slots, |v.slots|)
    ensures w.Array? ==> Render(w, fmt) == "[" + Items(w.items, 0, fmt) + "]"
    ensures w.Object? ==> Render(w, fmt) == "{" + FastWriter.Members(w.members, 0, fmt) + "}"
    ensures w == J.Array([]) ==> Render(w, fmt) == "[]"
    ensures w == J.Object([]) ==> Render(w, fmt) == "{}"
  {
    hide Body;
  }

  /** The text of the layout is the text written. */
  lemma {:induction false} LayoutText(v: J.Value, fmt: real -> string)
    requires Writable(v)
    ensures Text(LayoutOf(v)) == Render(v, fmt)
    decreases v
  {
    hide Text, LayoutOf, Render, Body, Items, FastWriter.Members, Writable;
    if v == J.Array([]) || v == J.Object([]) {
      NoSlots(v);
      NodeText(LayoutOf(v), v, fmt);
      EmptyBody(LayoutOf(v).kind);
    } else if v.Array? {
      ArraySlots(v);
      forall i | 0 <= i < |v.items|
        ensures Text(LayoutOf(v.items[i])) == Render(v.items[i], fmt)
      {
        LayoutText(v.items[i], fmt);
      }
      NodeText(LayoutOf(v), v, fmt);
      ArrayText(LayoutOf(v).slots, v.items, 0, fmt);
      Joins("[", Body(Layout.Kind.Array, LayoutOf(v).slots, 0), Items(v.items, 0, fmt), "]");
    } else if v.Object? {
      ObjectSlots(v);
      forall j | 0 <= j < 2 * |v.members|
        ensures Text(Half(v.members[j/2], j % 2)) == HalfText(v.members[j/2], j % 2, fmt)
      {
        HalfIs(v.members[j/2]);
        LayoutText(v.members[j/2].1, fmt);
      }
      NodeText(LayoutOf(v), v, fmt);
      ObjectText(LayoutOf(v).slots, v.members, 0, fmt);
      Joins("{", Body(Layout.Kind.Object, LayoutOf(v).slots, 0), FastWriter.Members(v.members, 0, fmt), "}");
    } else {
      LeafText(v, fmt);
    }
  }

  lemma Joins(a: string, b: string, c: string, d: string)
    ensures b == "" ==> a + (b + (c + d)) == a + c + d
  {
  }

  function HalfText(m: (string, J.Value), side: nat, fmt: real -> string): string {
    if side == 0 then Quoted(m.0) else Render(m.1, fmt)
  }

  lemma HalfIs(m: (string, J.Value))
    requires Writable(m.1)
    ensures Text(Half(m, 0)) == Quoted(m.0) && Half(m, 1) == LayoutOf(m.1)
  {
    hide Escape;
  }

  lemma EmptyBody(kind: Layout.Kind)
    ensures Body(kind, [Tight(Blank)], 1) == [Closer(kind)]
  {
    assert Body(kind, [Tight(Blank)], 0) == "" && SlotText(Tight(Blank)) == "";
  }

  lemma BodyStep(kind: Layout.Kind, slots: seq<Slot>, k: nat)
    requires k < |slots|
    ensures Body(kind, slots, k + 1) == Body(kind, slots, k) + SlotText(slots[k]) + [Follower(kind, |slots|, k)]
  {
    hide SlotText;
  }

  lemma TightText(v: Value)
    ensures SlotText(Tight(v)) == Text(v)
  {
    hide Text;
    assert "" + Text(v) + "" == Text(v);
  }

  /** Behind the first `k` slots stand the texts of the items from `k` on. */
  lemma {:induction false} ArrayText(slots: seq<Slot>, items: seq<J.Value>, k: nat, fmt: real -> string)
    requires k < |items| == |slots|
    requires forall i | 0 <= i < |items| ::
               slots[i] == Tight(slots[i].value) && Text(slots[i].value) == Render(items[i], fmt)
    ensures Body(Layout.Kind.Array, slots, |slots|) == Body(Layout.Kind.Array, slots, k) + (Items(items, k, fmt) + "]")
    ensures Body(Layout.Kind.Array, slots, 0) == ""
    decreases |items| - k
  {
    ItemsText(items, k, fmt);
    hide Render, Text, SlotText, Items;
    TightText(slots[k].value);
    BodyStep(Layout.Kind.Array, slots, k);
    var before, t := Body(Layout.Kind.Array, slots, k), Render(items[k], fmt);
    if k + 1 < |items| {
      ArrayText(slots, items, k + 1, fmt);
      Regroup3(before, t, ",", Items(items, k + 1, fmt) + "]");
    } else {
      Regroup3(before, t, "]", "");
    }
  }

  lemma Regroup3(before: string, t: string, c: string, rest: string)
    ensures before + t + c + rest == before + (t + (c + rest))
    ensures before + t + c == before + (t + c)
  {
  }

  lemma MembersText(ms: seq<(string, J.Value)>, k: nat, fmt: real -> string)
    requires k < |ms|
    ensures FastWriter.Members(ms, k, fmt) + "}" == Quoted(ms[k].0) + (":" + (Render(ms[k].1, fmt) +
            (if k + 1 == |ms| then "}" else "," + (FastWriter.Members(ms, k + 1, fmt) + "}"))))
  {
    hide Render, Quoted;
  }

  /** The same for the members of an object, each in two slots. */
  lemma {:induction false} ObjectText(slots: seq<Slot>, ms: seq<(string, J.Value)>, k: nat, fmt: real -> string)
    requires k < |ms| && |slots| == 2 * |ms|
    requires forall j | 0 <= j < |slots| ::
               slots[j] == Tight(slots[j].value) && Text(slots[j].value) == HalfText(ms[j/2], j % 2, fmt)
    ensures Body(Layout.Kind.Object, slots, |slots|) ==
            Body(Layout.Kind.Object, slots, 2 * k) + (FastWriter.Members(ms, k, fmt) + "}")
    ensures Body(Layout.Kind.Object, slots, 0) == ""
    decreases |ms| - k
  {
    NoBody(slots);
    hide Render, Text, SlotText, FastWriter.Members, Quoted, Body, Tight;
    TightText(slots[2*k].value);
    TightText(slots[2*k+1].value);
    MemberText(slots, ms, k, fmt);
    MembersText(ms, k, fmt);
    var before, q, t := Body(Layout.Kind.Object, slots, 2 * k), Quoted(ms[k].0), Render(ms[k].1, fmt);
    if k + 1 < |ms| {
      ObjectText(slots, ms, k + 1, fmt);
      RegroupMember(before, q, t, ",", FastWriter.Members(ms, k + 1, fmt) + "}");
    } else {
      RegroupMember(before, q, t, "}", "");
    }
  }

  lemma NoBody(slots: seq<Slot>)
    ensures Body(Layout.Kind.Object, slots, 0) == ""
  {
  }

  lemma MemberText(slots: seq<Slot>, ms: seq<(string, J.Value)>, k: nat, fmt: real -> string)
    requires k < |ms| && |slots| == 2 * |ms|
    requires SlotText(slots[2*k]) == HalfText(ms[2*k/2], 2 * k % 2, fmt)
    requires SlotText(slots[2*k+1]) == HalfText(ms[(2*k+1)/2], (2 * k + 1) % 2, fmt)
    ensures Body(Layout.Kind.Object, slots, 2 * (k + 1)) == Body(Layout.Kind.Object, slots, 2 * k) + Quoted(ms[k].0) +
            ":" + Render(ms[k].1, fmt) + if k + 1 == |ms| then "}" else ","
  {
    hide Render, SlotText, Quoted, Body;
    BodyStep(Layout.Kind.Object, slots, 2 * k);
    BodyStep(Layout.Kind.Object, slots, 2 * k + 1);
    assert 2 * k / 2 == k && (2 * k + 1) / 2 == k && 2 * k % 2 == 0 && (2 * k + 1) % 2 == 1;
  }

  lemma RegroupMember(before: string, q: string, t: string, c: string, rest: string)
    ensures before + q + ":" + t + c + rest == before + (q + (":" + (t + (c + rest))))
    ensures before + q + ":" + t + c == before + (q + (":" + (t + c)))
  {
  }

  // ---- It is well formed ----

  lemma NumberAtom(n: nat)
    ensures ValidAtom(Digits(n)) && ValidAtom("-" + Digits(n))
  {
    hide Digits;
    DigitsAreDigits(n);
    forall c | c in "-" + Digits(n)
      ensures !IsSpace(c) && !IsStructural(c) && c != '"'
    {
      assert c == '-' || c in Digits(n);
    }
  }

  lemma LiteralValid(s: string)
    ensures ValidRaw(Escape(CString(s))) && Valid(Literal(s)) && Literal(s).Str?
  {
    CStringWhole(s);
    EscapeClean(CString(s));
  }

  /** The layout of a written value is well-formed JSON. */
  lemma {:induction false} LayoutValid(v: J.Value)
    requires Writable(v)
    ensures Valid(LayoutOf(v))
    decreases v
  {
    hide Valid, LayoutOf, Writable;
    if v == J.Array([]) || v == J.Object([]) {
      NoSlots(v);
      BlankValid(LayoutOf(v));
    } else if v.Array? {
      ArraySlots(v);
      forall i | 0 <= i < |v.items|
        ensures Valid(LayoutOf(v.items[i]))
      {
        LayoutValid(v.items[i]);
      }
      SlotsValid(LayoutOf(v));
    } else if v.Object? {
      ObjectSlots(v);
      forall j | 0 <= j < 2 * |v.members|
        ensures Valid(Half(v.members[j/2], j % 2)) && (j % 2 == 0 ==> Half(v.members[j/2], j % 2).Str?)
      {
        LiteralValid(v.members[j/2].0);
        LayoutValid(v.members[j/2].1);
      }
      SlotsValid(LayoutOf(v));
    } else {
      LeafValid(v);
    }
  }

  lemma LeafValid(v: J.Value)
    requires Writable(v) && !v.Array? && !v.Object?
    ensures Valid(LayoutOf(v))
  {
    hide ValidAtom, Digits, Escape;
    WordAtoms();
    match v
    case Int(i) => NumberAtom(if i < 0 then -i else i);
    case UInt(u) => NumberAtom(u);
    case String(s) => LiteralValid(s);
    case _ =>
  }

  lemma WordAtoms()
    ensures ValidAtom("null") && ValidAtom("true") && ValidAtom("false")
  {
  }

  lemma BlankValid(v: Value)
    requires v.Node? && v.slots == [Tight(Blank)]
    ensures Valid(v)
  {
  }

  lemma SlotsValid(v: Value)
    requires v.Node? && v.slots != [] && (v.kind.Object? ==> |v.slots| % 2 == 0)
    requires forall i | 0 <= i < |v.slots| ::
               && v.slots[i] == Tight(v.slots[i].value) && Valid(v.slots[i].value)
               && (v.kind.Object? && i % 2 == 0 ==> v.slots[i].value.Str?)
    ensures Valid(v)
  {
    forall i | 0 <= i < |v.slots|
      ensures ValidSlot(v.slots[i])
    {
      assert Valid(v.slots[i].value);
    }
  }

  // ---- What it denotes ----

  /** The strings the index reads back from what is written: no NUL, and short escapes for all control characters. */
  predicate Plain(s: string) { '\0' !in s && forall c | c in s :: c as int >= 0x20 || HasShort(c) }

  predicate AllPlain(v: J.Value)
    decreases v
  {
    match v
    case String(s) => Plain(s)
    case Array(items) => forall i | 0 <= i < |items| :: AllPlain(items[i])
    case Object(ms) => forall i | 0 <= i < |ms| :: Plain(ms[i].0) && AllPlain(ms[i].1)
    case _ => true
  }

  /** The value as a parser of the text would have it, numbers by their digits. */
  function JsonOf(v: J.Value): Json
    requires Writable(v)
    decreases v
  {
    match v
    case String(s) => Chars(s)
    case Array(items) => List(seq(|items|, i requires 0 <= i < |items| => JsonOf(items[i])))
    case Object(ms) => Dict(seq(|ms|, i requires 0 <= i < |ms| => (ms[i].0, JsonOf(ms[i].1))))
    case Boolean(b) => Scalar(if b then "true" else "false")
    case Int(i) => Scalar(IntText(i))
    case UInt(u) => Scalar(Digits(if u < 0 then 0 else u))
    case _ => Scalar("null")
  }

  lemma DecodeWritten(c: char, rest: string)
    requires c != '\0' && ValidRaw(rest)
    ensures ValidRaw(EscapeChar(c) + rest)
    ensures c as int >= 0x20 || HasShort(c) ==> Decode(EscapeChar(c) + rest) == [c] + Decode(rest)
    ensures c as int < 0x20 && !HasShort(c) ==>
              Decode(EscapeChar(c) + rest) != "" && Decode(EscapeChar(c) + rest)[0] == '\0'
  {
    hide Decode, ValidRaw, ShortOnly;
    EscapeCharClean(c, rest);
    var e := EscapeChar(c);
    var s := e + rest;
    RawStep(s);
    assert s[0] == e[0] && (|e| >= 2 ==> s[1] == e[1]) && s[|e|..] == rest;
  }

  predicate DenotesExactly(s: string) {
    ValidRaw(Escape(CString(s))) && (Decode(Escape(CString(s))) == s <==> Plain(s))
  }

  /** A written literal denotes the string written exactly if that is plain. */
  lemma {:induction false} LiteralMeaning(s: string)
    ensures DenotesExactly(s)
  {
    hide Decode, ValidRaw, EscapeChar, HasShort;
    RawEnd();
    if s != "" && s[0] != '\0' {
      LiteralMeaning(s[1..]);
      var rest := Escape(CString(s[1..]));
      DecodeWritten(s[0], rest);
      assert CString(s)[0] == s[0] && CString(s)[1..] == CString(s[1..]);
      assert Escape(CString(s)) == EscapeChar(s[0]) + rest;
      assert s == [s[0]] + s[1..];
      assert forall c :: c in s <==> c == s[0] || c in s[1..];
      DecodeFirst(s[0], Decode(rest), s);
    } else if s != "" {
      assert s[0] in s;
    }
  }

  ghost predicate MeansExactly(v: J.Value) {
    Writable(v) && Valid(LayoutOf(v)) && (Meaning(LayoutOf(v)) == JsonOf(v) <==> AllPlain(v))
  }

  /** The layout denotes the value written exactly if all its strings are plain. */
  lemma {:induction false} LayoutMeaning(v: J.Value)
    requires Writable(v)
    ensures MeansExactly(v)
    decreases v
  {
    LayoutValid(v);
    hide Valid, LayoutOf, Writable, Meaning, JsonOf, AllPlain, DenotesExactly;
    if v == J.Array([]) || v == J.Object([]) {
      NoSlots(v);
      EmptyMeaning(v);
    } else if v.Array? {
      ArraySlots(v);
      forall i | 0 <= i < |v.items|
        ensures MeansExactly(v.items[i])
      {
        LayoutMeaning(v.items[i]);
      }
      ArrayMeaning(v);
    } else if v.Object? {
      ObjectSlots(v);
      forall i | 0 <= i < |v.members|
        ensures MeansExactly(v.members[i].1) && DenotesExactly(v.members[i].0)
      {
        LayoutMeaning(v.members[i].1);
        LiteralMeaning(v.members[i].0);
      }
      ObjectMeaning(v);
    } else {
      LeafMeaning(v);
    }
  }

  lemma EmptyMeaning(v: J.Value)
    requires Writable(v) && (v == J.Array([]) || v == J.Object([])) && Valid(LayoutOf(v))
    ensures Meaning(LayoutOf(v)) == JsonOf(v) && AllPlain(v)
  {
    NoSlots(v);
    hide LayoutOf;
    if v.Array? {
      assert JsonOf(v) == List([]);
    } else {
      assert JsonOf(v) == Dict([]);
    }
  }

  lemma LeafMeaning(v: J.Value)
    requires Writable(v) && !v.Array? && !v.Object? && Valid(LayoutOf(v))
    ensures Meaning(LayoutOf(v)) == JsonOf(v) <==> AllPlain(v)
  {
    if v.String? {
      LiteralMeaning(v.s);
    }
  }

  lemma ArrayMeaning(v: J.Value)
    requires Writable(v) && v.Array? && v.items != [] && Valid(LayoutOf(v))
    requires forall i | 0 <= i < |v.items| :: MeansExactly(v.items[i])
    ensures Meaning(LayoutOf(v)) == JsonOf(v) <==> AllPlain(v)
  {
    ArraySlots(v);
    hide LayoutOf, Writable;
    var slots := LayoutOf(v).slots;
    assert !IsEmpty(slots) by {
      assert slots[0] == Tight(LayoutOf(v.items[0]));
    }
    assert forall i | 0 <= i < |v.items| :: Meaning(LayoutOf(v)).elems[i] == Meaning(slots[i].value);
    assert forall i | 0 <= i < |v.items| :: JsonOf(v).elems[i] == JsonOf(v.items[i]);
  }

  ghost predicate MemberMeans(m: (string, J.Value), got: (string, Json)) {
    && MeansExactly(m.1) && DenotesExactly(m.0)
    && got == (Decode(Escape(CString(m.0))), Meaning(LayoutOf(m.1)))
  }

  lemma MemberPlain(m: (string, J.Value), got: (string, Json))
    requires MemberMeans(m, got)
    ensures Writable(m.1) && (got == (m.0, JsonOf(m.1)) <==> Plain(m.0) && AllPlain(m.1))
  {
    hide LayoutOf, Writable, Plain, Escape, CString, Decode, ValidRaw, Valid, Meaning, JsonOf, AllPlain;
  }

  lemma ObjectMeaning(v: J.Value)
    requires Writable(v) && v.Object? && v.members != [] && Valid(LayoutOf(v))
    requires forall i | 0 <= i < |v.members| :: MeansExactly(v.members[i].1) && DenotesExactly(v.members[i].0)
    ensures Meaning(LayoutOf(v)) == JsonOf(v) <==> AllPlain(v)
  {
    MembersMeaning(v);
    hide LayoutOf, Writable, Plain, Valid, Meaning, MemberMeans, MeansExactly, DenotesExactly;
    var ms := v.members;
    JsonMembers(v);
    var got, all := Meaning(LayoutOf(v)).members, JsonOf(v).members;
    hide JsonOf;
    forall k | 0 <= k < |ms|
      ensures got[k] == all[k] <==> Plain(ms[k].0) && AllPlain(ms[k].1)
    {
      MemberPlain(ms[k], got[k]);
    }
    SameMembers(got, all);
  }

  lemma SameMembers(a: seq<(string, Json)>, b: seq<(string, Json)>)
    requires |a| == |b|
    ensures a == b <==> forall k | 0 <= k < |a| :: a[k] == b[k]
  {
  }

  lemma JsonMembers(v: J.Value)
    requires Writable(v) && v.Object?
    ensures JsonOf(v).Dict? && |JsonOf(v).members| == |v.members|
    ensures forall k | 0 <= k < |v.members| ::
              Writable(v.members[k].1) && JsonOf(v).members[k] == (v.members[k].0, JsonOf(v.members[k].1))
  {
  }

  lemma MembersMeaning(v: J.Value)
    requires Writable(v) && v.Object? && v.members != [] && Valid(LayoutOf(v))
    requires forall i | 0 <= i < |v.members| :: MeansExactly(v.members[i].1) && DenotesExactly(v.members[i].0)
    ensures var got := Meaning(LayoutOf(v));
            && got.Dict? && |got.members| == |v.members|
            && forall k | 0 <= k < |v.members| :: MemberMeans(v.members[k], got.members[k])
  {
    SlotsAre(v);
    hide LayoutOf, Writable, Plain, Escape, CString, Decode, ValidRaw, Valid, Half, AllPlain, JsonOf, Meaning,
         MeansExactly, DenotesExactly;
    var ms, slots := v.members, LayoutOf(v).slots;
    assert !IsEmpty(slots);
    DictSize(LayoutOf(v));
    forall k | 0 <= k < |ms|
      ensures MemberMeans(ms[k], Meaning(LayoutOf(v)).members[k])
    {
      DictMember(LayoutOf(v), k);
      assert slots[2*k].value == Literal(ms[k].0) && slots[2*k+1].value == LayoutOf(ms[k].1);
    }
  }

  lemma DictSize(v: Value)
    requires Valid(v) && v.Node? && v.kind.Object? && !IsEmpty(v.slots)
    ensures Meaning(v).Dict? && |Meaning(v).members| == |v.slots| / 2
  {
  }

  lemma DictMember(v: Value, k: nat)
    requires Valid(v) && v.Node? && v.kind.Object? && !IsEmpty(v.slots) && k < |v.slots| / 2
    ensures Layout.Members(v.slots) && Valid(v.slots[2*k+1].value) && |Meaning(v).members| == |v.slots| / 2
    ensures Meaning(v).members[k] == (Decode(v.slots[2*k].value.raw), Meaning(v.slots[2*k+1].value))
  {
    ObjectKeys(v);
  }

  /** The slots of a written object, member by member. */
  lemma SlotsAre(v: J.Value)
    requires Writable(v) && v.Object? && v.members != []
    ensures var ms, slots := v.members, LayoutOf(v).slots;
            && LayoutOf(v).Node? && LayoutOf(v).kind.Object? && |slots| == 2 * |ms|
            && forall k | 0 <= k < |ms| ::
                 && Writable(ms[k].1)
                 && slots[2*k] == Tight(Literal(ms[k].0)) && slots[2*k+1] == Tight(LayoutOf(ms[k].1))
  {
    ObjectSlots(v);
    hide LayoutOf, Writable, Literal;
    var ms, slots := v.members, LayoutOf(v).slots;
    forall k | 0 <= k < |ms|
      ensures slots[2*k] == Tight(Literal(ms[k].0)) && slots[2*k+1] == Tight(LayoutOf(ms[k].1))
    {
      assert 2 * k / 2 == k && (2 * k + 1) / 2 == k && 2 * k % 2 == 0 && (2 * k + 1) % 2 == 1;
      assert slots[2*k] == Tight(Half(ms[2*k/2], 2 * k % 2));
      assert slots[2*k+1] == Tight(Half(ms[(2*k+1)/2], (2 * k + 1) % 2));
    }
  }

  // ---- What the index finds in it ----

  lemma {:induction false} NoBareQuote(s: string)
    requires '"' !in s
    ensures '"' !in Escape(s)
  {
    hide Escape, EscapeChar;
    EscapeNothing();
    if s != "" {
      assert s[0] in s;
      NoBareQuote(s[1..]);
      QuoteOnly(s[0]);
      EscapeFirst(s);
      assert forall c | c in Escape(s) :: c in EscapeChar(s[0]) || c in Escape(s[1..]);
    }
  }

  lemma EscapeNothing()
    ensures Escape("") == ""
  {
  }

  lemma EscapeFirst(s: string)
    requires s != ""
    ensures Escape(s) == EscapeChar(s[0]) + Escape(s[1..])
  {
  }

  lemma QuoteOnly(c: char)
    requires c != '"'
    ensures '"' !in EscapeChar(c)
  {
  }

  lemma {:induction false} CStringPart(s: string)
    ensures forall c | c in CString(s) :: c in s
  {
    if s != "" && s[0] != '\0' {
      CStringPart(s[1..]);
      assert CString(s)[1..] == CString(s[1..]);
      assert forall c | c in s[1..] :: c in s;
    }
  }

  /** Without blanks before the names, and without quotes in them, the walk takes the first member or none. */
  lemma OnlyFirst(v: Value, key: string)
    requires Valid(v) && v.Node? && v.kind.Object? && !IsEmpty(v.slots) && Ordinary(key)
    requires Layout.Members(v.slots) && |v.slots| >= 2
    requires forall m | 0 < m < |v.slots| / 2 :: v.slots[2*m].pre == "" && '"' !in v.slots[2*m].value.raw
    ensures PlainStep(v, AtKey(key))
    ensures TakenSlot(v, AtKey(key)) == if Decode(v.slots[2*0].value.raw) == key then Some(1) else None
    ensures TakenSlot(v, AtKey(key)) == ChildSlot(v, AtKey(key)) <==>
            (KeyIndex(v.slots, key, 0) == 0 || 2 * KeyIndex(v.slots, key, 0) == |v.slots|)
  {
    hide Valid, Decode, ValidRaw, AfterQuote;
    var slots := v.slots;
    var t := TakenIndex(slots, key, 0);
    assert slots[2*0] == slots[0];
    assert forall m | 0 < m < |slots| / 2 :: !Takes(slots, key, m);
  }

  lemma NamesDiffer(v: J.Value)
    requires Writable(v) && v.Object? && v.members != []
    ensures forall k | 0 < k < |v.members| :: v.members[k].0 != v.members[0].0
  {
    hide J.Less;
    J.LessIrreflexive(v.members[0].0);
  }

  /**
   In a written object whose names are plain and without quotes, the index finds the first
   member only: it finds what a parser finds exactly if the key is that of no later member.
   */
  lemma WrittenKeys(v: J.Value, key: string)
    requires Writable(v) && v.Object? && v.members != [] && Ordinary(key)
    requires forall k | 0 <= k < |v.members| :: Plain(v.members[k].0) && '"' !in v.members[k].0
    ensures Valid(LayoutOf(v)) && PlainStep(LayoutOf(v), AtKey(key))
    ensures TakenSlot(LayoutOf(v), AtKey(key)) == if v.members[0].0 == key then Some(1) else None
    ensures TakenSlot(LayoutOf(v), AtKey(key)) == ChildSlot(LayoutOf(v), AtKey(key)) <==>
            forall k | 0 < k < |v.members| :: v.members[k].0 != key
  {
    LayoutValid(v);
    SlotsAre(v);
    var l, ms := LayoutOf(v), v.members;
    var slots := l.slots;
    hide LayoutOf, Writable, Plain, Escape, CString, Decode, ValidRaw, Valid, PlainStep, TakenSlot, ChildSlot;
    assert !IsEmpty(slots);
    ObjectKeys(l);
    forall m | 0 <= m < |slots| / 2
      ensures slots[2*m].pre == "" && '"' !in slots[2*m].value.raw && Decode(slots[2*m].value.raw) == ms[m].0
    {
      LiteralMeaning(ms[m].0);
      CStringPart(ms[m].0);
      NoBareQuote(CString(ms[m].0));
    }
    assert slots[2*0] == slots[0];
    OnlyFirst(l, key);
    NamesDiffer(v);
    var f := KeyIndex(slots, key, 0);
    if 0 < f && 2 * f < |slots| {
      assert ms[f].0 == key && Decode(slots[2*0].value.raw) != key;
    }
  }
}
