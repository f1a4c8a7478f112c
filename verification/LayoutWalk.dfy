/**
 What a path leads to, told by the layout alone. For most keys the object walk depends on
 nothing but the members it walks over, so its answer can be given without the text.
 */
module LayoutWalk {
  import opened Basics
  import opened Lexer
  import opened Keys
  import opened Layout
  import opened Navigation
  import opened Children
  import opened Walks
  import opened Reach

  /** The walk takes member `m`; behind a comma without whitespace it compares from inside the literal. */
  predicate Takes(slots: seq<Slot>, key: string, m: nat)
    requires Members(slots) && 2 * m < |slots|
  {
    var s := slots[2*m];
    if m == 0 || s.pre != "" then Decode(s.value.raw) == key else KeyBehindQuote(s.value.raw, key)
  }

  /** The first member, from `m` on, that the walk takes. */
  function TakenIndex(slots: seq<Slot>, key: string, m: nat): (r: nat)
    requires 2 * m <= |slots| && Members(slots)
    ensures m <= r <= |slots| / 2
    ensures r < |slots| / 2 ==> Takes(slots, key, r)
    ensures forall i | m <= i < r :: !Takes(slots, key, i)
    decreases |slots| - 2 * m
  {
    if 2 * m == |slots| || Takes(slots, key, m) then m else TakenIndex(slots, key, m + 1)
  }

  ghost function TakenSlot(v: Value, e: PathElem): (r: Option<nat>)
    requires Known(v)
    ensures r.Some? ==> v.Node? && r.value < |v.slots|
  {
    match e
    case AtIndex(idx) => ArrayWalk(v, idx)
    case AtKey(key) =>
      if !v.Node? || v.kind.Array? || IsEmpty(v.slots) then None
      else
        ObjectKeys(v);
        var m := TakenIndex(v.slots, key, 0);
        if 2 * m == |v.slots| then None else Some(2 * m + 1)
  }

  /** The layouts on which a step of the walks depends on nothing else. */
  predicate PlainStep(v: Value, e: PathElem)
    requires Known(v)
  {
    e.AtKey? ==>
      && !BlankObject(v)
      && (v.Node? && v.kind.Object? && !IsEmpty(v.slots) ==>
            && '"' !in e.key
            && (Ordinary(e.key) || (ObjectKeys(v); SpacedUpTo(v.slots, TakenIndex(v.slots, e.key, 0)))))
  }

  /** There the object walk takes the member the layout says, whatever text stands around the object. */
  lemma WalkTakes(data: string, json: string, offset: nat, hi: nat, p: Place, node: nat, key: string)
    requires Start(data, json, offset, hi, p, node) && PlainStep(p.slot.value, AtKey(key))
    ensures ObjectWalk(json, p, offset, key) == TakenSlot(p.slot.value, AtKey(key))
  {
    hide Start, AtPlace, Window, Valid, ProbeMatches, Takes, ValidRaw;
    StartParts(data, json, offset, hi, p, node);
    var v := p.slot.value;
    if v.Node? && v.kind.Object? && !IsEmpty(v.slots) {
      ObjectKeys(v);
      var t := TakenIndex(v.slots, key, 0);
      forall m | 0 <= m <= t && 2 * m < |v.slots|
        ensures ProbeMatches(json, p, offset, m, key) <==> Takes(v.slots, key, m)
      {
        ProbeTakes(data, json, offset, hi, p, node, m, key);
      }
    }
  }

  lemma StartParts(data: string, json: string, offset: nat, hi: nat, p: Place, node: nat)
    requires Start(data, json, offset, hi, p, node)
    ensures Known(p.slot.value)
  {
  }

  lemma ProbeTakes(data: string, json: string, offset: nat, hi: nat, p: Place, node: nat, m: nat, key: string)
    requires Start(data, json, offset, hi, p, node) && p.slot.value.Node? && p.slot.value.kind.Object?
    requires !IsEmpty(p.slot.value.slots) && 2 * m < |p.slot.value.slots| && '"' !in key
    requires Ordinary(key) || m == 0 || p.slot.value.slots[2*m].pre != ""
    ensures Members(p.slot.value.slots)
    ensures ProbeMatches(json, p, offset, m, key) <==> Takes(p.slot.value.slots, key, m)
  {
    hide Start, AtPlace, Window, Valid, ProbeMatches, ValidRaw, Decode, KeyBehindQuote;
    StartParts(data, json, offset, hi, p, node);
    ObjectKeys(p.slot.value);
    if m == 0 || p.slot.value.slots[2*m].pre != "" {
      ProbeExact(data, json, offset, hi, p, node, m, key);
    } else {
      TightProbe(data, json, offset, hi, p, node, m, key);
    }
  }

  // ---- Paths ----

  ghost predicate PlainPath(v: Value, path: seq<PathElem>)
    requires Known(v)
    decreases |path|
  {
    path == [] ||
    (&& PlainStep(v, path[0])
     && match TakenSlot(v, path[0])
        case None => true
        case Some(i) => SlotsPlaced(v); PlainPath(v.slots[i].value, path[1..]))
  }

  /** The place the walks lead to. */
  ghost function TakenPlace(p: Place, path: seq<PathElem>): (r: Option<Place>)
    requires Known(p.slot.value)
    ensures r.Some? ==> Known(r.value.slot.value)
    decreases |path|
  {
    if path == [] then Some(p)
    else match TakenSlot(p.slot.value, path[0])
         case None => None
         case Some(i) => SlotKnown(p, i); TakenPlace(SlotPlace(p, i), path[1..])
  }

  /** The range the walks report for a path in a document. */
  ghost function TakenRange(root: Value, path: seq<PathElem>): Option<(int, int)>
    requires Known(root)
  {
    match TakenPlace(RootPlace(root), path)
    case None => None
    case Some(q) => Some((q.start, End(q)))
  }

  lemma {:induction false} TakenShift(p: Place, shift: nat, path: seq<PathElem>)
    requires Known(p.slot.value)
    ensures TakenPlace(Place(p.start + shift, p.slot), path) ==
            match TakenPlace(p, path)
            case None => None
            case Some(q) => Some(Place(q.start + shift, q.slot))
    decreases |path|
  {
    hide TakenSlot, Valid, Body;
    if path != [] {
      match TakenSlot(p.slot.value, path[0])
      case None =>
      case Some(i) => SlotKnown(p, i); TakenShift(SlotPlace(p, i), shift, path[1..]);
    }
  }

  /** Where the layout tells what a step leads to, the walks go there. */
  lemma PlainStepWalk(data: string, json: string, offset: nat, hi: nat, p: Place, node: nat, e: PathElem)
    requires Start(data, json, offset, hi, p, node) && PlainStep(p.slot.value, e)
    ensures StepWalk(json, p, offset, e) == TakenSlot(p.slot.value, e) && DefinedStep(p.slot.value, e)
  {
    hide Start, ObjectWalk, TakenIndex, SpacedUpTo;
    StartKnown(data, json, offset, hi, p, node);
    match e {
      case AtKey(key) => WalkTakes(data, json, offset, hi, p, node, key);
      case AtIndex(idx) =>
    }
  }

  /** Where the layout tells what a path leads to, the walks go there, whatever text surrounds the document. */
  lemma {:induction false} PlainWalk(data: string, json: string, offset: nat, hi: nat, p: Place, node: nat,
      path: seq<PathElem>)
    requires Start(data, json, offset, hi, p, node) && PlainPath(p.slot.value, path)
    ensures DefinedPath(json, p, offset, path) && WalkTo(json, p, offset, path) == TakenPlace(p, path)
    decreases |path|
  {
    hide Bp, Nav, Text, Encode, SlotText, AtPlace, Body, Start, SlotPlace, PlainStep, TakenSlot, ObjectWalk, ArrayWalk,
         Valid, SlotNode;
    StartKnown(data, json, offset, hi, p, node);
    if path != [] {
      PlainStepWalk(data, json, offset, hi, p, node, path[0]);
      match TakenSlot(p.slot.value, path[0]) {
        case None =>
        case Some(i) =>
          SlotKnown(p, i);
          ChildAt(data, p, node, i);
          StepKeepsStart(data, json, offset, hi, p, node, i, SlotNode(data, p, i));
          PlainWalk(data, json, offset, hi, SlotPlace(p, i), SlotNode(data, p, i), path[1..]);
      }
    }
  }

  lemma StartLonger(data: string, own: string, offset: nat, hi: nat, p: Place, node: nat, tail: string)
    requires Start(data, own, offset, hi, p, node)
    ensures Start(data, own + tail, offset, hi, p, node)
  {
    hide AtPlace, Valid;
    assert (own + tail)[..hi-offset] == own[..hi-offset];
  }

  /** What the layout alone tells is local. */
  lemma {:induction false} PlainIsLocal(data: string, own: string, offset: nat, hi: nat, p: Place, node: nat,
                                        path: seq<PathElem>)
    requires Start(data, own, offset, hi, p, node) && Known(p.slot.value) && PlainPath(p.slot.value, path)
    ensures LocalPath(own, p, offset, path)
    decreases |path|
  {
    hide Start, SlotPlace, SlotNode, PlainStep, TakenSlot, StepWalk, LocalStep, Valid, Body;
    if path != [] {
      PlainStepWalk(data, own, offset, hi, p, node, path[0]);
      forall tail: string
        ensures StepWalk(own + tail, p, offset, path[0]) == StepWalk(own, p, offset, path[0])
      {
        StartLonger(data, own, offset, hi, p, node, tail);
        PlainStepWalk(data, own + tail, offset, hi, p, node, path[0]);
      }
      StepExact(data, own, offset, hi, p, node, path[0]);
      match TakenSlot(p.slot.value, path[0])
      case None =>
      case Some(i) =>
        SlotKnown(p, i);
        StartBelow(data, own, offset, hi, p, node, i);
        PlainIsLocal(data, own, offset, hi, SlotPlace(p, i), SlotNode(data, p, i), path[1..]);
    }
  }

  // ---- Where that is what a parser finds ----

  /** The layouts on which one step of a path is looked up as a parser would. */
  predicate SafeStep(v: Value, e: PathElem)
    requires Valid(v)
  {
    match e
    case AtKey(key) =>
      v.Node? && v.kind.Object? ==>
        if IsEmpty(v.slots) then v.slots[0].pre == ""
        else '"' !in key && (ObjectKeys(v); SpacedUpTo(v.slots, KeyIndex(v.slots, key, 0)))
    case AtIndex(idx) =>
      v.Node? && v.kind.Array? && IsEmpty(v.slots) ==> v.slots[0].pre == "" || idx < -1 || idx > 0
  }

  predicate SafePath(v: Value, path: seq<PathElem>)
    requires Valid(v)
    decreases |path|
  {
    path == [] ||
    (&& SafeStep(v, path[0])
     && match ChildSlot(v, path[0])
        case None => true
        case Some(i) => SafePath(v.slots[i].value, path[1..]))
  }

  lemma SafeTaken(v: Value, e: PathElem)
    requires Valid(v) && SafeStep(v, e)
    ensures PlainStep(v, e) && TakenSlot(v, e) == ChildSlot(v, e)
  {
    hide Valid, Decode, ValidRaw, KeyBehindQuote;
    match e {
      case AtKey(key) =>
        if v.Node? && v.kind.Object? && !IsEmpty(v.slots) {
          ObjectKeys(v);
          var f, t := KeyIndex(v.slots, key, 0), TakenIndex(v.slots, key, 0);
          assert forall m | 0 <= m <= f && 2 * m < |v.slots| ::
            Takes(v.slots, key, m) <==> Decode(v.slots[2*m].value.raw) == key;
          assert f == t;
        }
      case AtIndex(idx) =>
        ArrayWalkExact(v, idx);
    }
  }

  lemma {:induction false} SafePlace(p: Place, path: seq<PathElem>)
    requires ValidSlot(p.slot) && SafePath(p.slot.value, path)
    ensures PlainPath(p.slot.value, path) && TakenPlace(p, path) == Locate(p, path)
    decreases |path|
  {
    hide Valid, TakenSlot, SafeStep, PlainStep;
    if path != [] {
      SafeTaken(p.slot.value, path[0]);
      match ChildSlot(p.slot.value, path[0])
      case None =>
      case Some(i) => SlotKnown(p, i); SafePlace(SlotPlace(p, i), path[1..]);
    }
  }

  // ---- A key that reaches behind the document ----

  function OddKey(): string { ":2}\n{" }

  lemma TightText()
    ensures Text(TightDocument()) == "{\"a\":1,\"b\":2}"
    ensures var p := RootPlace(TightDocument()); ProbePos(p, 0, 0) == 1 && ProbePos(p, 0, 1) == 8
  {
    TightSlots();
    hide Body, SlotText;
    var slots := TightDocument().slots;
    forall k | 0 < k <= 4
      ensures Body(Object, slots, k) == Body(Object, slots, k - 1) + SlotText(slots[k-1]) + [Follower(Object, 4, k - 1)]
    {
      BodyNext(slots, k);
    }
    BodyNext(slots, 1);
    assert Body(Object, slots, 1) == "\"a\":";
    assert Body(Object, slots, 2) == "\"a\":1,";
    assert Body(Object, slots, 3) == "\"a\":1,\"b\":";
    assert Body(Object, slots, 4) == "\"a\":1,\"b\":2}";
  }

  lemma BodyNext(slots: seq<Slot>, k: nat)
    requires 0 < k <= |slots|
    ensures Body(Object, slots, 0) == ""
    ensures Body(Object, slots, k) ==
            Body(Object, slots, k - 1) + SlotText(slots[k-1]) + [Follower(Object, |slots|, k - 1)]
  {
    hide SlotText;
  }

  lemma TightSlots()
    ensures var slots := TightDocument().slots;
            && SlotText(slots[0]) == "\"a\"" && SlotText(slots[1]) == "1"
            && SlotText(slots[2]) == "\"b\"" && SlotText(slots[3]) == "2"
            && Text(TightDocument()) == "{" + Body(Object, slots, 4)
  {
    hide Body;
  }

  /** The two comparisons: behind the opening quote of the first key, and behind the closing one of the second. */
  lemma TightProbes(json: string, key: string)
    requires |json| > 10 && json[1] == '"' && json[8] != '"' && json[9] == '"'
    ensures var p := RootPlace(TightDocument());
            && (ProbeMatches(json, p, 0, 0, key) <==> Spells(json, 2, key))
            && (ProbeMatches(json, p, 0, 1, key) <==> Spells(json, 10, key))
  {
    hide Spells, Text;
    TightText();
    assert FirstQuote(json, 1) == 1 && FirstQuote(json, 8) == 9;
  }

  lemma OddSpelled(json: string)
    requires |json| > 13 && json[2] != ':' && json[2] != '\\' && json[10..14] == ":2}\n" && Read(json, 14) != '\\'
    ensures !Spells(json, 2, OddKey())
    ensures Spells(json, 10, OddKey()) <==> Read(json, 14) == '{' && Read(json, 15) == '"'
  {
    var key := OddKey();
    assert json[10..14][0] == ':' && json[10..14][1] == '2' && json[10..14][2] == '}' && json[10..14][3] == '\n';
    assert key[1..] == "2}\n{" && key[1..][1..] == "}\n{" && key[1..][1..][1..] == "\n{";
    assert key[1..][1..][1..][1..] == "{" && "{"[1..] == "";
    assert Spells(json, 15, "") <==> Read(json, 15) == '"';
  }

  /** In `{"a":1,"b":2}` such a key is taken for the second one exactly if the line behind looks like a document. */
  lemma OddKeyWalks(json: string)
    requires |json| > 13 && json[1] == '"' && json[2] == 'a' && json[8] == 'b' && json[9] == '"'
    requires json[10..14] == ":2}\n" && Read(json, 14) != '\\'
    ensures Valid(TightDocument())
    ensures ObjectWalk(json, RootPlace(TightDocument()), 0, OddKey()) ==
            if Read(json, 14) == '{' && Read(json, 15) == '"' then Some(3) else None
  {
    hide Spells, Valid, Text, RootPlace, ProbeMatches, OddKey, Read;
    TightDocumentValid();
    OddSpelled(json);
    TightProbes(json, OddKey());
    PlaceOf(TightDocument());
    TwoMembers(json, RootPlace(TightDocument()), OddKey());
  }

  /** The walk through an object of two members. */
  lemma TwoMembers(json: string, p: Place, key: string)
    requires Known(p.slot.value) && p.slot.value.Node? && p.slot.value.kind.Object? && |p.slot.value.slots| == 4
    ensures ObjectWalk(json, p, 0, key) ==
            if ProbeMatches(json, p, 0, 0, key) then Some(1) else if ProbeMatches(json, p, 0, 1, key) then Some(3)
              else None
  {
    hide ProbeMatches, Valid;
    assert WalkIndex(json, p, 0, 1, key) == if ProbeMatches(json, p, 0, 1, key) then 1
           else WalkIndex(json, p, 0, 2, key);
  }

  lemma PlaceOf(root: Value)
    ensures RootPlace(root).slot.value == root
  {
  }

  /** With and without a second document behind it. */
  lemma OddLine(line: string)
    requires line == Text(TightDocument()) + "\n"
    ensures Valid(TightDocument())
    ensures ObjectWalk(line, RootPlace(TightDocument()), 0, OddKey()) == None
    ensures ObjectWalk(line + line, RootPlace(TightDocument()), 0, OddKey()) == Some(3)
  {
    TightText();
    hide Text, ObjectWalk, Valid, RootPlace, OddKey;
    assert line == "{\"a\":1,\"b\":2}\n";
    assert line[10..14] == ":2}\n";
    OddKeyWalks(line);
    var two := line + line;
    assert two[14] == line[0] && two[15] == line[1] && two[10..14] == line[10..14];
    OddKeyWalks(two);
  }
}
