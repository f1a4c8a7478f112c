/**
 What the code follows along a path, on every layout; and when exactly that is what the
 layout has for the path.
 */
module Walks {
  import opened Basics
  import opened Lexer
  import opened Layout
  import opened Navigation
  import opened Children

  /** The slot one step of a path leads to. */
  ghost function StepWalk(json: string, p: Place, offset: nat, e: PathElem): (r: Option<nat>)
    requires Known(p.slot.value)
    ensures r.Some? ==> p.slot.value.Node? && r.value < |p.slot.value.slots|
  {
    match e
    case AtKey(key) => ObjectWalk(json, p, offset, key)
    case AtIndex(idx) => ArrayWalk(p.slot.value, idx)
  }

  /** A key is not looked up in an object with only blanks in it. */
  predicate DefinedStep(v: Value, e: PathElem) { e.AtKey? ==> !BlankObject(v) }

  /** The place a path leads to. */
  ghost function WalkTo(json: string, p: Place, offset: nat, path: seq<PathElem>): (r: Option<Place>)
    requires Known(p.slot.value)
    ensures r.Some? ==> Known(r.value.slot.value)
    decreases |path|
  {
    if path == [] then Some(p)
    else match StepWalk(json, p, offset, path[0])
         case None => None
         case Some(i) => SlotKnown(p, i); WalkTo(json, SlotPlace(p, i), offset, path[1..])
  }

  ghost predicate DefinedPath(json: string, p: Place, offset: nat, path: seq<PathElem>)
    requires Known(p.slot.value)
    decreases |path|
  {
    path == [] ||
    (&& DefinedStep(p.slot.value, path[0])
     && match StepWalk(json, p, offset, path[0])
        case None => true
        case Some(i) => SlotKnown(p, i); DefinedPath(json, SlotPlace(p, i), offset, path[1..]))
  }

  lemma StepKeepsStart(data: string, json: string, offset: nat, hi: nat, p: Place, node: nat, i: nat, child: nat)
    requires Start(data, json, offset, hi, p, node) && p.slot.value.Node? && i < |p.slot.value.slots|
    requires AtPlace(data, SlotPlace(p, i), child)
    ensures Start(data, json, offset, hi, SlotPlace(p, i), child)
  {
    hide Bp, Nav, Text, Encode, SlotText, AtPlace;
    SlotKnown(p, i);
    ChildPlace(data, p, node, i);
    SlotReads(data, p, node, i);
  }

  lemma StartKnown(data: string, json: string, offset: nat, hi: nat, p: Place, node: nat)
    requires Start(data, json, offset, hi, p, node)
    ensures Known(p.slot.value) && AtPlace(data, p, node)
  {
  }

  /** The range the walks lead to, counted from the root bracket. */
  ghost function WalkedRange(json: string, p: Place, path: seq<PathElem>): Option<(int, int)>
    requires Known(p.slot.value)
  {
    match WalkTo(json, p, p.start, path)
    case None => None
    case Some(q) => Some((q.start - p.start, End(q) - p.start))
  }

  // ---- Moving a place ----

  lemma {:induction false} IndexShift(json: string, p: Place, offset: nat, shift: nat, m: nat, key: string)
    requires p.slot.value.Node? && |p.slot.value.slots| % 2 == 0 && 2 * m <= |p.slot.value.slots|
    ensures WalkIndex(json, Place(p.start + shift, p.slot), offset + shift, m, key) ==
              WalkIndex(json, p, offset, m, key)
    decreases |p.slot.value.slots| - 2 * m
  {
    if 2 * m < |p.slot.value.slots| {
      IndexShift(json, p, offset, shift, m + 1, key);
    }
  }

  lemma StepShift(json: string, p: Place, offset: nat, shift: nat, e: PathElem)
    requires Known(p.slot.value)
    ensures StepWalk(json, Place(p.start + shift, p.slot), offset + shift, e) == StepWalk(json, p, offset, e)
  {
    hide Valid, ProbeMatches, WalkIndex;
    if e.AtKey? && p.slot.value.Node? && p.slot.value.kind.Object? && !IsEmpty(p.slot.value.slots) {
      ObjectKeys(p.slot.value);
      IndexShift(json, p, offset, shift, 0, e.key);
    }
  }

  /** The walks depend on where a place is only relative to the iterator's text. */
  lemma {:induction false} WalkShift(json: string, p: Place, offset: nat, shift: nat, path: seq<PathElem>)
    requires Known(p.slot.value)
    ensures var q := Place(p.start + shift, p.slot);
            && (DefinedPath(json, q, offset + shift, path) <==> DefinedPath(json, p, offset, path))
            && WalkTo(json, q, offset + shift, path) ==
               match WalkTo(json, p, offset, path)
               case None => None
               case Some(r) => Some(Place(r.start + shift, r.slot))
    decreases |path|
  {
    hide Valid, Body, StepWalk;
    var q := Place(p.start + shift, p.slot);
    if path != [] {
      StepShift(json, p, offset, shift, path[0]);
      match StepWalk(json, p, offset, path[0])
      case None =>
      case Some(i) =>
        SlotKnown(p, i);
        assert SlotPlace(q, i) == Place(SlotPlace(p, i).start + shift, SlotPlace(p, i).slot);
        WalkShift(json, SlotPlace(p, i), offset, shift, path[1..]);
    }
  }

  // ---- Where a path can lead ----

  lemma SlotInside(p: Place, i: nat)
    requires p.slot.value.Node? && i < |p.slot.value.slots|
    ensures p.start < SlotPlace(p, i).start && End(SlotPlace(p, i)) < End(p)
  {
    var v := p.slot.value;
    BodyGrows(v.kind, v.slots, i, |v.slots|);
    hide SlotText, Body;
    TextLength(p.slot);
  }

  lemma TextLength(s: Slot)
    requires s.value.Node?
    ensures |SlotText(s)| == |s.pre| + 1 + |Body(s.value.kind, s.value.slots, |s.value.slots|)| + |s.post|
  {
    hide Body;
  }

  /** What a walk finds is inside the place it starts from. */
  lemma {:induction false} WalkInside(json: string, p: Place, offset: nat, path: seq<PathElem>)
    requires Known(p.slot.value)
    ensures match WalkTo(json, p, offset, path)
            case None => true
            case Some(q) => p.start <= q.start && End(q) <= End(p)
    decreases |path|
  {
    hide Valid, Body, SlotText, StepWalk;
    if path != [] {
      match StepWalk(json, p, offset, path[0])
      case None =>
      case Some(i) =>
        SlotKnown(p, i);
        SlotInside(p, i);
        WalkInside(json, SlotPlace(p, i), offset, path[1..]);
    }
  }

  /** So is what the layout has for a path. */
  lemma {:induction false} LocateInside(p: Place, path: seq<PathElem>)
    requires ValidSlot(p.slot)
    ensures match Locate(p, path)
            case None => true
            case Some(q) => p.start <= q.start && End(q) <= End(p)
    decreases |path|
  {
    hide Valid, Body, SlotText;
    if path != [] {
      match ChildSlot(p.slot.value, path[0])
      case None =>
      case Some(i) =>
        SlotInside(p, i);
        LocateInside(SlotPlace(p, i), path[1..]);
    }
  }

  /** Places inside different slots are different. */
  lemma InsideApart(p: Place, i: nat, j: nat, a: Place, b: Place)
    requires p.slot.value.Node? && i < |p.slot.value.slots| && j < |p.slot.value.slots| && i != j
    requires SlotPlace(p, i).start <= a.start && End(a) <= End(SlotPlace(p, i))
    requires SlotPlace(p, j).start <= b.start && End(b) <= End(SlotPlace(p, j))
    ensures a.start != b.start
  {
    hide SlotText, Body;
    PlacesApart(p, if i < j then i else j, if i < j then j else i);
    EndBehind(a);
    EndBehind(b);
  }

  lemma EndBehind(p: Place)
    ensures p.start <= End(p)
  {
    hide SlotText;
  }

  // ---- Agreement with a parser, along a path ----

  /**
   Every step of the walks is the one a parser takes; or, behind the first one that is
   not, both come to nothing.
   */
  ghost predicate Agrees(json: string, p: Place, offset: nat, path: seq<PathElem>)
    requires ValidSlot(p.slot)
    decreases |path|
  {
    path == [] ||
    var walked, located := StepWalk(json, p, offset, path[0]), ChildSlot(p.slot.value, path[0]);
    if walked == located then
      match located
      case None => true
      case Some(i) => Agrees(json, SlotPlace(p, i), offset, path[1..])
    else
      WalkTo(json, p, offset, path) == None && Locate(p, path) == None
  }

  /** A path leads where a parser would go exactly if it agrees with a parser in that sense. */
  lemma {:induction false} PathExact(json: string, p: Place, offset: nat, path: seq<PathElem>)
    requires ValidSlot(p.slot)
    ensures WalkTo(json, p, offset, path) == Locate(p, path) <==> Agrees(json, p, offset, path)
    decreases |path|
  {
    hide Valid, Body, SlotText, StepWalk;
    if path != [] {
      var walked, located := StepWalk(json, p, offset, path[0]), ChildSlot(p.slot.value, path[0]);
      if walked == located {
        if located.Some? {
          PathExact(json, SlotPlace(p, located.value), offset, path[1..]);
        }
      } else if walked.Some? && located.Some? {
        var i, j := walked.value, located.value;
        SlotKnown(p, i);
        WalkInside(json, SlotPlace(p, i), offset, path[1..]);
        LocateInside(SlotPlace(p, j), path[1..]);
        match (WalkTo(json, SlotPlace(p, i), offset, path[1..]), Locate(SlotPlace(p, j), path[1..]))
        case (Some(a), Some(b)) => InsideApart(p, i, j, a, b);
        case _ =>
      }
    }
  }
}
