/**
 How far into the text the key comparison looks: when exactly a lookup in a document
 depends on nothing behind that document.
 */
module Reach {
  import opened Basics
  import opened Lexer
  import opened Keys
  import opened Layout
  import opened Navigation
  import opened Children
  import opened Walks

  // ---- One comparison ----

  /** A character of a literal that stands for `c` when escaped, if there is one. */
  function EscapeFor(c: char): char {
    match c
    case '"' => '"'
    case '/' => '/'
    case '\\' => '\\'
    case '\n' => 'n'
    case '\r' => 'r'
    case '\t' => 't'
    case _ => if c == 8 as char then 'b' else if c == 12 as char then 'f' else 'x'
  }

  predicate Escapable(c: char) { EscapeTable(EscapeFor(c)) == c }

  /** The comparison at `i` comes to the end of the text still undecided. */
  predicate RunsOut(own: string, i: nat, key: string)
    decreases |key|
  {
    if i >= |own| then true
    else if key == "" then false
    else if own[i] == '\\' then
      if i + 1 == |own| then Escapable(key[0]) else EscapeTable(own[i+1]) == key[0] && RunsOut(own, i + 2, key[1..])
    else own[i] == key[0] && RunsOut(own, i + 1, key[1..])
  }

  lemma {:induction false} NothingSpelled(text: string, i: nat, key: string)
    requires i >= |text|
    ensures !Spells(text, i, key)
    decreases |key|
  {
    if key != "" {
      NothingSpelled(text, i + 1, key[1..]);
    }
  }

  /** Decided within the text, the comparison comes out the same whatever follows. */
  lemma {:induction false} DecidedInside(own: string, tail: string, i: nat, key: string)
    requires !RunsOut(own, i, key)
    ensures Spells(own + tail, i, key) == Spells(own, i, key)
    decreases |key|
  {
    if key != "" {
      if own[i] == '\\' {
        if i + 1 < |own| && EscapeTable(own[i+1]) == key[0] {
          DecidedInside(own, tail, i + 2, key[1..]);
        }
      } else if own[i] == key[0] {
        DecidedInside(own, tail, i + 1, key[1..]);
      }
    }
  }

  /** A text that completes an undecided comparison. */
  function Completion(own: string, i: nat, key: string): string
    requires i <= |own| && RunsOut(own, i, key)
    decreases |key|
  {
    if i == |own| then Bare(key) + "\""
    else if own[i] == '\\' then
      if i + 1 == |own| then [EscapeFor(key[0])] + Bare(key[1..]) + "\"" else Completion(own, i + 2, key[1..])
    else Completion(own, i + 1, key[1..])
  }

  /** Undecided, it fails on the text alone and succeeds before a text that completes it. */
  lemma {:induction false} UndecidedAtEnd(own: string, i: nat, key: string)
    requires i <= |own| && RunsOut(own, i, key)
    ensures !Spells(own, i, key) && Spells(own + Completion(own, i, key), i, key)
    decreases |key|
  {
    hide EscapeTable, Bare;
    var tail := Completion(own, i, key);
    if i == |own| {
      NothingSpelled(own, i, key);
      SpellsBare(own, key, "\"");
      assert own + Bare(key) + "\"" == own + (Bare(key) + "\"");
    } else if own[i] == '\\' {
      if i + 1 == |own| {
        NothingSpelled(own, i + 2, key[1..]);
        var all := own + [EscapeFor(key[0])];
        SpellsBare(all, key[1..], "\"");
        assert all + Bare(key[1..]) + "\"" == own + tail;
      } else {
        UndecidedAtEnd(own, i + 2, key[1..]);
      }
    } else {
      UndecidedAtEnd(own, i + 1, key[1..]);
    }
  }

  // ---- One step ----

  /** The comparison with member `m` comes to the end of the document's own text undecided. */
  ghost predicate ProbeRunsOut(own: string, p: Place, offset: nat, m: nat, key: string)
    requires p.slot.value.Node? && 2 * m < |p.slot.value.slots|
  {
    var at := ProbePos(p, offset, m);
    at >= 0 && QuoteFrom(own, at) && RunsOut(own, FirstQuote(own, at) + 1, key)
  }

  /** No comparison up to the one that succeeds comes to the end undecided. */
  ghost predicate LocalStep(own: string, p: Place, offset: nat, e: PathElem)
    requires Known(p.slot.value)
  {
    var v := p.slot.value;
    e.AtKey? && v.Node? && v.kind.Object? && !IsEmpty(v.slots) ==>
      (ObjectKeys(v);
       forall m | 0 <= m <= WalkIndex(own, p, offset, 0, e.key) && 2 * m < |v.slots| ::
         !ProbeRunsOut(own, p, offset, m, e.key))
  }

  lemma FirstQuoteLonger(own: string, tail: string, at: nat)
    requires QuoteFrom(own, at)
    ensures QuoteFrom(own + tail, at) && FirstQuote(own + tail, at) == FirstQuote(own, at)
  {
    hide FirstQuote;
    var q := FirstQuote(own, at);
    assert (own + tail)[q] == '"';
    var r := FirstQuote(own + tail, at);
    assert r <= q;
    assert own[r] == '"';
  }

  /** One comparison, with and without a text behind the document. */
  lemma ProbeLonger(data: string, own: string, offset: nat, hi: nat, p: Place, node: nat, m: nat, key: string,
                    tail: string)
    requires Start(data, own, offset, hi, p, node) && p.slot.value.Node? && p.slot.value.kind.Object?
    requires !IsEmpty(p.slot.value.slots) && 2 * m < |p.slot.value.slots|
    ensures !ProbeRunsOut(own, p, offset, m, key) ==>
              ProbeMatches(own + tail, p, offset, m, key) == ProbeMatches(own, p, offset, m, key)
    ensures ProbeRunsOut(own, p, offset, m, key) ==> !ProbeMatches(own, p, offset, m, key)
  {
    hide Start, RunsOut, Spells, FirstQuote, SlotPlace, SlotText, QuoteFrom;
    KeyText(data, own, offset, hi, p, node, m);
    var at := ProbePos(p, offset, m);
    FirstQuoteLonger(own, tail, at);
    if RunsOut(own, FirstQuote(own, at) + 1, key) {
      UndecidedAtEnd(own, FirstQuote(own, at) + 1, key);
    } else {
      DecidedInside(own, tail, FirstQuote(own, at) + 1, key);
    }
  }

  lemma ProbeCompleted(own: string, p: Place, offset: nat, m: nat, key: string) returns (tail: string)
    requires p.slot.value.Node? && 2 * m < |p.slot.value.slots| && ProbeRunsOut(own, p, offset, m, key)
    ensures ProbeMatches(own + tail, p, offset, m, key)
  {
    hide RunsOut, Spells, FirstQuote, SlotPlace, QuoteFrom;
    var at := ProbePos(p, offset, m);
    tail := Completion(own, FirstQuote(own, at) + 1, key);
    UndecidedAtEnd(own, FirstQuote(own, at) + 1, key);
    FirstQuoteLonger(own, tail, at);
  }

  /** A local step goes the same way whatever follows the document. */
  lemma StepStays(data: string, own: string, offset: nat, hi: nat, p: Place, node: nat, e: PathElem, tail: string)
    requires Start(data, own, offset, hi, p, node) && LocalStep(own, p, offset, e)
    ensures StepWalk(own + tail, p, offset, e) == StepWalk(own, p, offset, e)
  {
    hide Start, ProbeMatches, ProbeRunsOut, Valid;
    StartKnown(data, own, offset, hi, p, node);
    var v := p.slot.value;
    if e.AtKey? && v.Node? && v.kind.Object? && !IsEmpty(v.slots) {
      ObjectKeys(v);
      forall m | 0 <= m <= WalkIndex(own, p, offset, 0, e.key) && 2 * m < |v.slots|
        ensures ProbeMatches(own + tail, p, offset, m, e.key) == ProbeMatches(own, p, offset, m, e.key)
      {
        ProbeLonger(data, own, offset, hi, p, node, m, e.key, tail);
      }
    }
  }

  /** Any other step goes another way before some text. */
  lemma StepDiverges(data: string, own: string, offset: nat, hi: nat, p: Place, node: nat, e: PathElem)
    returns (tail: string)
    requires Start(data, own, offset, hi, p, node) && !LocalStep(own, p, offset, e)
    ensures StepWalk(own + tail, p, offset, e) != StepWalk(own, p, offset, e)
  {
    hide Start, ProbeMatches, ProbeRunsOut, Valid;
    StartKnown(data, own, offset, hi, p, node);
    var v := p.slot.value;
    ObjectKeys(v);
    var m :| 0 <= m <= WalkIndex(own, p, offset, 0, e.key) && 2 * m < |v.slots| &&
             ProbeRunsOut(own, p, offset, m, e.key);
    tail := ProbeCompleted(own, p, offset, m, e.key);
    ProbeLonger(data, own, offset, hi, p, node, m, e.key, tail);
  }

  /** A step depends on nothing behind the document exactly if it is local. */
  lemma StepExact(data: string, own: string, offset: nat, hi: nat, p: Place, node: nat, e: PathElem)
    requires Start(data, own, offset, hi, p, node)
    ensures (forall tail: string :: StepWalk(own + tail, p, offset, e) == StepWalk(own, p, offset, e)) <==>
            LocalStep(own, p, offset, e)
  {
    hide Start, StepWalk, LocalStep;
    StartKnown(data, own, offset, hi, p, node);
    if LocalStep(own, p, offset, e) {
      forall tail: string
        ensures StepWalk(own + tail, p, offset, e) == StepWalk(own, p, offset, e)
      {
        StepStays(data, own, offset, hi, p, node, e, tail);
      }
    } else {
      var tail := StepDiverges(data, own, offset, hi, p, node, e);
    }
  }

  // ---- A whole path ----

  /** Every step of the walks along the path is local. */
  ghost predicate LocalPath(own: string, p: Place, offset: nat, path: seq<PathElem>)
    requires Known(p.slot.value)
    decreases |path|
  {
    path == [] ||
    (&& LocalStep(own, p, offset, path[0])
     && match StepWalk(own, p, offset, path[0])
        case None => true
        case Some(i) => SlotKnown(p, i); LocalPath(own, SlotPlace(p, i), offset, path[1..]))
  }

  /** The slots the walks along a path go through, up to its end or the first step that fails. */
  ghost function Steps(json: string, p: Place, offset: nat, path: seq<PathElem>): seq<nat>
    requires Known(p.slot.value)
    decreases |path|
  {
    if path == [] then []
    else match StepWalk(json, p, offset, path[0])
         case None => []
         case Some(i) => SlotKnown(p, i); [i] + Steps(json, SlotPlace(p, i), offset, path[1..])
  }

  lemma StartBelow(data: string, json: string, offset: nat, hi: nat, p: Place, node: nat, i: nat)
    requires Start(data, json, offset, hi, p, node) && p.slot.value.Node? && i < |p.slot.value.slots|
    ensures SlotPlace(p, i).start <= |data| && 0 <= SlotNode(data, p, i)
    ensures Start(data, json, offset, hi, SlotPlace(p, i), SlotNode(data, p, i))
  {
    hide Bp, Nav, Text, Encode, SlotText, AtPlace, Body, SlotPlace, SlotNode, Window, Valid;
    SlotKnown(p, i);
    ChildAt(data, p, node, i);
    StepKeepsStart(data, json, offset, hi, p, node, i, SlotNode(data, p, i));
  }

  /** A local path goes the same way, and is defined as before, whatever follows the document. */
  lemma {:induction false} PathStays(data: string, own: string, offset: nat, hi: nat, p: Place, node: nat,
                                     path: seq<PathElem>, tail: string)
    requires Start(data, own, offset, hi, p, node) && LocalPath(own, p, offset, path)
    ensures Known(p.slot.value) && WalkTo(own + tail, p, offset, path) == WalkTo(own, p, offset, path)
    ensures Steps(own + tail, p, offset, path) == Steps(own, p, offset, path)
    ensures DefinedPath(own + tail, p, offset, path) == DefinedPath(own, p, offset, path)
    decreases |path|
  {
    hide Start, StepWalk, LocalStep, SlotPlace, SlotNode, Valid;
    StartKnown(data, own, offset, hi, p, node);
    if path != [] {
      StepStays(data, own, offset, hi, p, node, path[0], tail);
      match StepWalk(own, p, offset, path[0])
      case None =>
      case Some(i) =>
        SlotKnown(p, i);
        StartBelow(data, own, offset, hi, p, node, i);
        PathStays(data, own, offset, hi, SlotPlace(p, i), SlotNode(data, p, i), path[1..], tail);
    }
  }

  /** A walk that led somewhere leads somewhere else. */
  predicate Elsewhere(a: Option<Place>, b: Option<Place>) {
    a.Some? ==> b.None? || b.value.start != a.value.start
  }

  /** Any other path goes another way before some text; if it led somewhere, it leads somewhere else then. */
  lemma {:induction false} PathDiverges(data: string, own: string, offset: nat, hi: nat, p: Place, node: nat,
                                        path: seq<PathElem>) returns (tail: string)
    requires Start(data, own, offset, hi, p, node) && Known(p.slot.value) && !LocalPath(own, p, offset, path)
    ensures Steps(own + tail, p, offset, path) != Steps(own, p, offset, path)
    ensures Elsewhere(WalkTo(own, p, offset, path), WalkTo(own + tail, p, offset, path))
    decreases |path|
  {
    hide Start, StepWalk, LocalStep, SlotPlace, SlotNode, Valid;
    if LocalStep(own, p, offset, path[0]) {
      var i := StepWalk(own, p, offset, path[0]).value;
      SlotKnown(p, i);
      StartBelow(data, own, offset, hi, p, node, i);
      tail := PathDiverges(data, own, offset, hi, SlotPlace(p, i), SlotNode(data, p, i), path[1..]);
      StepStays(data, own, offset, hi, p, node, path[0], tail);
      assert Steps(own, p, offset, path)[1..] == Steps(own, SlotPlace(p, i), offset, path[1..]);
      assert Steps(own + tail, p, offset, path)[1..] == Steps(own + tail, SlotPlace(p, i), offset, path[1..]);
    } else {
      tail := StepDiverges(data, own, offset, hi, p, node, path[0]);
      OtherWay(own, own + tail, p, offset, path);
    }
  }

  /** Walks that part at the first step go different ways, and lead to different places. */
  lemma OtherWay(json: string, json': string, p: Place, offset: nat, path: seq<PathElem>)
    requires Known(p.slot.value) && path != []
    requires StepWalk(json, p, offset, path[0]) != StepWalk(json', p, offset, path[0])
    ensures Steps(json, p, offset, path) != Steps(json', p, offset, path)
    ensures Elsewhere(WalkTo(json, p, offset, path), WalkTo(json', p, offset, path))
  {
    hide StepWalk, SlotPlace, Valid;
    var walked, walked' := StepWalk(json, p, offset, path[0]), StepWalk(json', p, offset, path[0]);
    if walked.Some? && walked'.Some? {
      var i, j := walked.value, walked'.value;
      SlotKnown(p, i);
      SlotKnown(p, j);
      assert Steps(json, p, offset, path)[0] == i && Steps(json', p, offset, path)[0] == j;
      WalkInside(json, SlotPlace(p, i), offset, path[1..]);
      WalkInside(json', SlotPlace(p, j), offset, path[1..]);
      match (WalkTo(json, SlotPlace(p, i), offset, path[1..]), WalkTo(json', SlotPlace(p, j), offset, path[1..]))
      case (Some(a), Some(b)) => InsideApart(p, i, j, a, b);
      case _ =>
    }
  }

  /**
   The walks along a path depend on nothing behind the document exactly if the path is
   local; and so does the range of what it leads to, if it leads to something.
   */
  lemma LocalExact(data: string, own: string, offset: nat, hi: nat, p: Place, node: nat, path: seq<PathElem>)
    requires Start(data, own, offset, hi, p, node) && Known(p.slot.value)
    ensures (forall tail: string :: Steps(own + tail, p, offset, path) == Steps(own, p, offset, path)) <==>
            LocalPath(own, p, offset, path)
    ensures p.start == offset && WalkTo(own, p, offset, path).Some? ==>
              ((forall tail: string :: WalkedRange(own + tail, p, path) == WalkedRange(own, p, path)) <==>
               LocalPath(own, p, offset, path))
  {
    hide Start, Steps, WalkTo, LocalPath;
    if LocalPath(own, p, offset, path) {
      forall tail: string
        ensures Steps(own + tail, p, offset, path) == Steps(own, p, offset, path)
        ensures p.start == offset ==> WalkedRange(own + tail, p, path) == WalkedRange(own, p, path)
      {
        PathStays(data, own, offset, hi, p, node, path, tail);
      }
    } else {
      var tail := PathDiverges(data, own, offset, hi, p, node, path);
    }
  }
}
