/**
 Accessors and cursors: path lookup in one document, and the scan of a collection.
 */
module Accessors {
  import opened Basics
  import opened Lexer
  import opened Succinct
  import opened Builder
  import opened Layout
  import opened Navigation
  import opened Children
  import opened LayoutWalk
  import opened Reach
  import opened Walks

  datatype Accessor = Accessor(isValid: bool, node: nat, json: string, index: SemiIndex, offset: nat)

  /** One step of an accessor. */
  method Child(a: Accessor, e: PathElem, ghost data: string, ghost hi: nat, ghost p: Place) returns (next: Accessor)
    requires a.isValid ==>
               && Indexes(a.index, data) && Start(data, a.json, a.offset, hi, p, a.node)
               && DefinedStep(p.slot.value, e)
    ensures next.json == a.json && next.index == a.index && next.offset == a.offset
    ensures !a.isValid ==> !next.isValid
    ensures a.isValid ==>
              match StepWalk(a.json, p, a.offset, e)
              case None => !next.isValid
              case Some(i) =>
                && next.isValid && Start(data, a.json, a.offset, hi, SlotPlace(p, i), next.node)
                && SlotPlace(p, i).start <= |data| && next.node == SlotNode(data, p, i)
    ensures a.isValid && PlainStep(p.slot.value, e) ==>
              StepWalk(a.json, p, a.offset, e) == TakenSlot(p.slot.value, e)
    ensures a.isValid && Valid(p.slot.value) && SafeStep(p.slot.value, e) ==>
              StepWalk(a.json, p, a.offset, e) == ChildSlot(p.slot.value, e)
  {
    hide Bp, Nav, Text, Encode, SlotText, AtPlace, Body, Valid, ValidSlot, SafeStep, PlainStep, TakenSlot;
    if !a.isValid {
      return a.(isValid := false);
    }
    var found, child;
    match e {
      case AtKey(key) =>
        found, child := GetObjectChild(a.index, a.json, a.node, a.offset, key, data, hi, p);
      case AtIndex(idx) =>
        found, child := GetArrayChild(a.index, a.json, a.node, a.offset, idx, data, hi, p);
    }
    next := a.(isValid := found, node := if found then child else a.node);
    if found {
      StepKeepsStart(data, a.json, a.offset, hi, p, a.node, StepWalk(a.json, p, a.offset, e).value, child);
    }
    if Valid(p.slot.value) && SafeStep(p.slot.value, e) {
      SafeTaken(p.slot.value, e);
    }
    if PlainStep(p.slot.value, e) {
      PlainStepWalk(data, a.json, a.offset, hi, p, a.node, e);
    }
  }

  /**
   Path lookup. On every layout it ends where the walks lead, for most keys where the layout
   alone says; on a safe one it is valid exactly when the layout has the path, and then at its slot.
   */
  method GetPath(a: Accessor, path: seq<PathElem>, ghost data: string, ghost hi: nat, ghost p: Place)
    returns (next: Accessor)
    requires a.isValid && Indexes(a.index, data) && Start(data, a.json, a.offset, hi, p, a.node)
    requires DefinedPath(a.json, p, a.offset, path)
    ensures next.json == a.json && next.index == a.index && next.offset == a.offset
    ensures match WalkTo(a.json, p, a.offset, path)
            case None => !next.isValid
            case Some(q) => next.isValid && Start(data, a.json, a.offset, hi, q, next.node)
    ensures PlainPath(p.slot.value, path) ==> WalkTo(a.json, p, a.offset, path) == TakenPlace(p, path)
    ensures ValidSlot(p.slot) && SafePath(p.slot.value, path) ==> WalkTo(a.json, p, a.offset, path) == Locate(p, path)
  {
    hide Bp, Nav, Text, Encode, SlotText, AtPlace, Body, Valid, StepWalk, Start, SafePath, Locate, PlainPath,
         TakenPlace,
         PlainStep, TakenSlot;
    next := a;
    ghost var q := p;
    var i := 0;
    assert path[0..] == path;
    StartKnown(data, a.json, a.offset, hi, p, a.node);
    while i < |path| && next.isValid
      invariant 0 <= i <= |path|
      invariant next.json == a.json && next.index == a.index && next.offset == a.offset
      invariant next.isValid ==> && Start(data, a.json, a.offset, hi, q, next.node)
                                 && Known(q.slot.value) && DefinedPath(a.json, q, a.offset, path[i..])
                                 && WalkTo(a.json, p, a.offset, path) == WalkTo(a.json, q, a.offset, path[i..])
      invariant !next.isValid ==> WalkTo(a.json, p, a.offset, path) == None
    {
      assert path[i..][1..] == path[i+1..];
      var step := Child(next, path[i], data, hi, q);
      if step.isValid {
        q := SlotPlace(q, StepWalk(a.json, q, a.offset, path[i]).value);
        StartKnown(data, a.json, a.offset, hi, q, step.node);
      }
      next := step;
      i := i + 1;
    }
    if ValidSlot(p.slot) && SafePath(p.slot.value, path) {
      SafePlace(p, path);
    }
    if PlainPath(p.slot.value, path) {
      PlainWalk(data, a.json, a.offset, hi, p, a.node, path);
    }
  }

  // ---- Collections ----

  /** One text of a collection. */
  datatype Document = Document(pre: string, root: Value, post: string)

  function DocText(d: Document): string { d.pre + Text(d.root) + d.post }

  predicate ValidDoc(d: Document) {
    Spaces(d.pre) && Spaces(d.post) && Valid(d.root) && d.root.Node?
  }

  predicate ValidDocs(docs: seq<Document>) {
    forall d | d in docs :: ValidDoc(d)
  }

  function Texts(docs: seq<Document>): seq<string> {
    seq(|docs|, i requires 0 <= i < |docs| => DocText(docs[i]))
  }

  function Whole(docs: seq<Document>): string { Flatten(Texts(docs)) }

  /** Where the root bracket of document `k` stands in the collection. */
  function RootPos(docs: seq<Document>, k: nat): nat
    requires k < |docs|
  {
    |Whole(docs[..k])| + |docs[k].pre|
  }

  function RootOf(docs: seq<Document>, k: nat): Place
    requires k < |docs|
  {
    Place(RootPos(docs, k), Slot("", docs[k].root, ""))
  }

  lemma DocScans(d: Document)
    requires ValidDoc(d)
    ensures Closed(d.pre) && Bp(d.pre) == [] && Closed(d.post) && Bp(d.post) == []
    ensures Closed(DocText(d)) && Bp(DocText(d)) == Encode(d.root)
  {
    SpacesPlain(d.pre);
    SpacesPlain(d.post);
    BpEncodes(d.root);
    ClosedConcat(d.pre, Text(d.root));
    ClosedConcat(d.pre + Text(d.root), d.post);
  }

  lemma {:induction false} WholeScans(docs: seq<Document>)
    requires ValidDocs(docs)
    ensures AllClosed(Texts(docs)) && Closed(Whole(docs))
  {
    forall i | 0 <= i < |docs|
      ensures Closed(Texts(docs)[i])
    {
      DocScans(docs[i]);
    }
    FlattenClosed(Texts(docs));
  }

  lemma {:induction false} WholeAt(docs: seq<Document>, k: nat)
    requires k < |docs|
    ensures Whole(docs[..k]) + DocText(docs[k]) == Whole(docs[..k+1])
    ensures Whole(docs[..k+1]) <= Whole(docs)
    decreases |docs| - k
  {
    assert Texts(docs[..k+1])[..k] == Texts(docs[..k]);
    if k + 1 == |docs| {
      assert docs[..k+1] == docs;
    } else {
      WholeAt(docs, k + 1);
    }
  }

  /** The text of document `k` in the collection. */
  lemma DocReads(docs: seq<Document>, k: nat)
    requires ValidDocs(docs) && k < |docs|
    ensures var data := Whole(docs);
            var a := |Whole(docs[..k])|;
            var d := docs[k];
            && ValidDoc(d) && ClosedAt(data, a) && a + |DocText(d)| == |Whole(docs[..k+1])| <= |data|
            && data[a..a+|DocText(d)|] == DocText(d)
            && data[a..a+|d.pre|] == d.pre
            && data[a+|d.pre|..a+|d.pre|+|Text(d.root)|] == Text(d.root)
  {
    hide Whole, Bp, Closed, Text, Valid;
    var data, d := Whole(docs), docs[k];
    var a := |Whole(docs[..k])|;
    assert d in docs;
    WholeAt(docs, k);
    WholeScans(docs[..k]);
    var t := DocText(d);
    assert data[..a] == Whole(docs[..k]);
    assert data[a..a+|t|] == t;
    SliceOfSlice(data, a, a + |t|, 0, |d.pre|);
    assert t == d.pre + (Text(d.root) + d.post);
    SliceOfSum(d.pre, Text(d.root), d.post);
    SliceOfSlice(data, a, a + |t|, |d.pre|, |d.pre| + |Text(d.root)|);
  }

  /** The root of document `k` is a place in the collection, whatever the other documents are. */
  lemma RootReads(docs: seq<Document>, k: nat)
    requires ValidDocs(docs) && k < |docs|
    ensures var data := Whole(docs);
            var p := RootOf(docs, k);
            && Reads(data, p) && ValidSlot(p.slot) && p.slot.value.Node?
            && ClosedAt(data, |Whole(docs[..k])|) && Bit(data, p.start) == Bit(data, |Whole(docs[..k])|)
            && |Whole(docs[..k+1])| <= |data|
            && Bit(data, |Whole(docs[..k+1])|) == Bit(data, End(p))
  {
    hide Whole, Bp, Closed, Text, Encode, Valid;
    var data, d := Whole(docs), docs[k];
    DocReads(docs, k);
    DocScans(d);
    var p := RootOf(docs, k);
    assert SlotText(p.slot) == Text(d.root);
    Chunk(data, p.start - |d.pre|, d.pre);
    SlotSpan(data, p);
    Chunk(data, p.start - |d.pre|, DocText(d));
  }

  // ---- Cursors ----

  /** A cursor: a root node and its offset, or the end of the collection. */
  datatype Cursor = Over | On(node: nat, offset: nat)

  ghost predicate CursorAt(docs: seq<Document>, k: nat, c: Cursor)
    requires ValidDocs(docs)
  {
    if k < |docs| then
      && RootPos(docs, k) <= |Whole(docs)|
      && c == On(Bit(Whole(docs), RootPos(docs, k)), RootPos(docs, k))
    else c.Over?
  }

  /** The cursor of document `k`: its node, its offset, and where `next` leads. */
  lemma CursorNode(docs: seq<Document>, k: nat)
    requires ValidDocs(docs) && k < |docs|
    ensures var data := Whole(docs);
            var p := RootOf(docs, k);
            && p.start < |data| && AtPlace(data, p, Bit(data, p.start))
            && Bit(data, p.start) < |Bp(data)| && Bp(data)[Bit(data, p.start)]
            && Bit(data, p.start) / 2 < Ones(Nav(data)) && Bit(data, p.start) % 2 == 0
            && Select(Nav(data), Bit(data, p.start) / 2) == p.start && |Whole(docs[..k+1])| <= |data|
            && FindClose(Bp(data), Bit(data, p.start)) + 1 == Bit(data, |Whole(docs[..k+1])|)
  {
    var data, p := Whole(docs), RootOf(docs, k);
    RootReads(docs, k);
    assert Text(p.slot.value)[0] == Opener(p.slot.value.kind);
    assert SlotText(p.slot) == Text(p.slot.value);
    assert data[p.start..End(p)][0] == data[p.start];
    SelectStructural(data, p.start);
    hide Whole, Bp, Nav, Closed, Text, Encode, SlotText, Select, FindClose;
    ContainerSpan(data, p, Bit(data, p.start));
  }

  /** `next` on the last document reaches the end of the tree, and only there. */
  lemma TreeEnd(docs: seq<Document>, k: nat)
    requires ValidDocs(docs) && k < |docs|
    ensures |Whole(docs[..k+1])| <= |Whole(docs)|
    ensures Bit(Whole(docs), |Whole(docs[..k+1])|) <= |Bp(Whole(docs))|
    ensures Bit(Whole(docs), |Whole(docs[..k+1])|) == |Bp(Whole(docs))| <==> k + 1 == |docs|
    ensures k + 1 < |docs| ==> RootPos(docs, k + 1) <= |Whole(docs)|
    ensures k + 1 < |docs| ==> Bit(Whole(docs), RootPos(docs, k + 1)) == Bit(Whole(docs), |Whole(docs[..k+1])|)
  {
    RootReads(docs, k);
    if k + 1 < |docs| {
      CursorNode(docs, k + 1);
      RootReads(docs, k + 1);
    } else {
      assert docs[..k+1] == docs;
      assert Whole(docs)[..|Whole(docs)|] == Whole(docs);
    }
  }

  /** `get_cursor`: the first document. */
  method First(ix: SemiIndex, ghost docs: seq<Document>) returns (c: Cursor)
    requires ValidDocs(docs) && docs != [] && Indexes(ix, Whole(docs))
    ensures CursorAt(docs, 0, c)
  {
    CursorNode(docs, 0);
    assert docs[..0] == [] && Whole([]) == "" && Bit(Whole(docs), 0) == 0;
    RootReads(docs, 0);
    c := On(0, GetPos(ix, 0, 0));
  }

  method Next(ix: SemiIndex, c: Cursor, ghost docs: seq<Document>, ghost k: nat) returns (next: Cursor)
    requires ValidDocs(docs) && k < |docs| && Indexes(ix, Whole(docs)) && CursorAt(docs, k, c)
    ensures CursorAt(docs, k + 1, next)
  {
    hide Whole, Bp, Nav, Select, FindClose, Ones, AtPlace;
    CursorNode(docs, k);
    TreeEnd(docs, k);
    var nextNode := FindClose(ix.bp, c.node) + 1;
    if nextNode == |ix.bp| {
      next := Over;
    } else {
      CursorNode(docs, k + 1);
      next := On(nextNode, GetPos(ix, nextNode, 0));
    }
  }

  // ---- Selecting one path in every document ----

  /** The range, counted from the root bracket, that a parser would report for the path. */
  function ReferenceRange(root: Value, path: seq<PathElem>): Option<(int, int)>
    requires Valid(root)
  {
    match Locate(RootPlace(root), path)
    case None => None
    case Some(q) => Some((q.start, End(q)))
  }

  lemma {:induction false} LocateShift(p: Place, shift: nat, path: seq<PathElem>)
    requires ValidSlot(p.slot)
    ensures Locate(Place(p.start + shift, p.slot), path) ==
            match Locate(p, path)
            case None => None
            case Some(q) => Some(Place(q.start + shift, q.slot))
    decreases |path|
  {
    if path != [] {
      match ChildSlot(p.slot.value, path[0])
      case None =>
      case Some(i) => LocateShift(SlotPlace(p, i), shift, path[1..]);
    }
  }

  /** The root accessor of document `k`, ready for the walks. */
  lemma RootStarts(docs: seq<Document>, k: nat, json: string, path: seq<PathElem>)
    requires ValidDocs(docs) && k < |docs| && Valid(docs[k].root) && Text(docs[k].root) <= json
    ensures var data := Whole(docs);
            var p := RootOf(docs, k);
            && p.start <= |data| && p.slot.value == docs[k].root && ValidSlot(p.slot)
            && Start(data, json, p.start, End(p), p, Bit(data, p.start))
            && (Locate(p, path).None? <==> ReferenceRange(docs[k].root, path).None?)
    ensures forall c | CursorAt(docs, k, c) :: c == On(Bit(Whole(docs), RootOf(docs, k).start), RootOf(docs, k).start)
  {
    var data, p := Whole(docs), RootOf(docs, k);
    CursorNode(docs, k);
    RootReads(docs, k);
    LocateShift(RootPlace(docs[k].root), p.start, path);
    assert SlotText(p.slot) == Text(docs[k].root);
    hide Whole, Bp, Nav, Closed, Text, Encode, SlotText, Locate, Valid, AtPlace;
    assert data[p.start..End(p)] == json[..End(p)-p.start];
  }

  /** Where the layout tells what the path leads to, that is its range in the document alone. */
  lemma PlainRange(docs: seq<Document>, k: nat, json: string, path: seq<PathElem>)
    requires ValidDocs(docs) && k < |docs| && Text(docs[k].root) <= json && Valid(docs[k].root)
             && PlainPath(docs[k].root, path)
    ensures Known(RootOf(docs, k).slot.value) && DefinedPath(json, RootOf(docs, k), RootPos(docs, k), path)
    ensures WalkedRange(json, RootOf(docs, k), path) == TakenRange(docs[k].root, path)
  {
    hide Whole, Bp, Nav, Closed, Text, Encode, SlotText, TakenPlace, AtPlace, Window, Start, WalkTo, DefinedPath,
         PlainPath;
    RootStarts(docs, k, json, path);
    var data, p := Whole(docs), RootOf(docs, k);
    PlainWalk(data, json, p.start, End(p), p, Bit(data, p.start), path);
    TakenShift(RootPlace(docs[k].root), p.start, path);
  }

  /** On a safe layout that is the range a parser would report. */
  lemma SafeRange(root: Value, path: seq<PathElem>)
    requires Valid(root) && SafePath(root, path)
    ensures PlainPath(root, path) && TakenRange(root, path) == ReferenceRange(root, path)
  {
    hide TakenPlace, Locate, Valid, PlainPath, SafePath;
    SafePlace(RootPlace(root), path);
  }

  // ---- What a document alone determines ----

  /** The text of a document from its root bracket on. */
  function OwnLine(d: Document): string { Text(d.root) + d.post }

  /** The range the walks lead to in the document alone. */
  ghost function OwnRange(d: Document, path: seq<PathElem>): Option<(int, int)>
    requires Known(d.root)
  {
    WalkedRange(OwnLine(d), RootPlace(d.root), path)
  }

  /** No key is looked up in an object with only blanks in it. */
  ghost predicate OwnDefined(d: Document, path: seq<PathElem>)
    requires Known(d.root)
  {
    DefinedPath(OwnLine(d), RootPlace(d.root), 0, path)
  }

  /** No comparison along the path comes to the end of the document undecided. */
  ghost predicate OwnLocal(d: Document, path: seq<PathElem>)
    requires Known(d.root)
  {
    LocalPath(OwnLine(d), RootPlace(d.root), 0, path)
  }

  lemma OwnStarts(d: Document)
    requires ValidDoc(d)
    ensures Known(d.root) && Start(Text(d.root), OwnLine(d), 0, |Text(d.root)|, RootPlace(d.root), 0)
  {
    var t, p := Text(d.root), RootPlace(d.root);
    assert SlotText(p.slot) == t && t[..0] == "";
    assert AtPlace(t, p, 0) by { assert Bit(t, 0) == 0; }
    hide Bp, Nav, Text, Encode, SlotText, Valid, AtPlace;
    assert t[0..|t|] == t && OwnLine(d)[..|t|] == t;
  }

  /**
   What a lookup in a document finds depends on nothing behind the document exactly if no
   comparison comes to its end undecided.
   */
  lemma LocalityExact(d: Document, path: seq<PathElem>)
    requires ValidDoc(d) && Known(d.root)
    ensures var own, p := OwnLine(d), RootPlace(d.root);
            (forall tail: string :: Steps(own + tail, p, 0, path) == Steps(own, p, 0, path)) <==> OwnLocal(d, path)
    ensures OwnRange(d, path).Some? ==>
              ((forall tail: string ::
                  WalkedRange(OwnLine(d) + tail, RootPlace(d.root), path) == OwnRange(d, path)) <==>
               OwnLocal(d, path))
  {
    OwnStarts(d);
    hide Start, Steps, WalkTo, LocalPath, Text, Valid;
    LocalExact(Text(d.root), OwnLine(d), 0, |Text(d.root)|, RootPlace(d.root), 0, path);
  }

  /** A local path leads, in every collection, where it leads in the document alone. */
  lemma LocalRange(docs: seq<Document>, k: nat, json: string, path: seq<PathElem>)
    requires ValidDocs(docs) && k < |docs| && Known(docs[k].root) && OwnLine(docs[k]) <= json
    requires OwnLocal(docs[k], path)
    ensures WalkedRange(json, RootOf(docs, k), path) == OwnRange(docs[k], path)
    ensures DefinedPath(json, RootOf(docs, k), RootPos(docs, k), path) == OwnDefined(docs[k], path)
  {
    hide Start, WalkTo, LocalPath, DefinedPath, Text, Valid, Whole, Steps;
    var d := docs[k];
    var own, p := OwnLine(d), RootPlace(d.root);
    assert d in docs;
    OwnStarts(d);
    PathStays(Text(d.root), own, 0, |Text(d.root)|, p, 0, path, json[|own|..]);
    assert json == own + json[|own|..];
    WalkShift(json, p, 0, RootPos(docs, k), path);
    EndShift(json, p, RootPos(docs, k), path);
  }

  lemma EndShift(json: string, p: Place, shift: nat, path: seq<PathElem>)
    requires Known(p.slot.value)
    requires var q := Place(p.start + shift, p.slot);
             WalkTo(json, q, p.start + shift, path) ==
               match WalkTo(json, p, p.start, path)
               case None => None
               case Some(r) => Some(Place(r.start + shift, r.slot))
    ensures WalkedRange(json, Place(p.start + shift, p.slot), path) == WalkedRange(json, p, path)
  {
    hide WalkTo, SlotText, Valid;
  }

  /** One lookup through the cursor of document `k`. */
  method SelectOne(ix: SemiIndex, json: string, c: Cursor, path: seq<PathElem>, ghost docs: seq<Document>, ghost k: nat)
    returns (range: Option<(int, int)>)
    requires ValidDocs(docs) && k < |docs| && Indexes(ix, Whole(docs)) && CursorAt(docs, k, c)
    requires Text(docs[k].root) <= json && Known(docs[k].root)
             && DefinedPath(json, RootOf(docs, k), RootPos(docs, k), path)
    ensures range == WalkedRange(json, RootOf(docs, k), path)
    ensures OwnLocal(docs[k], path) && OwnLine(docs[k]) <= json ==> range == OwnRange(docs[k], path)
    ensures PlainPath(docs[k].root, path) ==> range == TakenRange(docs[k].root, path)
    ensures Valid(docs[k].root) && SafePath(docs[k].root, path) ==> range == ReferenceRange(docs[k].root, path)
  {
    hide Whole, Bp, Nav, Closed, Text, Encode, SlotText, AtPlace, Window, Start, WalkTo, DefinedPath, SafePath,
         PlainPath,
         ReferenceRange, TakenRange, OwnRange, OwnLocal, OwnLine, Select, FindClose, Ones, ValidSlot, Indexes;
    RootValid(docs, k);
    RootStarts(docs, k, json, path);
    ghost var data, p := Whole(docs), RootOf(docs, k);
    var root := Accessor(true, c.node, json, ix, c.offset);
    var found := GetPath(root, path, data, End(p), p);
    if found.isValid {
      ghost var q := WalkTo(json, p, p.start, path).value;
      StartKnown(data, json, p.start, End(p), q, found.node);
      RangeOf(ix, data, q, found.node, c.offset);
      range := Some((GetPos(ix, found.node, c.offset), FindEnd(ix, found.node, c.offset)));
    } else {
      range := None;
    }
    if SafePath(docs[k].root, path) {
      SafeRange(docs[k].root, path);
    }
    if PlainPath(docs[k].root, path) {
      PlainRange(docs, k, json, path);
    }
    if OwnLocal(docs[k], path) && OwnLine(docs[k]) <= json {
      LocalRange(docs, k, json, path);
    }
  }

  lemma RootValid(docs: seq<Document>, k: nat)
    requires ValidDocs(docs) && k < |docs|
    ensures Valid(docs[k].root) && docs[k].root.Node?
  {
    assert docs[k] in docs;
  }

  lemma LineReads(docs: seq<Document>, k: nat)
    requires ValidDocs(docs) && k < |docs|
    ensures RootPos(docs, k) <= |Whole(docs)| && LineOf(docs, k) == Whole(docs)[RootPos(docs, k)..]
    ensures Text(docs[k].root) <= OwnLine(docs[k]) <= LineOf(docs, k)
  {
    hide Whole, Text, Bp, Closed;
    DocReads(docs, k);
    var data, d := Whole(docs), docs[k];
    var a, own, whole := RootPos(docs, k), OwnLine(d), DocText(d);
    assert whole == d.pre + own;
    SliceOfSlice(data, a - |d.pre|, a - |d.pre| + |whole|, |d.pre|, |whole|);
    assert data[a..a+|own|] == whole[|d.pre|..|whole|] == own;
    assert data[a..][..|own|] == data[a..a+|own|];
    assert own[..|Text(d.root)|] == Text(d.root);
  }

  /**
   Index a collection and select a list of paths in each document, by walking the cursors
   to the end. Every document is visited once, in order, and every range is the one the walks
   lead to: for a local path, the one that document alone gives, and on a safe layout the
   range a parser would report.
   */
  method SelectAll(docs: seq<Document>, paths: seq<seq<PathElem>>) returns (ranges: seq<seq<Option<(int, int)>>>)
    requires ValidDocs(docs) && docs != []
    requires forall k, j | 0 <= k < |docs| && 0 <= j < |paths| ::
               Known(docs[k].root) && DefinedPath(LineOf(docs, k), RootOf(docs, k), RootPos(docs, k), paths[j])
    ensures |ranges| == |docs|
    ensures forall k | 0 <= k < |docs| :: Selected(docs, k, paths, ranges[k])
  {
    hide Bp, Nav, Text, Selected, Indexes, Whole, RootPos, RootOf, DefinedPath, Flatten, LineOf;
    var ix, data := BuildAll(docs);
    var cursor := First(ix, docs);
    ranges := [];
    while cursor != Over
      invariant |ranges| <= |docs| && CursorAt(docs, |ranges|, cursor)
      invariant forall k | 0 <= k < |ranges| :: Selected(docs, k, paths, ranges[k])
      decreases |docs| - |ranges|
    {
      ghost var k := |ranges|;
      LineReads(docs, k);
      RootValid(docs, k);
      var line := data[cursor.offset..];
      var row := SelectLine(ix, line, cursor, paths, docs, k);
      cursor := Next(ix, cursor, docs, k);
      ranges := ranges + [row];
    }
  }

  /** The ranges of a list of paths in document `k`. */
  ghost predicate Selected(docs: seq<Document>, k: nat, paths: seq<seq<PathElem>>, row: seq<Option<(int, int)>>)
    requires k < |docs|
  {
    var d := docs[k];
    && Valid(d.root) && |row| == |paths|
    && forall j | 0 <= j < |row| ::
      && row[j] == WalkedRange(LineOf(docs, k), RootOf(docs, k), paths[j])
      && (OwnLocal(d, paths[j]) ==> row[j] == OwnRange(d, paths[j]))
      && (PlainPath(d.root, paths[j]) ==> row[j] == TakenRange(d.root, paths[j]))
      && (SafePath(d.root, paths[j]) ==> row[j] == ReferenceRange(d.root, paths[j]))
  }

  /** The index of a whole collection, and its text. */
  method BuildAll(docs: seq<Document>) returns (ix: SemiIndex, data: string)
    requires ValidDocs(docs)
    ensures data == Whole(docs) && Indexes(ix, data)
  {
    WholeScans(docs);
    var built := Build(Texts(docs));
    return built.index, Flatten(Texts(docs));
  }

  /** All paths in the document a cursor stands at. */
  method SelectLine(ix: SemiIndex, line: string, c: Cursor, paths: seq<seq<PathElem>>, ghost docs: seq<Document>,
      ghost k: nat)
    returns (row: seq<Option<(int, int)>>)
    requires ValidDocs(docs) && k < |docs| && Indexes(ix, Whole(docs)) && CursorAt(docs, k, c)
    requires Valid(docs[k].root) && Known(docs[k].root) && line == LineOf(docs, k) && OwnLine(docs[k]) <= line
    requires forall j | 0 <= j < |paths| :: DefinedPath(line, RootOf(docs, k), RootPos(docs, k), paths[j])
    ensures Selected(docs, k, paths, row)
  {
    hide Bp, Nav, Text, ReferenceRange, TakenRange, OwnRange, OwnLocal, SafePath, PlainPath, Indexes, Whole, RootPos,
         WalkedRange, DefinedPath, LineOf;
    TextFirst(docs[k], line);
    row := [];
    for j := 0 to |paths|
      invariant |row| == j && Selected(docs, k, paths[..j], row)
    {
      var range := SelectOne(ix, line, c, paths[j], docs, k);
      row := row + [range];
    }
    assert paths[..|paths|] == paths;
  }

  lemma TextFirst(d: Document, line: string)
    requires OwnLine(d) <= line
    ensures Text(d.root) <= line
  {
    hide Text;
    assert line[..|Text(d.root)|] == OwnLine(d)[..|Text(d.root)|];
  }

  /** The cursor of document `k`. */
  method CursorTo(ix: SemiIndex, k: nat, ghost docs: seq<Document>) returns (c: Cursor)
    requires ValidDocs(docs) && k < |docs| && Indexes(ix, Whole(docs))
    ensures CursorAt(docs, k, c)
  {
    hide Whole, Indexes, CursorAt;
    c := First(ix, docs);
    for i := 0 to k
      invariant CursorAt(docs, i, c)
    {
      c := Next(ix, c, docs, i);
    }
  }

  /**
   The range of a path in a document does not depend on the collection it is indexed in, if
   no comparison along the path comes to the end of that document undecided.
   */
  method Locality(docs: seq<Document>, k: nat, path: seq<PathElem>)
    returns (together: Option<(int, int)>, alone: Option<(int, int)>)
    requires ValidDocs(docs) && k < |docs| && Known(docs[k].root)
    requires OwnDefined(docs[k], path) && OwnLocal(docs[k], path)
    ensures together == alone == OwnRange(docs[k], path)
  {
    hide OwnDefined, OwnLocal, OwnRange, LineOf, RootOf, RootPos, WalkedRange, DefinedPath, PlainPath, TakenRange,
         OwnLine, Text;
    LineReads(docs, k);
    LocalRange(docs, k, LineOf(docs, k), path);
    together := SelectIn(docs, k, path);
    assert [docs[k]][0] == docs[k];
    LineReads([docs[k]], 0);
    LocalRange([docs[k]], 0, LineOf([docs[k]], 0), path);
    alone := SelectIn([docs[k]], 0, path);
  }

  /** The text from the root of document `k` on, the later documents included. */
  function LineOf(docs: seq<Document>, k: nat): string
    requires k < |docs|
  {
    if RootPos(docs, k) <= |Whole(docs)| then Whole(docs)[RootPos(docs, k)..] else ""
  }

  method SelectIn(docs: seq<Document>, k: nat, path: seq<PathElem>) returns (range: Option<(int, int)>)
    requires ValidDocs(docs) && k < |docs| && Known(docs[k].root)
    requires DefinedPath(LineOf(docs, k), RootOf(docs, k), RootPos(docs, k), path)
    ensures range == WalkedRange(LineOf(docs, k), RootOf(docs, k), path)
  {
    hide Bp, Nav, Text, TakenRange, OwnRange, PlainPath, OwnLocal, Indexes, Whole, RootPos, WalkedRange, DefinedPath,
         LineOf, OwnLine;
    RootValid(docs, k);
    var ix, data := BuildAll(docs);
    var c := CursorTo(ix, k, docs);
    LineReads(docs, k);
    TextFirst(docs[k], data[c.offset..]);
    range := SelectOne(ix, data[c.offset..], c, path, docs, k);
  }

  /** `{"a":1,"b":2}` and a newline. */
  function OddDocument(): Document { Document("", TightDocument(), "\n") }

  /**
   For other keys that need not be so. A second such document behind the first completes
   a strange key, which the walk in the first one then takes.
   */
  method OddKeyNotLocal() returns (together: Option<(int, int)>, alone: Option<(int, int)>)
    ensures var d, path := OddDocument(), [AtKey(OddKey())];
            && ValidDocs([d, d]) && together == WalkedRange(LineOf([d, d], 0), RootOf([d, d], 0), path)
            && ValidDocs([d]) && alone == WalkedRange(LineOf([d], 0), RootOf([d], 0), path)
    ensures together != None && alone == None
  {
    hide WalkedRange, DefinedPath, PlainPath, TakenRange, LineOf, RootOf, RootPos, OddKey, OddDocument, Valid;
    var d, path := OddDocument(), [AtKey(OddKey())];
    OddWalked();
    OddLines(d);
    together := SelectIn([d, d], 0, path);
    alone := SelectIn([d], 0, path);
  }

  lemma OddLines(d: Document)
    requires d.pre == ""
    ensures RootOf([d, d], 0) == RootOf([d], 0) == RootPlace(d.root) && RootPos([d, d], 0) == RootPos([d], 0) == 0
    ensures LineOf([d, d], 0) == DocText(d) + DocText(d) && LineOf([d], 0) == DocText(d)
  {
    hide Text;
    var t := DocText(d);
    assert [d, d][..0] == [] && [d][..0] == [];
    var one, two := [t], [t, t];
    assert Texts([d]) == one && Texts([d, d]) == two && one[..0] == [] && two[..1] == one;
    assert Flatten(one) == t && Flatten(two) == t + t;
    assert (t + t)[0..] == t + t && t[0..] == t;
  }

  lemma OddWalked()
    ensures var d, path := OddDocument(), [AtKey(OddKey())];
            && d.pre == "" && Valid(d.root) && ValidDoc(d) && Known(RootPlace(d.root).slot.value)
            && DefinedPath(DocText(d), RootPlace(d.root), 0, path)
            && DefinedPath(DocText(d) + DocText(d), RootPlace(d.root), 0, path)
            && WalkedRange(DocText(d), RootPlace(d.root), path) == None
            && WalkedRange(DocText(d) + DocText(d), RootPlace(d.root), path) != None
  {
    hide ObjectWalk, Text, Valid, OddKey;
    var d := OddDocument();
    TightDocumentValid();
    assert DocText(d) == Text(TightDocument()) + "\n";
    OddLine(DocText(d));
    OneKey(DocText(d), RootPlace(d.root), OddKey());
    OneKey(DocText(d) + DocText(d), RootPlace(d.root), OddKey());
  }

  /** A path of one key, in an object that is not blank. */
  lemma OneKey(json: string, p: Place, key: string)
    requires Known(p.slot.value) && p.start == 0 && !BlankObject(p.slot.value)
    ensures DefinedPath(json, p, 0, [AtKey(key)])
    ensures WalkedRange(json, p, [AtKey(key)]) == None <==> ObjectWalk(json, p, 0, key) == None
  {
    hide ObjectWalk, Valid;
    var path := [AtKey(key)];
    assert path[1..] == [];
    match ObjectWalk(json, p, 0, key)
    case None =>
    case Some(i) =>
      SlotKnown(p, i);
      assert WalkTo(json, SlotPlace(p, i), 0, []) == Some(SlotPlace(p, i));
  }

  /** In `[{ },"a"]` the key `a` is found in the first element, at a closing parenthesis. */
  method BlankMemberFound() returns (ix: SemiIndex, found: bool, child: nat)
    ensures Indexes(ix, Text(BlankDocument())) && found && child < |ix.bp| && !ix.bp[child]
  {
    hide Bp, Nav, Text, Encode, SlotText, AtPlace, Window, Start, WalkTo, Body, Select, FindClose, Ones, Valid, Whole,
         Indexes, BlankDocument, SlotPlace;
    var docs := [Document("", BlankDocument(), "")];
    BlankDocumentSpells();
    BlankAlone(docs);
    var data;
    ix, data := BuildAll(docs);
    var c := First(ix, docs);
    RootStarts(docs, 0, data, []);
    ghost var p := RootPlace(BlankDocument());
    var element := Child(Accessor(true, c.node, data, ix, c.offset), AtIndex(0), data, End(p), p);
    found, child := GetObjectChild(ix, element.json, element.node, 0, "a", data, End(p), SlotPlace(p, 0));
  }

  lemma BlankAlone(docs: seq<Document>)
    requires docs == [Document("", BlankDocument(), "")] && Valid(BlankDocument())
    ensures ValidDocs(docs) && Whole(docs) == Text(BlankDocument()) && RootOf(docs, 0) == RootPlace(BlankDocument())
    ensures StepWalk(Whole(docs), RootPlace(BlankDocument()), 0, AtIndex(0)) == Some(0)
  {
    hide Text, Valid;
    assert DocText(docs[0]) == Text(BlankDocument());
    assert Texts(docs) == [Text(BlankDocument())] && docs[..0] == [] && Texts(docs)[..0] == [];
    assert Flatten([]) == "" && Flatten(Texts(docs)) == "" + Text(BlankDocument());
  }

  // ---- What the ranges hold ----

  function TrimLeft(s: string): string {
    if s != "" && IsSpace(s[0]) then TrimLeft(s[1..]) else s
  }

  function TrimRight(s: string): string {
    if s != "" && IsSpace(s[|s|-1]) then TrimRight(s[..|s|-1]) else s
  }

  lemma {:induction false} TrimSpaces(a: string, b: string)
    requires Spaces(a)
    ensures b != "" && !IsSpace(b[0]) ==> TrimLeft(a + b) == b
    ensures b != "" && !IsSpace(b[|b|-1]) ==> TrimRight(b + a) == b
    decreases |a|
  {
    if a == "" {
      assert a + b == b && b + a == b;
    } else {
      var n := |a|;
      assert a[0] in a && a[n-1] in a;
      assert (a + b)[0] == a[0] && (a + b)[1..] == a[1..] + b;
      assert (b + a)[|b|+n-1] == a[n-1] && (b + a)[..|b|+n-1] == b + a[..n-1];
      assert forall c | c in a[1..] :: c in a;
      assert forall c | c in a[..n-1] :: c in a;
      TrimSpaces(a[1..], b);
      TrimSpaces(a[..n-1], b);
    }
  }

  lemma ValueEnds(v: Value)
    requires Valid(v)
    ensures Text(v) != "" && !IsSpace(Text(v)[0]) && !IsSpace(Text(v)[|Text(v)|-1])
  {
    if v.Atom? {
      assert v.text[0] in v.text && v.text[|v.text|-1] in v.text;
    } else if v.Node? {
      SlotsPlaced(v);
      var n := |v.slots|;
      assert Body(v.kind, v.slots, n)[|Body(v.kind, v.slots, n)|-1] == Follower(v.kind, n, n - 1);
    }
  }

  lemma {:induction false} LocateReads(data: string, p: Place, node: nat, path: seq<PathElem>)
    requires AtPlace(data, p, node) && ValidSlot(p.slot)
    ensures match Locate(p, path)
            case None => true
            case Some(q) => Reads(data, q)
    decreases |path|
  {
    hide Bp, Nav, Text, SlotText, Encode, Valid, Body;
    if path != [] && ChildSlot(p.slot.value, path[0]).Some? {
      var i := ChildSlot(p.slot.value, path[0]).value;
      ChildPlace(data, p, node, i);
      LocateReads(data, SlotPlace(p, i), Bit(data, SlotPlace(p, i).start) - 1, path[1..]);
    }
  }

  /**
   The reported range is right: there is one exactly when the value denoted by the
   document has the path, and the text in it, trimmed, is a rendering of what is
   found there.
   */
  lemma RangeMeaning(root: Value, path: seq<PathElem>)
    requires Valid(root) && root.Node?
    ensures ReferenceRange(root, path).Some? <==> Lookup(Meaning(root), path).Some?
    ensures ReferenceRange(root, path).Some? ==>
              var (a, b) := ReferenceRange(root, path).value;
              && 0 <= a <= b <= |Text(root)|
              && exists v :: Valid(v) && Lookup(Meaning(root), path) == Some(Meaning(v))
                             && TrimRight(TrimLeft(Text(root)[a..b])) == Text(v)
  {
    var t, p := Text(root), RootPlace(root);
    LocateMeaning(p, path);
    if Locate(p, path).Some? {
      var q := Locate(p, path).value;
      RootLocates(root, path);
      TrimSlot(q.slot);
      assert Valid(q.slot.value);
    }
  }

  lemma RootLocates(root: Value, path: seq<PathElem>)
    requires Valid(root) && root.Node?
    ensures match Locate(RootPlace(root), path)
            case None => true
            case Some(q) => End(q) <= |Text(root)| && Text(root)[q.start..End(q)] == SlotText(q.slot)
  {
    var t, p := Text(root), RootPlace(root);
    assert SlotText(p.slot) == t && t[..0] == "";
    assert AtPlace(t, p, 0) by { assert Bit(t, 0) == 0; }
    hide Bp, Nav, Text, Encode, SlotText, Valid, Locate;
    LocateReads(t, p, 0, path);
  }

  lemma TrimSlot(s: Slot)
    requires ValidSlot(s)
    ensures TrimRight(TrimLeft(SlotText(s))) == Text(s.value)
  {
    hide Valid, Text, TrimLeft, TrimRight, IsSpace;
    ValueEnds(s.value);
    TrimBoth(s.pre, Text(s.value), s.post);
  }

  lemma TrimBoth(pre: string, v: string, post: string)
    requires Spaces(pre) && Spaces(post) && v != "" && !IsSpace(v[0]) && !IsSpace(v[|v|-1])
    ensures TrimRight(TrimLeft(pre + v + post)) == v
  {
    hide TrimLeft, TrimRight;
    assert pre + v + post == pre + (v + post) && (v + post)[0] == v[0];
    TrimSpaces(pre, v + post);
    TrimSpaces(post, v);
  }
}
