/**
 What the JSON reader accepts, and what it makes of it: the value that stands behind a position
 of a text, and where it ends, as functions of the text alone.
 */
module Grammar {
  import opened Basics
  import opened JsonValue
  import opened FastWriter
  import opened ReaderSpec
  import opened Written

  /** The token a value begins with; comments before it are skipped if they are allowed. */
  function FirstToken(doc: string, from: nat, comments: bool): (t: Token)
    requires from <= |doc|
    ensures from <= t.start <= t.end <= |doc|
    ensures t.kind == EndOfStream || t.start < t.end
  {
    if comments then NextToken(doc, from) else TokenAt(doc, from)
  }

  function Ending(v: Option<Value>, end: nat): Option<(Value, nat)> {
    match v
    case None => None
    case Some(w) => Some((w, end))
  }

  function LiteralText(doc: string, t: Token): Option<string>
    requires t.start <= t.end <= |doc|
  {
    if t.start + 1 < t.end then Unescape(doc[t.start+1..t.end-1]) else None
  }

  /** The value behind `from`, and where it ends. */
  function ValueAt(doc: string, from: nat, comments: bool, scan: Scan): (r: Option<(Value, nat)>)
    requires from <= |doc|
    ensures r.Some? ==> from < r.value.1 <= |doc|
    decreases |doc| - from, 0
  {
    var t := FirstToken(doc, from, comments);
    match t.kind
    case ObjectBegin => MembersFrom(doc, t.end, [], "", comments, scan)
    case ArrayBegin => ArrayFrom(doc, t.end, comments, scan)
    case NumberToken => Ending(ReadBackNumber(doc[t.start..t.end], scan), t.end)
    case StringToken =>
      (match LiteralText(doc, t)
       case None => None
       case Some(s) => Some((String(s), t.end)))
    case TrueToken => Some((Boolean(true), t.end))
    case FalseToken => Some((Boolean(false), t.end))
    case NullToken => Some((Null, t.end))
    case _ => None
  }

  /** The rest of an array, behind its opening bracket. */
  function ArrayFrom(doc: string, from: nat, comments: bool, scan: Scan): (r: Option<(Value, nat)>)
    requires from <= |doc|
    ensures r.Some? ==> from < r.value.1 <= |doc| && r.value.0.Array?
    decreases |doc| - from, 2
  {
    var close := TokenAt(doc, from);
    if close.kind == ArrayEnd then Some((Array([]), close.end)) else ItemsFrom(doc, from, [], comments, scan)
  }

  /** Elements up to the closing bracket; any other token that is no comment separates them. */
  function ItemsFrom(doc: string, from: nat, items: seq<Value>, comments: bool, scan: Scan): (r: Option<(Value, nat)>)
    requires from <= |doc|
    ensures r.Some? ==> from < r.value.1 <= |doc| && r.value.0.Array?
    decreases |doc| - from, 1
  {
    match ValueAt(doc, from, comments, scan)
    case None => None
    case Some((v, end)) =>
      var separator := NextToken(doc, end);
      if separator.kind == ArrayEnd then Some((Array(items + [v]), separator.end))
      else ItemsFrom(doc, separator.end, items + [v], comments, scan)
  }

  /** A member from its name token on: name, value, and the token behind, comments skipped if the first is one. */
  function MemberFrom(doc: string, name: Token, comments: bool, scan: Scan): (r: Option<(string, Value, Token)>)
    requires name.start < name.end <= |doc|
    ensures r.Some? ==> name.end < r.value.2.end <= |doc|
    decreases |doc| - name.start, 0
  {
    var colon := TokenAt(doc, name.end);
    match LiteralText(doc, name)
    case None => None
    case Some(s) =>
      if colon.kind != MemberSeparator then None
      else match ValueAt(doc, colon.end, comments, scan)
           case None => None
           case Some((v, end)) =>
             var comma := TokenAt(doc, end);
             if comma.kind == ObjectEnd || comma.kind == ArraySeparator || comma.kind == CommentToken
             then Some((s, v, Uncommented(doc, comma)))
             else None
  }

  /** The ways a member can fail, and what it gives otherwise. */
  lemma MemberStages(doc: string, name: Token, comments: bool, scan: Scan)
    requires name.start < name.end <= |doc|
    ensures LiteralText(doc, name) == None ==> MemberFrom(doc, name, comments, scan) == None
    ensures var colon := TokenAt(doc, name.end);
            && (colon.kind != MemberSeparator || ValueAt(doc, colon.end, comments, scan) == None ==>
                  MemberFrom(doc, name, comments, scan) == None)
            && (LiteralText(doc, name).Some? && colon.kind == MemberSeparator ==>
                  match ValueAt(doc, colon.end, comments, scan)
                  case None => true
                  case Some((v, end)) =>
                    var comma := TokenAt(doc, end);
                    MemberFrom(doc, name, comments, scan) ==
                      if comma.kind == ObjectEnd || comma.kind == ArraySeparator || comma.kind == CommentToken
                      then Some((LiteralText(doc, name).value, v, Uncommented(doc, comma))) else None)
  {
    hide TokenAt, Uncommented, ValueAt, LiteralText;
  }

  /** Members up to the closing brace, which may come first if the name before it, if any, is empty. */
  function MembersFrom(doc: string, from: nat, members: seq<(string, Value)>, last: string, comments: bool, scan: Scan)
    : (r: Option<(Value, nat)>)
    requires from <= |doc|
    ensures r.Some? ==> from < r.value.1 <= |doc| && r.value.0.Object?
    decreases |doc| - from, 1
  {
    var name := NextToken(doc, from);
    if name.kind == ObjectEnd && last == "" then Some((Object(members), name.end))
    else if name.kind != StringToken then None
    else match MemberFrom(doc, name, comments, scan)
         case None => None
         case Some((s, v, t)) =>
           var more := Put(members, CString(s), v);
           if t.kind == ObjectEnd then Some((Object(more), t.end))
           else MembersFrom(doc, t.end, more, s, comments, scan)
  }

  // ---- What the reader complains of, where there is no value ----

  /** What is wrong with the value behind `from`. This and the next four mean nothing where nothing is wrong. */
  function ValueComplaint(doc: string, from: nat, comments: bool, scan: Scan): ErrorInfo
    requires from <= |doc|
    decreases |doc| - from, 0
  {
    var t := FirstToken(doc, from, comments);
    match t.kind
    case ObjectBegin => MembersComplaint(doc, t.end, "", comments, scan)
    case ArrayBegin => ItemsComplaint(doc, t.end, comments, scan)
    case NumberToken => ErrorInfo(IsNotANumber, t)
    case StringToken => LiteralComplaint(doc, t)
    case _ => ErrorInfo(ValueExpected, t)
  }

  function LiteralComplaint(doc: string, t: Token): ErrorInfo
    requires t.start <= t.end <= |doc|
  {
    ErrorInfo(if t.start + 1 < t.end then LiteralMessage(doc[t.start+1..t.end-1]) else EmptyEscape, t)
  }

  /** That of the first element which is no value. */
  function ItemsComplaint(doc: string, from: nat, comments: bool, scan: Scan): ErrorInfo
    requires from <= |doc|
    decreases |doc| - from, 1
  {
    match ValueAt(doc, from, comments, scan)
    case None => ValueComplaint(doc, from, comments, scan)
    case Some((_, end)) =>
      var separator := NextToken(doc, end);
      if separator.kind == ArrayEnd then ErrorInfo(ValueExpected, separator)
      else ItemsComplaint(doc, separator.end, comments, scan)
  }

  function MemberComplaint(doc: string, name: Token, comments: bool, scan: Scan): ErrorInfo
    requires name.start < name.end <= |doc|
    decreases |doc| - name.start, 0
  {
    var colon := TokenAt(doc, name.end);
    if LiteralText(doc, name) == None then LiteralComplaint(doc, name)
    else if colon.kind != MemberSeparator then ErrorInfo(MissingColon, colon)
    else match ValueAt(doc, colon.end, comments, scan)
         case None => ValueComplaint(doc, colon.end, comments, scan)
         case Some((_, end)) => ErrorInfo(MissingCommaOrBrace, TokenAt(doc, end))
  }

  /** That of the first member which is none, or that there is no further one. */
  function MembersComplaint(doc: string, from: nat, last: string, comments: bool, scan: Scan): ErrorInfo
    requires from <= |doc|
    decreases |doc| - from, 1
  {
    var name := NextToken(doc, from);
    if name.kind != StringToken then ErrorInfo(MissingBraceOrName, name)
    else match MemberFrom(doc, name, comments, scan)
         case None => MemberComplaint(doc, name, comments, scan)
         case Some((s, _, t)) =>
           if t.kind == ObjectEnd then ErrorInfo(MissingBraceOrName, t)
           else MembersComplaint(doc, t.end, s, comments, scan)
  }

  // ---- What is read of a written text ----

  /** Where no comment comes first, it does not matter whether comments are allowed. */
  lemma FirstSame(doc: string, from: nat, comments: bool)
    requires from <= |doc| && SpaceEnd(doc, from) < |doc| && doc[SpaceEnd(doc, from)] != '/'
    ensures FirstToken(doc, from, comments) == TokenAt(doc, from) == TokenAt(doc, SpaceEnd(doc, from))
  {
    SpaceEndTwice(doc, from);
    NotComment(doc, SpaceEnd(doc, from));
  }

  lemma NotComment(doc: string, i: nat)
    requires i < |doc| && SpaceEnd(doc, i) == i && doc[i] != '/'
    ensures TokenAt(doc, i).kind != CommentToken
  {
    hide StringEnd, NumberEnd, CommentAt;
  }

  /** What is needed of item `k` of an array to read it and what follows it. */
  lemma JoinedItem(doc: string, i: nat, j: Joined, k: nat, fmt: real -> string)
    requires HoldsJoined(doc, i, j, fmt) && k < |j.items|
    ensures |j.at| == |j.items| && j.at[k] <= |doc| && Holds(doc, SpaceEnd(doc, j.at[k]), j.items[k], fmt)
    ensures var behind := SpaceEnd(doc, j.at[k]) + |Render(j.items[k], fmt)|;
            && behind <= |doc| && (NextToken(doc, behind).kind == ArrayEnd <==> k + 1 == |j.items|)
            && NextToken(doc, behind).end == if k + 1 == |j.items| then j.stop else j.at[k+1]
  {
    hide Holds, Render, SpaceEnd, TokenAt;
    assert JoinedAt(doc, j, k, fmt);
  }

  /** Where member `k` leads: to the next one, to a brace behind a separator, or out of the object. */
  predicate EntryLeads(doc: string, e: Entries, k: nat, ended: bool, at: nat)
    requires k < |e.members| == |e.at|
  {
    if k + 1 < |e.members| then !ended && at == e.at[k+1]
    else if ended then at == e.stop
    else e.members[k].0 == "" && ObjectStops(doc, at, e.stop)
  }

  lemma EntryParts(doc: string, e: Entries, k: nat, fmt: real -> string)
    requires k < |e.members| == |e.at| && EntryAt(doc, e, k, fmt)
    ensures e.at[k] <= |doc|
    ensures var name := NextToken(doc, e.at[k]);
            && NameIs(doc, name, e.members[k].0) && TokenAt(doc, name.end).kind == MemberSeparator
            && Holds(doc, SpaceEnd(doc, TokenAt(doc, name.end).end), e.members[k].1, fmt)
            && var behind := SpaceEnd(doc, TokenAt(doc, name.end).end) + |Render(e.members[k].1, fmt)|;
               behind <= |doc| && EntryEnds(doc, e, k, TokenAt(doc, behind))
  {
    hide Holds, SpaceEnd, TokenAt, NextToken, Render, EntryEnds, NameIs, Unescape, Uncommented;
  }

  lemma EntrySeparator(doc: string, e: Entries, k: nat, comma: Token)
    requires k < |e.members| == |e.at| && TokenOk(doc, comma) && EntryEnds(doc, e, k, comma)
    ensures comma.kind == ObjectEnd || comma.kind == ArraySeparator || comma.kind == CommentToken
    ensures var t := Uncommented(doc, comma); EntryLeads(doc, e, k, t.kind == ObjectEnd, t.end)
  {
    hide TokenAt, ObjectStops;
  }

  /** After one more member. */
  lemma OneGathered(doc: string, e: Entries, k: nat, ended: bool, at: nat, scan: Scan)
    requires k < |e.members| == |e.at| && Gathered(e.members, scan, k).Some?
    ensures match ReadBack(e.members[k].1, scan)
            case None => ObjectBack(e.members, scan) == None
            case Some(w) =>
              && Gathered(e.members, scan, k + 1) ==
                 Some(Put(Gathered(e.members, scan, k).value, CString(e.members[k].0), w))
              && (EntryLeads(doc, e, k, ended, at) && ended ==>
                    at == e.stop && ObjectBack(e.members, scan) ==
                    Some(Object(Put(Gathered(e.members, scan, k).value, CString(e.members[k].0), w))))
              && (EntryLeads(doc, e, k, ended, at) && !ended ==>
                    if k + 1 < |e.members| then at == e.at[k+1]
                    else e.members[k].0 == "" && ObjectStops(doc, at, e.stop))
  {
    hide ReadBack, Put, CString, ObjectStops;
    if ReadBack(e.members[k].1, scan) == None {
      NotGathered(e.members, scan, k, |e.members|);
    }
  }

  /** A written value is read as what it reads back as, and no further. */
  lemma {:induction false} WrittenValue(doc: string, at: nat, v: Value, fmt: real -> string, comments: bool, scan: Scan)
    requires at <= |doc| && Holds(doc, SpaceEnd(doc, at), v, fmt)
    ensures ValueAt(doc, at, comments, scan) == Ending(ReadBack(v, scan), SpaceEnd(doc, at) + |Render(v, fmt)|)
    decreases v, 0
  {
    hide *;
    match v {
      case Array(items) =>
        ArrayStands(doc, at, items, fmt, comments, scan);
        JoinedValue(doc, SpaceEnd(doc, at) + 1, CommaJoined(items, SpaceEnd(doc, at) + 1, fmt), fmt, comments, scan);
      case Object(ms) =>
        ObjectStands(doc, at, ms, fmt, comments, scan);
        EnteredValue(doc, SpaceEnd(doc, at) + 1, CommaEntered(ms, SpaceEnd(doc, at) + 1, fmt), fmt, comments, scan);
      case _ =>
        WrittenLeaf(doc, at, v, fmt, comments, scan);
    }
  }

  lemma ArrayStands(doc: string, at: nat, items: seq<Value>, fmt: real -> string, comments: bool, scan: Scan)
    requires at <= |doc| && Holds(doc, SpaceEnd(doc, at), Array(items), fmt)
    ensures var i := SpaceEnd(doc, at) + 1;
            var j := CommaJoined(items, i, fmt);
            && HoldsJoined(doc, i, j, fmt) && j.stop == SpaceEnd(doc, at) + |Render(Array(items), fmt)| && i <= |doc|
            && ValueAt(doc, at, comments, scan) == ArrayFrom(doc, i, comments, scan)
  {
    hide Holds, Render, ReadBack, TokenAt, SpaceEnd, HoldsItems, HoldsJoined, ArrayFrom, ValueAt;
    var i := SpaceEnd(doc, at);
    FirstOfValue(doc, i, Array(items), fmt);
    FirstSame(doc, at, comments);
    ValueIs(doc, at, comments, scan);
    ArrayToken(doc, i, items, fmt, TokenAt(doc, i));
    WrittenJoins(doc, i + 1, items, fmt, scan);
  }

  lemma ObjectStands(doc: string, at: nat, ms: seq<(string, Value)>, fmt: real -> string, comments: bool, scan: Scan)
    requires at <= |doc| && Holds(doc, SpaceEnd(doc, at), Object(ms), fmt)
    ensures var i := SpaceEnd(doc, at) + 1;
            var e := CommaEntered(ms, i, fmt);
            && HoldsEntries(doc, i, e, fmt) && e.stop == SpaceEnd(doc, at) + |Render(Object(ms), fmt)| && i <= |doc|
            && e.members == ms && ObjectBack(ms, scan) == ReadBack(Object(ms), scan)
            && ValueAt(doc, at, comments, scan) == MembersFrom(doc, i, [], "", comments, scan)
  {
    hide Holds, Render, ReadBack, TokenAt, SpaceEnd, HoldsMembers, HoldsEntries, MembersFrom, ValueAt, ObjectBack;
    var i := SpaceEnd(doc, at);
    FirstOfValue(doc, i, Object(ms), fmt);
    FirstSame(doc, at, comments);
    ValueIs(doc, at, comments, scan);
    ObjectToken(doc, i, ms, fmt, TokenAt(doc, i));
    WrittenEnters(doc, i + 1, ms, fmt, scan);
  }

  lemma WrittenLeaf(doc: string, at: nat, v: Value, fmt: real -> string, comments: bool, scan: Scan)
    requires at <= |doc| && Holds(doc, SpaceEnd(doc, at), v, fmt) && !v.Array? && !v.Object?
    ensures ValueAt(doc, at, comments, scan) == Ending(ReadBack(v, scan), SpaceEnd(doc, at) + |Render(v, fmt)|)
  {
    hide Holds, Render, ReadBack, TokenAt, SpaceEnd, HoldsItems, HoldsMembers, ReadBackNumber, Unescape, ValueAt,
         NumberText, FirstToken;
    var i := SpaceEnd(doc, at);
    FirstOfValue(doc, i, v, fmt);
    FirstSame(doc, at, comments);
    ValueToken(doc, i, v, fmt, TokenAt(doc, i));
    ValueIs(doc, at, comments, scan);
    HoldsWritable(doc, i, v, fmt);
    LeafBack(v, scan);
  }

  /** What a value is, by the token it begins with. */
  lemma ValueIs(doc: string, from: nat, comments: bool, scan: Scan)
    requires from <= |doc|
    ensures var t := FirstToken(doc, from, comments);
            && (t.kind == ObjectBegin ==>
                  ValueAt(doc, from, comments, scan) == MembersFrom(doc, t.end, [], "", comments, scan))
            && (t.kind == ArrayBegin ==> ValueAt(doc, from, comments, scan) == ArrayFrom(doc, t.end, comments, scan))
            && (t.kind == NumberToken ==>
                  ValueAt(doc, from, comments, scan) == Ending(ReadBackNumber(doc[t.start..t.end], scan), t.end))
            && (t.kind == StringToken && LiteralText(doc, t).Some? ==>
                  ValueAt(doc, from, comments, scan) == Some((String(LiteralText(doc, t).value), t.end)))
            && (t.kind == TrueToken ==> ValueAt(doc, from, comments, scan) == Some((Boolean(true), t.end)))
            && (t.kind == FalseToken ==> ValueAt(doc, from, comments, scan) == Some((Boolean(false), t.end)))
            && (t.kind == NullToken ==> ValueAt(doc, from, comments, scan) == Some((Null, t.end)))
  {
    hide FirstToken, LiteralText, ReadBackNumber, MembersFrom, ArrayFrom;
  }

  lemma HoldsWritable(doc: string, i: nat, v: Value, fmt: real -> string)
    requires Holds(doc, i, v, fmt)
    ensures Writable(v)
  {
  }

  /** Items joined by any tokens but the closing bracket are read as those items. */
  lemma {:induction false} JoinedValue(doc: string, i: nat, j: Joined, fmt: real -> string, comments: bool, scan: Scan)
    requires HoldsJoined(doc, i, j, fmt)
    ensures ArrayFrom(doc, i, comments, scan) == Ending(ReadBack(Array(j.items), scan), j.stop)
    decreases j.items, |j.items| + 1
  {
    hide Holds, Render, ReadBack, TokenAt, SpaceEnd, HoldsJoined, ItemsFrom;
    JoinedBegin(doc, i, j, scan, fmt);
    JoinedParts(doc, i, j, fmt);
    SpaceEndTwice(doc, i);
    var close := TokenAt(doc, i);
    if j.items == [] {
      CharToken(doc, SpaceEnd(doc, i), close);
      BackArray(j.items, [], scan);
    } else {
      BracketToken(doc, SpaceEnd(doc, i));
      JoinedFrom(doc, i, j, 0, [], fmt, comments, scan);
    }
  }

  lemma JoinedParts(doc: string, i: nat, j: Joined, fmt: real -> string)
    requires HoldsJoined(doc, i, j, fmt)
    ensures i <= |doc| && |j.at| == |j.items| && (j.items != [] ==> j.at[0] == i)
    ensures j.items == [] ==> j.stop == SpaceEnd(doc, i) + 1
  {
  }

  lemma BracketToken(doc: string, i: nat)
    requires i < |doc| && SpaceEnd(doc, i) == i
    ensures TokenAt(doc, i).kind == ArrayEnd <==> doc[i] == ']'
  {
    hide StringEnd, NumberEnd, CommentAt;
  }

  lemma {:induction false} JoinedFrom(doc: string, i: nat, j: Joined, k: nat, items: seq<Value>, fmt: real -> string,
      comments: bool, scan: Scan)
    requires HoldsJoined(doc, i, j, fmt) && k < |j.items| == |j.at| && j.at[k] <= |doc|
    requires |items| == k && BackItems(j.items, items, scan)
    ensures ItemsFrom(doc, j.at[k], items, comments, scan) == Ending(ReadBack(Array(j.items), scan), j.stop)
    decreases j.items, |j.items| - k
  {
    hide Holds, Render, ReadBack, TokenAt, SpaceEnd, HoldsJoined, ValueAt, BackItems, NextToken;
    JoinedItem(doc, i, j, k, fmt);
    WrittenValue(doc, j.at[k], j.items[k], fmt, comments, scan);
    BackArray(j.items, items, scan);
    if ReadBack(j.items[k], scan).Some? {
      var v := ReadBack(j.items[k], scan).value;
      BackMore(j.items, items, scan, v);
      BackArray(j.items, items + [v], scan);
      if k + 1 < |j.items| {
        JoinedFrom(doc, i, j, k + 1, items + [v], fmt, comments, scan);
      }
    }
  }

  /** Members joined by any accepted separators are assigned in turn. */
  lemma {:induction false} EnteredValue(doc: string, i: nat, e: Entries, fmt: real -> string, comments: bool,
      scan: Scan)
    requires HoldsEntries(doc, i, e, fmt)
    ensures i <= |doc| && MembersFrom(doc, i, [], "", comments, scan) == Ending(ObjectBack(e.members, scan), e.stop)
    decreases e.members, |e.members| + 1
  {
    hide EntryAt, TokenAt, NextToken, MemberFrom;
    if e.members != [] {
      hide MembersFrom;
      EnteredFrom(doc, i, e, 0, [], "", fmt, comments, scan);
    }
  }

  lemma {:induction false} EnteredFrom(doc: string, i: nat, e: Entries, k: nat, members: seq<(string, Value)>,
      last: string, fmt: real -> string, comments: bool, scan: Scan)
    requires HoldsEntries(doc, i, e, fmt) && k < |e.members| == |e.at| && e.at[k] <= |doc|
    requires Gathered(e.members, scan, k) == Some(members)
    ensures MembersFrom(doc, e.at[k], members, last, comments, scan) == Ending(ObjectBack(e.members, scan), e.stop)
    decreases e.members, |e.members| - k
  {
    hide Holds, Render, ReadBack, TokenAt, NextToken, HoldsEntries, EntryAt, EntryLeads, Gathered, ObjectBack, Put,
         CString, ObjectStops, MemberFrom;
    EntryHeld(doc, i, e, k, fmt);
    var (s, v) := e.members[k];
    var t := EntryRead(doc, e, k, fmt, comments, scan);
    OneGathered(doc, e, k, t.kind == ObjectEnd, t.end, scan);
    if ReadBack(v, scan).Some? && t.kind != ObjectEnd {
      var more := Put(members, CString(s), ReadBack(v, scan).value);
      if k + 1 < |e.members| {
        EntryHeld(doc, i, e, k + 1, fmt);
        EnteredFrom(doc, i, e, k + 1, more, s, fmt, comments, scan);
      } else {
        EntryStops(doc, e, more, t.end, s, comments, scan);
      }
    }
  }

  /** One member, and the token behind it. */
  lemma {:induction false} EntryRead(doc: string, e: Entries, k: nat, fmt: real -> string, comments: bool, scan: Scan)
    returns (t: Token)
    requires k < |e.members| == |e.at| && EntryAt(doc, e, k, fmt)
    ensures e.at[k] <= |doc| && NextToken(doc, e.at[k]).kind == StringToken
    ensures EntryLeads(doc, e, k, t.kind == ObjectEnd, t.end)
    ensures MemberFrom(doc, NextToken(doc, e.at[k]), comments, scan) ==
            match ReadBack(e.members[k].1, scan)
            case None => None
            case Some(w) => Some((e.members[k].0, w, t))
    decreases e.members, 0
  {
    hide Holds, Render, ReadBack, TokenAt, SpaceEnd, ValueAt, NextToken, Uncommented, EntryAt, EntryEnds, EntryLeads,
         Unescape;
    EntryParts(doc, e, k, fmt);
    var name := NextToken(doc, e.at[k]);
    var colon := TokenAt(doc, name.end);
    WrittenValue(doc, colon.end, e.members[k].1, fmt, comments, scan);
    var behind := SpaceEnd(doc, colon.end) + |Render(e.members[k].1, fmt)|;
    TokenOfAt(doc, behind);
    EntrySeparator(doc, e, k, TokenAt(doc, behind));
    t := Uncommented(doc, TokenAt(doc, behind));
  }

  lemma TokenOfAt(doc: string, i: nat)
    requires i <= |doc|
    ensures TokenOk(doc, TokenAt(doc, i))
  {
    hide TokenAt;
  }

  lemma EntryHeld(doc: string, i: nat, e: Entries, k: nat, fmt: real -> string)
    requires HoldsEntries(doc, i, e, fmt) && k < |e.members| == |e.at|
    ensures EntryAt(doc, e, k, fmt) && e.at[k] <= |doc|
  {
    hide NextToken, TokenAt, Holds;
    assert EntryAt(doc, e, k, fmt);
  }

  /** Behind a separator after a member with an empty name. */
  lemma EntryStops(doc: string, e: Entries, members: seq<(string, Value)>, at: nat, last: string, comments: bool,
      scan: Scan)
    requires ObjectStops(doc, at, e.stop) && last == "" && Gathered(e.members, scan, |e.members|) == Some(members)
    ensures MembersFrom(doc, at, members, last, comments, scan) == Ending(ObjectBack(e.members, scan), e.stop)
  {
    hide NextToken, MemberFrom, Gathered;
  }

  // ---- What is read can be written ----

  predicate HasDouble(v: Value)
    decreases v
  {
    match v
    case Real(_) => true
    case Array(items) => exists i | 0 <= i < |items| :: HasDouble(items[i])
    case Object(ms) => exists i | 0 <= i < |ms| :: HasDouble(ms[i].1)
    case _ => false
  }

  /** What the value class keeps: integers of 32 bits, and members in the order of their names. */
  predicate Proper(v: Value)
    decreases v
  {
    match v
    case Int(i) => -2147483648 <= i <= 2147483647
    case UInt(u) => 0 <= u <= 4294967295
    case Array(items) => forall i | 0 <= i < |items| :: Proper(items[i])
    case Object(ms) => Ordered(ms) && forall i | 0 <= i < |ms| :: '\0' !in ms[i].0 && Proper(ms[i].1)
    case _ => true
  }

  lemma {:induction false} ProperWritable(v: Value)
    requires Proper(v)
    ensures Writable(v) <==> !HasDouble(v)
    decreases v
  {
    match v
    case Array(items) =>
      forall i | 0 <= i < |items|
        ensures Writable(items[i]) <==> !HasDouble(items[i])
      {
        ProperWritable(items[i]);
      }
    case Object(ms) =>
      forall i | 0 <= i < |ms|
        ensures Writable(ms[i].1) <==> !HasDouble(ms[i].1)
      {
        ProperWritable(ms[i].1);
      }
    case _ =>
  }

  lemma {:induction false} AccumulatedBelow(s: string, value: nat, threshold: nat)
    requires value < 10 * threshold
    ensures Accumulate(s, value, threshold).Fits? ==> Accumulate(s, value, threshold).value < 10 * threshold
    decreases |s|
  {
    if s != "" && IsDigit(s[0]) && value < threshold {
      AccumulatedBelow(s[1..], value * 10 + (s[0] as int - '0' as int), threshold);
    }
  }

  lemma NumberProper(s: string)
    ensures NumberOf(s).Exact? ==> Proper(NumberOf(s).v)
  {
    hide LooksDouble, Accumulate;
    var negative := s != "" && s[0] == '-';
    AccumulatedBelow(if negative then s[1..] else s, 0, Threshold(negative));
  }

  lemma ReadNumberProper(s: string, scan: Scan)
    ensures ReadBackNumber(s, scan).Some? ==> Proper(ReadBackNumber(s, scan).value)
  {
    hide NumberOf;
    NumberProper(s);
  }

  /** Members assigned one after the other. */
  predicate ProperMembers(ms: seq<(string, Value)>) {
    Ordered(ms) && forall m | m in ms :: '\0' !in m.0 && Proper(m.1)
  }

  lemma PutProper(ms: seq<(string, Value)>, name: string, v: Value)
    requires ProperMembers(ms) && '\0' !in name && Proper(v)
    ensures ProperMembers(Put(ms, name, v))
  {
    hide Put, Ordered, Proper;
    PutOrdered(ms, name, v);
    PutFrom(ms, name, v);
  }

  lemma {:induction false} PutFrom(ms: seq<(string, Value)>, name: string, v: Value)
    ensures forall m | m in Put(ms, name, v) :: m == (name, v) || m in ms
  {
    if ms != [] {
      PutFrom(ms[1..], name, v);
      assert forall m | m in ms[1..] :: m in ms;
    }
  }

  lemma MembersProper(ms: seq<(string, Value)>)
    requires ProperMembers(ms)
    ensures Proper(Object(ms))
  {
    hide Ordered;
    assert forall i | 0 <= i < |ms| :: ms[i] in ms;
  }

  predicate ProperItems(items: seq<Value>) { forall v | v in items :: Proper(v) }

  lemma ItemsProper(items: seq<Value>)
    requires ProperItems(items)
    ensures Proper(Array(items))
  {
    assert forall i | 0 <= i < |items| :: items[i] in items;
  }

  /** Whatever is read is as the value class keeps it. */
  lemma {:induction false} ValueProper(doc: string, from: nat, comments: bool, scan: Scan)
    requires from <= |doc| && ValueAt(doc, from, comments, scan).Some?
    ensures Proper(ValueAt(doc, from, comments, scan).value.0)
    decreases |doc| - from, 0
  {
    hide ReadBackNumber, MembersFrom, ItemsFrom, TokenAt, NextToken, LiteralText;
    var t := FirstToken(doc, from, comments);
    if t.kind == NumberToken {
      ReadNumberProper(doc[t.start..t.end], scan);
    } else if t.kind == ObjectBegin {
      NoMembersProper();
      MembersFromProper(doc, t.end, [], "", comments, scan);
    } else if t.kind == ArrayBegin && TokenAt(doc, t.end).kind != ArrayEnd {
      ItemsFromProper(doc, t.end, [], comments, scan);
    }
  }

  lemma NoMembersProper()
    ensures ProperMembers([])
  {
  }

  lemma {:induction false} ItemsFromProper(doc: string, from: nat, items: seq<Value>, comments: bool, scan: Scan)
    requires from <= |doc| && ProperItems(items) && ItemsFrom(doc, from, items, comments, scan).Some?
    ensures Proper(ItemsFrom(doc, from, items, comments, scan).value.0)
    decreases |doc| - from, 1
  {
    hide ValueAt, NextToken, Proper;
    ValueProper(doc, from, comments, scan);
    var (v, end) := ValueAt(doc, from, comments, scan).value;
    var separator := NextToken(doc, end);
    if separator.kind == ArrayEnd {
      ItemsProper(items + [v]);
    } else {
      ItemsFromProper(doc, separator.end, items + [v], comments, scan);
    }
  }

  lemma {:induction false} MembersFromProper(doc: string, from: nat, members: seq<(string, Value)>, last: string,
      comments: bool, scan: Scan)
    requires from <= |doc| && ProperMembers(members) && MembersFrom(doc, from, members, last, comments, scan).Some?
    ensures Proper(MembersFrom(doc, from, members, last, comments, scan).value.0)
    decreases |doc| - from, 1
  {
    hide MemberFrom, NextToken, Proper, ProperMembers, Put, CString;
    var name := NextToken(doc, from);
    if name.kind == ObjectEnd && last == "" {
      MembersProper(members);
    } else {
      var (s, v, t) := MemberFrom(doc, name, comments, scan).value;
      MemberProper(doc, name, comments, scan);
      CStringWhole(s);
      PutProper(members, CString(s), v);
      if t.kind == ObjectEnd {
        MembersProper(Put(members, CString(s), v));
      } else {
        MembersFromProper(doc, t.end, Put(members, CString(s), v), s, comments, scan);
      }
    }
  }

  lemma {:induction false} MemberProper(doc: string, name: Token, comments: bool, scan: Scan)
    requires name.start < name.end <= |doc| && MemberFrom(doc, name, comments, scan).Some?
    ensures Proper(MemberFrom(doc, name, comments, scan).value.1)
    decreases |doc| - name.start, 0
  {
    hide ValueAt, Proper, TokenAt, Uncommented, LiteralText;
    ValueProper(doc, TokenAt(doc, name.end).end, comments, scan);
  }

  /** What is read can be written, exactly if there are no doubles in it. */
  lemma ReadWritable(doc: string, from: nat, comments: bool, scan: Scan)
    requires from <= |doc| && ValueAt(doc, from, comments, scan).Some?
    ensures var v := ValueAt(doc, from, comments, scan).value.0; Writable(v) <==> !HasDouble(v)
  {
    hide ValueAt, Proper, Writable, HasDouble;
    ValueProper(doc, from, comments, scan);
    ProperWritable(ValueAt(doc, from, comments, scan).value.0);
  }
}
