/**
 What the reader takes for a separator: between the elements of an array any token but the
 closing bracket, between the members of an object a comma or whatever follows a comment.
 */
module Separators {
  import opened Basics
  import opened JsonValue
  import opened FastWriter
  import opened ReaderSpec
  import opened Written
  import opened Grammar
  import opened Reader

  /**
   Items of an array may be joined by any tokens but the closing bracket: the reader gives
   back just the items, whatever the tokens between them say.
   */
  method ReadJoined(doc: string, features: Features, scan: Scan, ghost j: Joined, ghost fmt: real -> string)
    returns (ok: bool, root: Value)
    requires HoldsList(doc, SpaceEnd(doc, 0), j, fmt)
    ensures match ReadBack(Array(j.items), scan)
            case None => !ok
            case Some(w) => ok && root == w
    ensures (forall k | 0 <= k < |j.items| :: Survives(j.items[k])) ==> ok && root == Array(j.items)
  {
    hide HoldsJoined, ReadBack, Holds;
    var reader := new Reader(doc, features, scan);
    ListValue(doc, j, fmt, features.allowComments, scan);
    ok, root := reader.Parse();
    if forall k | 0 <= k < |j.items| :: Survives(j.items[k]) {
      SurvivingItems(doc, SpaceEnd(doc, 0) + 1, j, fmt);
      ReadBackExact(Array(j.items), scan);
    }
  }

  lemma ListValue(doc: string, j: Joined, fmt: real -> string, comments: bool, scan: Scan)
    requires HoldsList(doc, SpaceEnd(doc, 0), j, fmt)
    ensures ValueAt(doc, 0, comments, scan) == Ending(ReadBack(Array(j.items), scan), j.stop)
    ensures ReadBack(Array(j.items), scan).Some? ==> ReadBack(Array(j.items), scan).value.Array?
  {
    hide SpaceEnd, NextToken, HoldsJoined, ArrayFrom;
    var i := SpaceEnd(doc, 0);
    FirstSame(doc, 0, comments);
    OpenToken(doc, i);
    JoinedValue(doc, i + 1, j, fmt, comments, scan);
  }

  lemma OpenToken(doc: string, i: nat)
    requires i < |doc| && (doc[i] == '[' || doc[i] == '{')
    ensures TokenAt(doc, i) == Token(if doc[i] == '[' then ArrayBegin else ObjectBegin, i, i + 1)
  {
    SpaceEndHere(doc, i);
  }

  lemma ObjectValue(doc: string, e: Entries, fmt: real -> string, comments: bool, scan: Scan)
    requires HoldsObject(doc, SpaceEnd(doc, 0), e, fmt)
    ensures ValueAt(doc, 0, comments, scan) == Ending(ObjectBack(e.members, scan), e.stop)
    ensures ObjectBack(e.members, scan).Some? ==> ObjectBack(e.members, scan).value.Object?
  {
    hide SpaceEnd, NextToken, HoldsEntries, MembersFrom, Gathered;
    var i := SpaceEnd(doc, 0);
    FirstSame(doc, 0, comments);
    OpenToken(doc, i);
    EnteredValue(doc, i + 1, e, fmt, comments, scan);
  }

  lemma SurvivingItems(doc: string, i: nat, j: Joined, fmt: real -> string)
    requires HoldsJoined(doc, i, j, fmt) && forall k | 0 <= k < |j.items| :: Survives(j.items[k])
    ensures Writable(Array(j.items)) && Survives(Array(j.items))
  {
    hide Render, SpaceEnd, NextToken;
    forall k | 0 <= k < |j.items|
      ensures Writable(j.items[k])
    {
      assert JoinedAt(doc, j, k, fmt);
    }
  }

  /** In `[1 2 3]` the second number is taken for a separator. */
  method MissingCommaAccepted(features: Features, scan: Scan) returns (ok: bool, root: Value)
    ensures ok && root == Array([Int(1), Int(3)])
  {
    ghost var fmt: real -> string := _ => "";
    NumberJoined(fmt);
    ok, root := ReadJoined("[1 2 3]", features, scan, Joined([Int(1), Int(3)], [1, 4], 7), fmt);
  }

  lemma NumberJoined(fmt: real -> string)
    ensures HoldsList("[1 2 3]", SpaceEnd("[1 2 3]", 0), Joined([Int(1), Int(3)], [1, 4], 7), fmt)
  {
    hide SpaceEnd, TokenAt, NumberEnd, Render, JoinedAt;
    var doc := "[1 2 3]";
    var j := Joined([Int(1), Int(3)], [1, 4], 7);
    SpacedNumbers(doc);
    SpacedItem(doc, 1, 1, fmt);
    SpacedItem(doc, 5, 3, fmt);
    SpacedTokens(doc);
    assert doc[1..2] == "1" && doc[5..6] == "3";
    NumberItem(doc, j, 0, 1, fmt);
    NumberItem(doc, j, 1, 5, fmt);
  }

  lemma NumberItem(doc: string, j: Joined, k: nat, at: nat, fmt: real -> string)
    requires |j.items| == |j.at| == 2 && k < 2 && j.at[k] <= |doc| && SpaceEnd(doc, j.at[k]) == at < |doc|
    requires |Render(j.items[k], fmt)| == 1 && Holds(doc, at, j.items[k], fmt)
    requires TokenAt(doc, at + 1).kind == if k == 0 then NumberToken else ArrayEnd
    requires TokenAt(doc, at + 1).end == if k == 0 then j.at[1] else j.stop
    ensures JoinedAt(doc, j, k, fmt)
  {
    hide SpaceEnd, TokenAt, Render, Holds;
  }

  lemma SpacedNumbers(doc: string)
    requires |doc| == 7 && doc[0] == '[' && doc[1] == '1' && doc[2] == ' ' && doc[3] == '2' && doc[4] == ' '
             && doc[5] == '3' && doc[6] == ']'
    ensures SpaceEnd(doc, 0) == 0 && SpaceEnd(doc, 1) == 1 && SpaceEnd(doc, 2) == 3 && SpaceEnd(doc, 4) == 5
            && SpaceEnd(doc, 6) == 6
    ensures NumberEnd(doc, 4) == 4
  {
    assert SpaceEnd(doc, 3) == 3 && SpaceEnd(doc, 5) == 5;
  }

  lemma SpacedItem(doc: string, i: nat, n: nat, fmt: real -> string)
    requires i + 1 < |doc| && 0 <= n < 10 && doc[i] == Digit(n) && !InNumber(doc[i+1])
    ensures |Render(Int(n), fmt)| == 1 && Holds(doc, i, Int(n), fmt)
  {
    assert Digits(n) == [Digit(n)];
    assert doc[i..i+1] == [Digit(n)];
  }

  lemma SpacedTokens(doc: string)
    requires |doc| == 7 && doc[3] == '2' && doc[6] == ']'
    requires SpaceEnd(doc, 2) == 3 && SpaceEnd(doc, 6) == 6 && NumberEnd(doc, 4) == 4
    ensures TokenAt(doc, 2) == Token(NumberToken, 3, 4) && TokenAt(doc, 6) == Token(ArrayEnd, 6, 7)
  {
    hide SpaceEnd, NumberEnd, StringEnd;
  }

  /** What is assigned by the first `k` members, one after the other. */
  function Assigned(ms: seq<(string, Value)>, k: nat): seq<(string, Value)>
    requires k <= |ms|
    decreases k
  {
    if k == 0 then [] else Put(Assigned(ms, k - 1), CString(ms[k-1].0), ms[k-1].1)
  }

  /**
   Members of an object may be joined by a comma, or by comments and any one token but the
   closing brace: the reader assigns just the members, in turn. Behind a member with an
   empty name it accepts a separator before the closing brace.
   */
  method ReadEntries(doc: string, features: Features, scan: Scan, ghost e: Entries, ghost fmt: real -> string)
    returns (ok: bool, root: Value)
    requires HoldsObject(doc, SpaceEnd(doc, 0), e, fmt)
    ensures match ObjectBack(e.members, scan)
            case None => !ok
            case Some(w) => ok && root == w
    ensures (forall k | 0 <= k < |e.members| :: Survives(e.members[k].1)) ==>
              ok && root == Object(Assigned(e.members, |e.members|))
  {
    hide HoldsEntries, Gathered, Holds, Survives, Assigned;
    var reader := new Reader(doc, features, scan);
    ObjectValue(doc, e, fmt, features.allowComments, scan);
    ok, root := reader.Parse();
    if forall k | 0 <= k < |e.members| :: Survives(e.members[k].1) {
      EntriesAssigned(doc, SpaceEnd(doc, 0) + 1, e, scan, fmt, |e.members|);
    }
  }

  lemma {:induction false} EntriesAssigned(doc: string, i: nat, e: Entries, scan: Scan, fmt: real -> string, k: nat)
    requires HoldsEntries(doc, i, e, fmt) && k <= |e.members|
    requires forall k | 0 <= k < |e.members| :: Survives(e.members[k].1)
    ensures Gathered(e.members, scan, k) == Some(Assigned(e.members, k))
    decreases k
  {
    hide Put, CString, ReadBack, Survives, SpaceEnd, NextToken, Render, EntryEnds, NameIs, TokenAt;
    if k > 0 {
      EntriesAssigned(doc, i, e, scan, fmt, k - 1);
      assert EntryAt(doc, e, k - 1, fmt);
      ReadBackExact(e.members[k-1].1, scan);
    }
  }

  /** In `{"a":1/**/2"b":3}` the number behind the comment is taken for a separator. */
  method CommentSeparates(features: Features, scan: Scan) returns (ok: bool, root: Value)
    ensures ok && root == Object([("a", Int(1)), ("b", Int(3))])
  {
    ghost var fmt: real -> string := _ => "";
    ghost var e := Entries([("a", Int(1)), ("b", Int(3))], [1, 11], 17);
    CommentEntries(e, fmt);
    ok, root := ReadEntries("{\"a\":1/**/2\"b\":3}", features, scan, e, fmt);
    TwoAssigned(e.members);
  }

  lemma CommentEntries(e: Entries, fmt: real -> string)
    requires e == Entries([("a", Int(1)), ("b", Int(3))], [1, 11], 17)
    ensures var doc := "{\"a\":1/**/2\"b\":3}"; HoldsObject(doc, SpaceEnd(doc, 0), e, fmt)
  {
    hide SpaceEnd, HoldsEntries, Holds, Render;
    var doc := "{\"a\":1/**/2\"b\":3}";
    assert doc[1..4] == "\"a\"" && doc[11..14] == "\"b\"";
    SpaceEndHere(doc, 0);
    CommentMembers(doc, e, fmt);
  }

  lemma CommentMembers(doc: string, e: Entries, fmt: real -> string)
    requires e == Entries([("a", Int(1)), ("b", Int(3))], [1, 11], 17)
    requires |doc| == 17 && doc[1..4] == "\"a\"" && doc[4] == ':' && doc[5] == '1' && doc[6] == '/' && doc[7] == '*'
             && doc[8] == '*' && doc[9] == '/' && doc[10] == '2' && doc[11..14] == "\"b\"" && doc[14] == ':'
             && doc[15] == '3' && doc[16] == '}'
    ensures HoldsEntries(doc, 1, e, fmt)
  {
    hide SpaceEnd, TokenAt, EntryAt, Holds, Render, NameIs;
    assert doc[11] == doc[11..14][0] == '"';
    NamedNumber(doc, 1, "a", 1, fmt);
    NamedNumber(doc, 11, "b", 3, fmt);
    CommentThenNumber(doc);
    CharToken(doc, 16, TokenAt(doc, 16));
    NumberEntry(doc, e, 0, fmt);
    NumberEntry(doc, e, 1, fmt);
  }

  /** A comment and a number between two members. */
  lemma CommentThenNumber(doc: string)
    requires |doc| == 17 && doc[6] == '/' && doc[7] == '*' && doc[8] == '*' && doc[9] == '/' && doc[10] == '2'
             && doc[11] == '"'
    ensures TokenAt(doc, 6) == Token(CommentToken, 6, 10)
    ensures Uncommented(doc, TokenAt(doc, 6)) == Token(NumberToken, 10, 11)
  {
    hide StringEnd, LineEnd, Word;
    SpaceEndHere(doc, 6);
    SpaceEndHere(doc, 10);
    assert StarEnd(doc, 8) == 9 && CommentAt(doc, 7) == (true, 10);
    assert NumberEnd(doc, 11) == 11;
  }

  /** In `{"":1,}` a comma before the closing brace is accepted. */
  method TrailingCommaAccepted(features: Features, scan: Scan) returns (ok: bool, root: Value)
    ensures ok && root == Object([("", Int(1))])
  {
    ghost var fmt: real -> string := _ => "";
    ghost var e := Entries([("", Int(1))], [1], 7);
    TrailingEntry(e, fmt);
    ok, root := ReadEntries("{\"\":1,}", features, scan, e, fmt);
    OneAssigned(e.members);
  }

  lemma TrailingEntry(e: Entries, fmt: real -> string)
    requires e == Entries([("", Int(1))], [1], 7)
    ensures var doc := "{\"\":1,}"; HoldsObject(doc, SpaceEnd(doc, 0), e, fmt)
  {
    hide SpaceEnd, TokenAt, EntryAt, Holds, Render;
    var doc := "{\"\":1,}";
    SpaceEndHere(doc, 0);
    NamedNumber(doc, 1, "", 1, fmt);
    CharToken(doc, 5, TokenAt(doc, 5));
    CharToken(doc, 6, TokenAt(doc, 6));
    NumberEntry(doc, e, 0, fmt);
  }

  /** A short plain name, a colon and a digit at `i`. */
  lemma NamedNumber(doc: string, i: nat, name: string, n: nat, fmt: real -> string)
    requires name in {"", "a", "b"} && i + |name| + 4 < |doc| && n < 10
    requires doc[i..i+|name|+2] == "\"" + name + "\"" && doc[i+|name|+2] == ':' && doc[i+|name|+3] == Digit(n)
    requires !InNumber(doc[i+|name|+4])
    ensures TokenAt(doc, i) == Token(StringToken, i, i + |name| + 2) && NameIs(doc, TokenAt(doc, i), name)
    ensures TokenAt(doc, i + |name| + 2) == Token(MemberSeparator, i + |name| + 2, i + |name| + 3)
    ensures SpaceEnd(doc, i + |name| + 3) == i + |name| + 3
    ensures |Render(Int(n), fmt)| == 1 && Holds(doc, i + |name| + 3, Int(n), fmt)
  {
    PlainName(name);
    hide Quoted, Escape, Unescape, CString, TokenAt, SpaceEnd, Render, Holds, PrefixAt;
    NameHere(doc, i, name);
    LiteralToken(doc, i, name, TokenAt(doc, i));
    CharToken(doc, i + |name| + 2, TokenAt(doc, i + |name| + 2));
    SpacedItem(doc, i + |name| + 3, n, fmt);
    DigitPlain(n);
    SpaceEndHere(doc, i + |name| + 3);
  }

  lemma DigitPlain(n: nat)
    requires n < 10
    ensures !IsSpace(Digit(n))
  {
  }

  lemma PlainName(name: string)
    requires name in {"", "a", "b"}
    ensures CString(name) == name && Quoted(name) == "\"" + name + "\""
  {
    assert "a"[1..] == "" && "b"[1..] == "";
    assert Escape("") == "" && Escape("a") == "a" && Escape("b") == "b";
    QuotedIs(name);
  }

  lemma NameHere(doc: string, i: nat, name: string)
    requires i + |name| + 2 <= |doc| && doc[i..i+|name|+2] == "\"" + name + "\"" && Quoted(name) == "\"" + name + "\""
    ensures PrefixAt(doc, i, Quoted(name))
  {
  }

  /** A member whose value is a single digit. */
  lemma NumberEntry(doc: string, e: Entries, k: nat, fmt: real -> string)
    requires k < |e.members| == |e.at| && e.at[k] + |e.members[k].0| + 4 <= |doc|
    requires var i := e.at[k];
             var c := i + |e.members[k].0| + 2;
             && TokenAt(doc, i) == Token(StringToken, i, c) && NameIs(doc, TokenAt(doc, i), e.members[k].0)
             && TokenAt(doc, c) == Token(MemberSeparator, c, c + 1) && SpaceEnd(doc, c + 1) == c + 1
             && |Render(e.members[k].1, fmt)| == 1 && Holds(doc, c + 1, e.members[k].1, fmt)
             && EntryEnds(doc, e, k, TokenAt(doc, c + 2))
    ensures EntryAt(doc, e, k, fmt)
  {
    hide SpaceEnd, TokenAt, Render, Holds, EntryEnds, NameIs;
  }

  lemma OneAssigned(ms: seq<(string, Value)>)
    requires |ms| == 1 && '\0' !in ms[0].0
    ensures Assigned(ms, 1) == ms
  {
    CStringWhole(ms[0].0);
    assert Assigned(ms, 0) == [];
  }

  lemma TwoAssigned(ms: seq<(string, Value)>)
    requires |ms| == 2 && '\0' !in ms[0].0 && '\0' !in ms[1].0 && Less(ms[0].0, ms[1].0)
    ensures Assigned(ms, 2) == ms
  {
    CStringWhole(ms[0].0);
    CStringWhole(ms[1].0);
    assert Assigned(ms, 0) == [] && Assigned(ms, 1) == [ms[0]];
    PutLast([ms[0]], ms[1].0, ms[1].1);
    assert Assigned(ms, 2) == [ms[0]] + [ms[1]] == ms;
  }
}
