/**
 The texts the JSON writer produces, as the reader meets them: the values it is used on,
 what each reads back as, and the tokens its text begins with.
 */
module Written {
  import opened Basics
  import opened JsonValue
  import opened FastWriter
  import opened ReaderSpec

  /**
   The values the writer is used on: 32-bit integers, no doubles, and object members in
   name order under names that are C strings, as the value class keeps them.
   */
  predicate Writable(v: Value)
    decreases v
  {
    match v
    case Int(_) => Representable(v)
    case UInt(_) => Representable(v)
    case Real(_) => false
    case Array(items) => forall i | 0 <= i < |items| :: Writable(items[i])
    case Object(members) =>
      && Ordered(members)
      && forall i | 0 <= i < |members| :: '\0' !in members[i].0 && Writable(members[i].1)
    case _ => true
  }

  lemma {:induction false} WritableRepresentable(v: Value)
    requires Writable(v)
    ensures Representable(v)
    decreases v
  {
    match v
    case Array(items) =>
      forall i | 0 <= i < |items|
        ensures Representable(items[i])
      {
        WritableRepresentable(items[i]);
      }
    case Object(ms) =>
      forall i | 0 <= i < |ms|
        ensures Representable(ms[i].1)
      {
        WritableRepresentable(ms[i].1);
      }
    case _ =>
  }

  type Scan = string -> Option<real>

  /** What the reader makes of the text of a value; None is a failure. */
  function ReadBack(v: Value, scan: Scan): Option<Value>
    decreases v
  {
    match v
    case Null => Some(Null)
    case Boolean(b) => Some(v)
    case Int(i) => ReadBackNumber(IntText(i), scan)
    case UInt(u) => if u < 0 then None else ReadBackNumber(Digits(u), scan)
    case Real(_) => None
    case String(s) => Some(String(CString(s)))
    case Array(items) =>
      if exists i | 0 <= i < |items| :: ReadBack(items[i], scan).None? then None
      else Some(Array(seq(|items|, i requires 0 <= i < |items|
        && ReadBack(items[i], scan).Some? => ReadBack(items[i], scan).value)))
    case Object(ms) =>
      if exists i | 0 <= i < |ms| :: ReadBack(ms[i].1, scan).None? then None
      else Some(Object(seq(|ms|, i requires 0 <= i < |ms|
        && ReadBack(ms[i].1, scan).Some? => (ms[i].0, ReadBack(ms[i].1, scan).value))))
  }

  function ReadBackNumber(s: string, scan: Scan): Option<Value> {
    match NumberOf(s)
    case Exact(v) => Some(v)
    case NotANumber => None
    case Double => (match scan(s) case None => None case Some(r) => Some(Real(r)))
  }

  lemma LeafBack(v: Value, scan: Scan)
    requires Writable(v)
    ensures match v
            case Null => ReadBack(v, scan) == Some(v)
            case Boolean(_) => ReadBack(v, scan) == Some(v)
            case String(s) => ReadBack(v, scan) == Some(String(CString(s)))
            case Int(_) => ReadBack(v, scan) == ReadBackNumber(NumberText(v), scan)
            case UInt(_) => v.u >= 0 && ReadBack(v, scan) == ReadBackNumber(NumberText(v), scan)
            case _ => true
  {
  }

  /** The values that survive writing and reading. */
  predicate Survives(v: Value)
    decreases v
  {
    match v
    case Int(_) => IntSurvives(v)
    case UInt(_) => IntSurvives(v)
    case Real(_) => false
    case String(s) => '\0' !in s
    case Array(items) => forall i | 0 <= i < |items| :: Survives(items[i])
    case Object(members) => forall i | 0 <= i < |members| :: Survives(members[i].1)
    case _ => true
  }

  /** A value is read back as itself exactly when it survives. */
  lemma {:induction false} ReadBackExact(v: Value, scan: Scan)
    requires Writable(v)
    ensures ReadBack(v, scan) == Some(v) <==> Survives(v)
    decreases v
  {
    match v
    case Int(_) => IntegerExact(v);
    case UInt(_) => IntegerExact(v);
    case String(s) => CStringWhole(s);
    case Array(items) =>
      forall i | 0 <= i < |items|
        ensures ReadBack(items[i], scan) == Some(items[i]) <==> Survives(items[i])
      {
        ReadBackExact(items[i], scan);
      }
      if Survives(v) {
        assert ReadBack(v, scan).value.items == items;
      }
    case Object(ms) =>
      forall i | 0 <= i < |ms|
        ensures ReadBack(ms[i].1, scan) == Some(ms[i].1) <==> Survives(ms[i].1)
      {
        ReadBackExact(ms[i].1, scan);
      }
      if Survives(v) {
        assert ReadBack(v, scan).value.members == ms;
      }
    case _ =>
  }

  /** The first items of a result are what the items of `xs` read back as. */
  predicate BackItems(xs: seq<Value>, items: seq<Value>, scan: Scan) {
    |items| <= |xs| && forall j | 0 <= j < |items| :: ReadBack(xs[j], scan) == Some(items[j])
  }

  lemma BackArray(xs: seq<Value>, items: seq<Value>, scan: Scan)
    requires BackItems(xs, items, scan)
    ensures |items| == |xs| ==> ReadBack(Array(xs), scan) == Some(Array(items))
    ensures |items| < |xs| && ReadBack(xs[|items|], scan).None? ==> ReadBack(Array(xs), scan) == None
  {
    if |items| == |xs| {
      assert ReadBack(Array(xs), scan).value.items == items;
    }
  }

  lemma BackMore(xs: seq<Value>, items: seq<Value>, scan: Scan, v: Value)
    requires BackItems(xs, items, scan) && |items| < |xs| && ReadBack(xs[|items|], scan) == Some(v)
    ensures BackItems(xs, items + [v], scan)
  {
  }

  predicate BackMembers(ms: seq<(string, Value)>, members: seq<(string, Value)>, scan: Scan) {
    && |members| <= |ms|
    && forall j | 0 <= j < |members| :: members[j].0 == ms[j].0 && ReadBack(ms[j].1, scan) == Some(members[j].1)
  }

  lemma BackObject(ms: seq<(string, Value)>, members: seq<(string, Value)>, scan: Scan)
    requires BackMembers(ms, members, scan)
    ensures |members| == |ms| ==> ReadBack(Object(ms), scan) == Some(Object(members))
    ensures |members| < |ms| && ReadBack(ms[|members|].1, scan).None? ==> ReadBack(Object(ms), scan) == None
  {
    if |members| == |ms| {
      var back := ReadBack(Object(ms), scan).value.members;
      forall j | 0 <= j < |ms|
        ensures back[j] == members[j]
      {
        assert back[j] == (ms[j].0, ReadBack(ms[j].1, scan).value);
        assert members[j] == (members[j].0, members[j].1);
      }
      assert back == members;
    }
  }

  lemma NoMembersBack(ms: seq<(string, Value)>, scan: Scan)
    ensures BackMembers(ms, [], scan)
  {
  }

  /** Members arrive in name order, so each goes to the end. */
  lemma NextName(ms: seq<(string, Value)>, members: seq<(string, Value)>, scan: Scan, v: Value)
    requires BackMembers(ms, members, scan) && |members| < |ms| && Ordered(ms)
    ensures Put(members, ms[|members|].0, v) == members + [(ms[|members|].0, v)]
    ensures ReadBack(ms[|members|].1, scan) == Some(v) ==> BackMembers(ms, members + [(ms[|members|].0, v)], scan)
  {
    hide Put, Less, Ordered, BackMembers, ReadBack;
    NamesBelow(ms, members, scan);
    PutLast(members, ms[|members|].0, v);
    if ReadBack(ms[|members|].1, scan) == Some(v) {
      MemberBack(ms, members, scan, v);
    }
  }

  lemma NamesBelow(ms: seq<(string, Value)>, members: seq<(string, Value)>, scan: Scan)
    requires BackMembers(ms, members, scan) && |members| < |ms| && Ordered(ms)
    ensures forall m | m in members :: Less(m.0, ms[|members|].0)
  {
    hide Less, ReadBack;
    forall m | m in members
      ensures Less(m.0, ms[|members|].0)
    {
      var j :| 0 <= j < |members| && members[j] == m;
      assert members[j].0 == ms[j].0;
    }
  }

  lemma MemberBack(ms: seq<(string, Value)>, members: seq<(string, Value)>, scan: Scan, v: Value)
    requires BackMembers(ms, members, scan) && |members| < |ms| && ReadBack(ms[|members|].1, scan) == Some(v)
    ensures BackMembers(ms, members + [(ms[|members|].0, v)], scan)
  {
    hide ReadBack;
  }

  /** The character at `i`, if any, cannot continue a number. */
  predicate Delimited(doc: string, i: nat) {
    i <= |doc| && (i == |doc| || !InNumber(doc[i]))
  }

  /** The text at `i` is that of `v`; a number is delimited. */
  predicate Holds(doc: string, i: nat, v: Value, fmt: real -> string) {
    Writable(v) && PrefixAt(doc, i, Render(v, fmt)) && (v.Int? || v.UInt? ==> Delimited(doc, i + |Render(v, fmt)|))
  }

  /** Spaces are skipped once and for all, and do not matter for the token behind them. */
  lemma {:induction false} SpaceEndTwice(doc: string, i: nat)
    requires i <= |doc|
    ensures SpaceEnd(doc, SpaceEnd(doc, i)) == SpaceEnd(doc, i)
    ensures TokenAt(doc, SpaceEnd(doc, i)) == TokenAt(doc, i)
    decreases |doc| - i
  {
    hide StringEnd, NumberEnd, CommentAt, Word;
    if i < |doc| && IsSpace(doc[i]) {
      SpaceEndTwice(doc, i + 1);
    }
  }

  lemma SpaceEndHere(doc: string, i: nat)
    requires i < |doc| && !IsSpace(doc[i])
    ensures SpaceEnd(doc, i) == i
  {
  }

  /** The token of a written literal, and the text between its quotes. */
  lemma LiteralToken(doc: string, i: nat, s: string, t: Token)
    requires PrefixAt(doc, i, Quoted(s)) && Lexed(doc, i, t)
    ensures t == Token(StringToken, i, i + |Quoted(s)|) && i + 1 < t.end
    ensures Unescape(doc[t.start+1..t.end-1]) == Some(CString(s))
  {
    hide Escape, Unescape, StringEnd, SpaceEnd, Quoted, PrefixAt;
    var e := Escape(CString(s));
    CStringWhole(s);
    QuotedIs(s);
    PrefixSplit(doc, i, "\"", e + "\"");
    PrefixSplit(doc, i + 1, e, "\"");
    PrefixIs(doc, i, "\"");
    PrefixIs(doc, i + 1, e + "\"");
    FirstCharacter(doc, i, "\"");
    SpaceEndHere(doc, i);
    StringEndEscape(doc, i + 1, CString(s));
    UnescapeEscape(CString(s));
    PrefixIs(doc, i + 1, e);
    StringLexed(doc, i, t);
  }

  lemma QuotedIs(s: string)
    ensures Quoted(s) == "\"" + (Escape(CString(s)) + "\"") && |Quoted(s)| == |Escape(CString(s))| + 2
  {
    hide Escape;
  }

  lemma FirstCharacter(doc: string, i: nat, s: string)
    requires PrefixAt(doc, i, s) && s != ""
    ensures i < |doc| && doc[i] == s[0]
  {
    assert doc[i..i+|s|][0] == doc[i];
  }

  lemma StringLexed(doc: string, i: nat, t: Token)
    requires i < |doc| && doc[i] == '"' && SpaceEnd(doc, i) == i && Lexed(doc, i, t) && StringEnd(doc, i + 1).Some?
    ensures t == Token(StringToken, i, StringEnd(doc, i + 1).value)
  {
    hide StringEnd, SpaceEnd;
  }

  lemma PrefixIs(doc: string, i: nat, s: string)
    requires PrefixAt(doc, i, s)
    ensures i + |s| <= |doc| && doc[i..i+|s|] == s
  {
  }

  /** The token of a written integer, and its text. */
  lemma IntegerToken(doc: string, i: nat, v: Value, fmt: real -> string, t: Token)
    requires (v.Int? || v.UInt?) && Holds(doc, i, v, fmt) && Lexed(doc, i, t)
    ensures t == Token(NumberToken, i, i + |Render(v, fmt)|) && i < t.end
    ensures doc[t.start..t.end] == NumberText(v)
  {
    hide Digits, IntText, NumberEnd;
    var s := NumberText(v);
    assert Render(v, fmt) == s;
    NumberChars(v);
    assert doc[i..i+|s|][0] == doc[i] == s[0];
    SpaceEndHere(doc, i);
    NumberTokenEnd(doc, i, s);
  }

  lemma NumberTokenEnd(doc: string, i: nat, s: string)
    requires s != "" && PrefixAt(doc, i, s) && (forall c | c in s :: InNumber(c)) && Delimited(doc, i + |s|)
    ensures NumberEnd(doc, i + 1) == i + |s|
  {
    hide NumberEnd;
    SliceOf(doc, i, s, 1, |s|);
    assert s[1..] == s[1..|s|];
    assert forall c | c in s[1..] :: c in s;
    NumberEndAt(doc, i + 1, s[1..]);
  }

  lemma NumberChars(v: Value)
    requires (v.Int? || v.UInt?) && Representable(v)
    ensures var s := NumberText(v); s != "" && (IsDigit(s[0]) || s[0] == '-') && forall c | c in s :: InNumber(c)
  {
    var n := if v.UInt? then v.u else if v.i < 0 then -v.i else v.i;
    DigitsAreDigits(n);
    assert Digits(n)[0] in Digits(n);
  }

  lemma WordToken(doc: string, i: nat, word: string, t: Token)
    requires word == "null" || word == "true" || word == "false"
    requires PrefixAt(doc, i, word) && Lexed(doc, i, t)
    ensures t.start == i && t.end == i + |word|
    ensures t.kind == if word == "null" then NullToken else if word == "true" then TrueToken else FalseToken
  {
    assert doc[i..i+|word|][0] == doc[i] == word[0];
    SpaceEndHere(doc, i);
    SliceOf(doc, i, word, 1, |word|);
    assert word[1..|word|] == if word == "null" then "ull" else if word == "true" then "rue" else "alse";
  }

  /** The first character of a written value. */
  lemma FirstOfValue(doc: string, i: nat, v: Value, fmt: real -> string)
    requires Holds(doc, i, v, fmt)
    ensures i < |doc| && !IsSpace(doc[i]) && doc[i] != '/' && doc[i] != ']' && doc[i] != '}'
    ensures v.Array? <==> doc[i] == '['
    ensures v.Object? <==> doc[i] == '{'
  {
    var r := Render(v, fmt);
    assert r != "" && !IsSpace(r[0]) && r[0] != '/' && r[0] != ']' && r[0] != '}'
           && (v.Array? <==> r[0] == '[') && (v.Object? <==> r[0] == '{') by {
      if v.Int? || v.UInt? {
        NumberChars(v);
        assert r == NumberText(v);
      }
    }
    assert doc[i..i+|r|][0] == doc[i];
  }

  lemma CharToken(doc: string, i: nat, t: Token)
    requires i < |doc| && Lexed(doc, i, t)
    requires doc[i] == ',' || doc[i] == ']' || doc[i] == '}' || doc[i] == ':'
    ensures t.start == i && t.end == i + 1
    ensures t.kind == if doc[i] == ',' then ArraySeparator else if doc[i] == ']' then ArrayEnd
                      else if doc[i] == '}' then ObjectEnd else MemberSeparator
  {
    SpaceEndHere(doc, i);
  }

  /** The items from `k` on and the closing bracket stand at `i`. */
  predicate HoldsItems(doc: string, i: nat, items: seq<Value>, k: nat, fmt: real -> string) {
    k <= |items| && (forall j | 0 <= j < |items| :: Writable(items[j])) && PrefixAt(doc, i, Items(items, k, fmt) + "]")
  }

  lemma ItemAt(doc: string, i: nat, items: seq<Value>, k: nat, fmt: real -> string)
    requires HoldsItems(doc, i, items, k, fmt) && k < |items|
    ensures Holds(doc, i, items[k], fmt)
    ensures var j := i + |Render(items[k], fmt)|;
            && j < |doc|
            && if k + 1 == |items| then doc[j] == ']'
               else doc[j] == ',' && HoldsItems(doc, j + 1, items, k + 1, fmt)
    ensures |Items(items, k, fmt)| == |Render(items[k], fmt)| + if k + 1 == |items| then 0
            else 1 + |Items(items, k + 1, fmt)|
  {
    hide Render, Items, Writable, PrefixAt, Delimited;
    var r := Render(items[k], fmt);
    var j := i + |r|;
    ItemsText(items, k, fmt);
    if k + 1 == |items| {
      PrefixSplit(doc, i, r, "]");
      FirstCharacter(doc, j, "]");
      NumberEnds(doc, j);
    } else {
      var rest := Items(items, k + 1, fmt) + "]";
      PrefixSplit(doc, i, r, "," + rest);
      PrefixSplit(doc, j, ",", rest);
      FirstCharacter(doc, j, ",");
      NumberEnds(doc, j);
    }
  }

  /** The text of the items from `k` on begins with that of item `k`. */
  lemma ItemsText(items: seq<Value>, k: nat, fmt: real -> string)
    requires k < |items|
    ensures k + 1 == |items| ==> Items(items, k, fmt) + "]" == Render(items[k], fmt) + "]"
    ensures k + 1 < |items| ==>
              Items(items, k, fmt) + "]" == Render(items[k], fmt) + ("," + (Items(items, k + 1, fmt) + "]"))
  {
    hide Render;
  }

  lemma NumberEnds(doc: string, j: nat)
    requires j < |doc| && (doc[j] == ',' || doc[j] == ']' || doc[j] == '}')
    ensures Delimited(doc, j)
  {
  }

  /** The members from `k` on and the closing brace stand at `i`. */
  predicate HoldsMembers(doc: string, i: nat, ms: seq<(string, Value)>, k: nat, fmt: real -> string) {
    && k <= |ms| && Ordered(ms)
    && (forall j | 0 <= j < |ms| :: '\0' !in ms[j].0 && Writable(ms[j].1))
    && PrefixAt(doc, i, Members(ms, k, fmt) + "}")
  }

  lemma MemberAt(doc: string, i: nat, ms: seq<(string, Value)>, k: nat, fmt: real -> string)
    requires HoldsMembers(doc, i, ms, k, fmt) && k < |ms|
    ensures var c := i + |Quoted(ms[k].0)|;
            var j := c + 1 + |Render(ms[k].1, fmt)|;
            && PrefixAt(doc, i, Quoted(ms[k].0)) && c < |doc| && doc[c] == ':' && Holds(doc, c + 1, ms[k].1, fmt)
            && j < |doc|
            && if k + 1 == |ms| then doc[j] == '}'
               else doc[j] == ',' && HoldsMembers(doc, j + 1, ms, k + 1, fmt)
    ensures |Members(ms, k, fmt)| == |Quoted(ms[k].0)| + 1 + |Render(ms[k].1, fmt)|
                                     + if k + 1 == |ms| then 0 else 1 + |Members(ms, k + 1, fmt)|
  {
    hide Render, Members, Writable, Quoted, Ordered, PrefixAt, HoldsMembers, MemberTail, InNumber;
    var q, r := Quoted(ms[k].0), Render(ms[k].1, fmt);
    var tail := MemberTail(ms, k, fmt);
    MemberText(ms, k, fmt);
    TailText(doc, ms, k, fmt, i + |q| + 1 + |r|);
    MemberFacts(doc, i, ms, k, fmt, i + |q| + 1 + |r| + 1);
    FourParts(doc, i, q, r, tail);
    SeparatorsDelimit();
  }

  lemma SeparatorsDelimit()
    ensures !InNumber(',') && !InNumber('}') && !InNumber(']')
  {
  }

  lemma MemberFacts(doc: string, i: nat, ms: seq<(string, Value)>, k: nat, fmt: real -> string, j: nat)
    requires HoldsMembers(doc, i, ms, k, fmt) && k < |ms|
    ensures PrefixAt(doc, i, Members(ms, k, fmt) + "}") && Writable(ms[k].1) && '\0' !in ms[k].0 && Ordered(ms)
    ensures HoldsMembers(doc, j, ms, k + 1, fmt) <==> PrefixAt(doc, j, Members(ms, k + 1, fmt) + "}")
  {
    hide Render, Members, Writable, Ordered, PrefixAt;
  }

  lemma TailText(doc: string, ms: seq<(string, Value)>, k: nat, fmt: real -> string, j: nat)
    requires k < |ms|
    ensures var tail := MemberTail(ms, k, fmt);
            && tail != ""
            && if k + 1 == |ms| then |tail| == 1 && tail[0] == '}'
               else
                 && |tail| == 2 + |Members(ms, k + 1, fmt)| && tail[0] == ','
                 && (PrefixAt(doc, j, tail) ==> PrefixAt(doc, j + 1, Members(ms, k + 1, fmt) + "}"))
  {
    hide Members, PrefixAt;
    if k + 1 < |ms| {
      PrefixSplit(doc, j, ",", Members(ms, k + 1, fmt) + "}");
    }
  }

  lemma FourParts(doc: string, i: nat, q: string, r: string, tail: string)
    requires tail != "" && PrefixAt(doc, i, q + (":" + (r + tail)))
    ensures var c := i + |q|;
            var j := c + 1 + |r|;
            && PrefixAt(doc, i, q) && c < |doc| && doc[c] == ':' && PrefixAt(doc, c + 1, r)
            && PrefixAt(doc, j, tail) && j < |doc| && doc[j] == tail[0]
  {
    var c := i + |q|;
    var j := c + 1 + |r|;
    PrefixSplit(doc, i, q, ":" + (r + tail));
    PrefixSplit(doc, c, ":", r + tail);
    PrefixSplit(doc, c + 1, r, tail);
    assert doc[c..c+1][0] == doc[c];
    assert doc[j..j+|tail|][0] == doc[j];
  }

  function MemberTail(ms: seq<(string, Value)>, k: nat, fmt: real -> string): string
    requires k < |ms|
  {
    if k + 1 == |ms| then "}" else "," + (Members(ms, k + 1, fmt) + "}")
  }

  lemma MemberText(ms: seq<(string, Value)>, k: nat, fmt: real -> string)
    requires k < |ms|
    ensures Members(ms, k, fmt) + "}" == Quoted(ms[k].0) + (":" + (Render(ms[k].1, fmt) + MemberTail(ms, k, fmt)))
    ensures |Members(ms, k, fmt)| + 1 == |Quoted(ms[k].0)| + 1 + |Render(ms[k].1, fmt)| + |MemberTail(ms, k, fmt)|
  {
    hide *;
    MembersAre(ms, k, fmt);
    MemberIs(ms[k], fmt);
    RegroupText(Quoted(ms[k].0), Render(ms[k].1, fmt), MoreMembers(ms, k, fmt));
  }

  function MoreMembers(ms: seq<(string, Value)>, k: nat, fmt: real -> string): string
    requires k < |ms|
  {
    if k + 1 == |ms| then "" else "," + Members(ms, k + 1, fmt)
  }

  lemma MembersAre(ms: seq<(string, Value)>, k: nat, fmt: real -> string)
    requires k < |ms|
    ensures Members(ms, k, fmt) == Member(ms[k], fmt) + MoreMembers(ms, k, fmt)
    ensures MemberTail(ms, k, fmt) == MoreMembers(ms, k, fmt) + "}"
  {
    hide Member;
  }

  lemma RegroupText(q: string, r: string, more: string)
    ensures ((q + ":" + r) + more) + "}" == q + (":" + (r + (more + "}")))
  {
  }

  /** Before the items of a written array: the closing bracket, or no space and no bracket. */
  lemma ItemsBegin(doc: string, i: nat, items: seq<Value>, scan: Scan, fmt: real -> string)
    requires HoldsItems(doc, i, items, 0, fmt)
    ensures i < |doc| && SpaceEnd(doc, i) == i
    ensures doc[i] == ']' <==> items == []
    ensures items == [] ==> Items(items, 0, fmt) == ""
    ensures BackItems(items, [], scan)
  {
    if items == [] {
      assert Items(items, 0, fmt) + "]" == "]";
      assert doc[i..i+1][0] == doc[i];
    } else {
      ItemAt(doc, i, items, 0, fmt);
      FirstOfValue(doc, i, items[0], fmt);
    }
  }

  /** The name token of member `k`, and what stands behind it. */
  predicate MemberToken(doc: string, i: nat, ms: seq<(string, Value)>, k: nat, fmt: real -> string, t: Token)
    requires k < |ms|
  {
    var c := i + |Quoted(ms[k].0)|;
    var j := c + 1 + |Render(ms[k].1, fmt)|;
    && Ordered(ms)
    && t == Token(StringToken, i, c) && i + 1 < c <= |doc| && Unescape(doc[i+1..c-1]) == Some(ms[k].0)
    && c < |doc| && doc[c] == ':' && Holds(doc, c + 1, ms[k].1, fmt) && j < |doc|
    && (if k + 1 == |ms| then doc[j] == '}' else doc[j] == ',' && HoldsMembers(doc, j + 1, ms, k + 1, fmt))
    && i + |Members(ms, k, fmt)| == j + if k + 1 == |ms| then 0 else 1 + |Members(ms, k + 1, fmt)|
  }

  /** The token before a member of a written object: its name, or the closing brace of an empty one. */
  lemma NameToken(doc: string, i: nat, ms: seq<(string, Value)>, k: nat, fmt: real -> string, t: Token)
    requires HoldsMembers(doc, i, ms, k, fmt) && k <= |ms| && Lexed(doc, i, t)
    ensures k == |ms| ==> t == Token(ObjectEnd, i, i + 1) && Members(ms, k, fmt) == ""
    ensures k < |ms| ==> MemberToken(doc, i, ms, k, fmt, t)
  {
    hide Lexed, Holds, Members, Render, Quoted, Unescape, PrefixAt, HoldsMembers, Ordered, Escape;
    if k == |ms| {
      ClosingBrace(doc, i, ms, fmt);
      CharToken(doc, i, t);
    } else {
      MemberFacts(doc, i, ms, k, fmt, 0);
      MemberAt(doc, i, ms, k, fmt);
      LiteralToken(doc, i, ms[k].0, t);
      CStringWhole(ms[k].0);
    }
  }

  lemma ClosingBrace(doc: string, i: nat, ms: seq<(string, Value)>, fmt: real -> string)
    requires HoldsMembers(doc, i, ms, |ms|, fmt)
    ensures i < |doc| && doc[i] == '}' && Members(ms, |ms|, fmt) == ""
  {
    assert Members(ms, |ms|, fmt) + "}" == "}";
    assert doc[i..i+1][0] == doc[i];
  }

  /** The bounds every token has. */
  predicate TokenOk(doc: string, t: Token) {
    && t.start <= t.end <= |doc|
    && (t.start < t.end || t.kind == EndOfStream)
    && (t.kind == StringToken ==> t.start + 1 < t.end)
  }

  lemma TokenBounds(doc: string, t: Token)
    requires TokenOk(doc, t)
    ensures t.start <= t.end <= |doc|
    ensures t.kind != EndOfStream ==> t.start < t.end
    ensures t.kind == StringToken ==> t.start + 1 < t.end
  {
  }

  lemma LexedOk(doc: string, from: nat, t: Token)
    requires from <= |doc| && Lexed(doc, from, t)
    ensures TokenOk(doc, t) && from <= t.start
  {
  }

  /** The token that begins a written value. */
  lemma ValueToken(doc: string, i: nat, v: Value, fmt: real -> string, t: Token)
    requires Holds(doc, i, v, fmt) && Lexed(doc, i, t)
    ensures t.start == i && t.end <= |doc|
    ensures !v.Array? && !v.Object? ==> t.end == i + |Render(v, fmt)|
    ensures match v
            case Null => t.kind == NullToken
            case Boolean(b) => t.kind == if b then TrueToken else FalseToken
            case Int(_) => t.kind == NumberToken && doc[t.start..t.end] == NumberText(v)
            case UInt(_) => t.kind == NumberToken && doc[t.start..t.end] == NumberText(v)
            case Real(_) => false
            case String(s) => t.kind == StringToken && i + 1 < t.end
              && Unescape(doc[t.start+1..t.end-1]) == Some(CString(s))
            case Array(items) => && t.kind == ArrayBegin && t.end == i + 1 && HoldsItems(doc, i + 1, items, 0, fmt)
                                 && |Render(v, fmt)| == |Items(items, 0, fmt)| + 2
            case Object(ms) => && t.kind == ObjectBegin && t.end == i + 1 && HoldsMembers(doc, i + 1, ms, 0, fmt)
                               && |Render(v, fmt)| == |Members(ms, 0, fmt)| + 2
  {
    match v
    case Null => WordToken(doc, i, "null", t);
    case Boolean(b) => WordToken(doc, i, if b then "true" else "false", t);
    case Int(_) => IntegerToken(doc, i, v, fmt, t);
    case UInt(_) => IntegerToken(doc, i, v, fmt, t);
    case Real(_) =>
    case String(s) => LiteralToken(doc, i, s, t);
    case Array(items) => ArrayToken(doc, i, items, fmt, t);
    case Object(ms) => ObjectToken(doc, i, ms, fmt, t);
  }

  lemma ArrayToken(doc: string, i: nat, items: seq<Value>, fmt: real -> string, t: Token)
    requires Holds(doc, i, Array(items), fmt) && Lexed(doc, i, t)
    ensures t == Token(ArrayBegin, i, i + 1) && HoldsItems(doc, i + 1, items, 0, fmt) && i + 1 <= |doc|
    ensures |Render(Array(items), fmt)| == |Items(items, 0, fmt)| + 2
  {
    var body := Items(items, 0, fmt) + "]";
    assert Render(Array(items), fmt) == "[" + body;
    hide Items, Render;
    PrefixSplit(doc, i, "[", body);
    assert doc[i..i+1][0] == doc[i];
    SpaceEndHere(doc, i);
  }

  lemma ObjectToken(doc: string, i: nat, ms: seq<(string, Value)>, fmt: real -> string, t: Token)
    requires Holds(doc, i, Object(ms), fmt) && Lexed(doc, i, t)
    ensures t == Token(ObjectBegin, i, i + 1) && HoldsMembers(doc, i + 1, ms, 0, fmt) && i + 1 <= |doc|
    ensures |Render(Object(ms), fmt)| == |Members(ms, 0, fmt)| + 2
  {
    var body := Members(ms, 0, fmt) + "}";
    assert Render(Object(ms), fmt) == "{" + body;
    hide Members, Render;
    PrefixSplit(doc, i, "{", body);
    assert doc[i..i+1][0] == doc[i];
    SpaceEndHere(doc, i);
  }

  // ---- Items of an array behind separators of any kind ----

  /** Items of an array, where each of them is looked for, and where the array stops. */
  datatype Joined = Joined(items: seq<Value>, at: seq<nat>, stop: nat)

  /**
   Item `k` stands where it is looked for. The first token behind it that is not a comment
   leads to the next item if it is anything but the closing bracket, and else ends the array.
   */
  predicate JoinedAt(doc: string, j: Joined, k: nat, fmt: real -> string)
    requires k < |j.items| == |j.at|
  {
    && j.at[k] <= |doc| && Holds(doc, SpaceEnd(doc, j.at[k]), j.items[k], fmt)
    && var behind := SpaceEnd(doc, j.at[k]) + |Render(j.items[k], fmt)|;
       && behind <= |doc|
       && var t := NextToken(doc, behind);
          && (t.kind == ArrayEnd <==> k + 1 == |j.items|)
          && t.end == if k + 1 == |j.items| then j.stop else j.at[k+1]
  }

  /** From `i` on, up to and with the closing bracket, stand such items. */
  predicate HoldsJoined(doc: string, i: nat, j: Joined, fmt: real -> string) {
    && i <= |doc| && |j.items| == |j.at|
    && (if j.items == [] then
          SpaceEnd(doc, i) < |doc| && doc[SpaceEnd(doc, i)] == ']' && j.stop == SpaceEnd(doc, i) + 1
        else j.at[0] == i && forall k | 0 <= k < |j.items| :: JoinedAt(doc, j, k, fmt))
  }

  /** The items of a written array, joined by commas. */
  ghost function CommaJoined(items: seq<Value>, i: nat, fmt: real -> string): (j: Joined)
    ensures |j.at| == |items| && j.items == items
  {
    Joined(items, seq(|items|, k requires 0 <= k < |items| => ItemStart(items, i, k, fmt)),
      i + |Items(items, 0, fmt)| + 1)
  }

  ghost function ItemStart(items: seq<Value>, i: nat, k: nat, fmt: real -> string): (r: nat)
    requires k < |items|
    decreases k
  {
    if k == 0 then i else ItemStart(items, i, k - 1, fmt) + |Render(items[k-1], fmt)| + 1
  }

  lemma {:induction false} ItemStarts(doc: string, i: nat, items: seq<Value>, k: nat, fmt: real -> string)
    requires HoldsItems(doc, i, items, 0, fmt) && k < |items|
    ensures HoldsItems(doc, ItemStart(items, i, k, fmt), items, k, fmt)
    ensures ItemStart(items, i, k, fmt) + |Items(items, k, fmt)| == i + |Items(items, 0, fmt)|
    decreases k
  {
    hide Items, Render, HoldsItems, Holds;
    if k > 0 {
      ItemStarts(doc, i, items, k - 1, fmt);
      ItemAt(doc, ItemStart(items, i, k - 1, fmt), items, k - 1, fmt);
    }
  }

  /** What is written is so joined. */
  lemma WrittenJoins(doc: string, i: nat, items: seq<Value>, fmt: real -> string, scan: Scan)
    requires HoldsItems(doc, i, items, 0, fmt)
    ensures HoldsJoined(doc, i, CommaJoined(items, i, fmt), fmt)
  {
    hide Items, Render, HoldsItems, Holds, SpaceEnd, TokenAt;
    ItemsBegin(doc, i, items, scan, fmt);
    var j := CommaJoined(items, i, fmt);
    forall k | 0 <= k < |items|
      ensures JoinedAt(doc, j, k, fmt)
    {
      WrittenJoinedAt(doc, i, items, k, fmt);
    }
  }

  lemma WrittenJoinedAt(doc: string, i: nat, items: seq<Value>, k: nat, fmt: real -> string)
    requires HoldsItems(doc, i, items, 0, fmt) && k < |items|
    ensures JoinedAt(doc, CommaJoined(items, i, fmt), k, fmt)
  {
    hide Items, Render, HoldsItems, Holds, SpaceEnd, TokenAt;
    ItemStarts(doc, i, items, k, fmt);
    var at := ItemStart(items, i, k, fmt);
    ItemAt(doc, at, items, k, fmt);
    FirstOfValue(doc, at, items[k], fmt);
    SpaceEndHere(doc, at);
    var behind := at + |Render(items[k], fmt)|;
    CharToken(doc, behind, TokenAt(doc, behind));
  }

  /** Before the first item: the closing bracket exactly if there is none. */
  lemma JoinedBegin(doc: string, i: nat, j: Joined, scan: Scan, fmt: real -> string)
    requires HoldsJoined(doc, i, j, fmt)
    ensures SpaceEnd(doc, i) < |doc| && (doc[SpaceEnd(doc, i)] == ']' <==> j.items == [])
    ensures BackItems(j.items, [], scan)
  {
    hide Render, Holds;
    if j.items != [] {
      assert JoinedAt(doc, j, 0, fmt);
      FirstOfValue(doc, SpaceEnd(doc, i), j.items[0], fmt);
    }
  }

  // ---- Members of an object behind separators of any accepted kind ----

  /** Members of an object, where the name of each is looked for, and where the object stops. */
  datatype Entries = Entries(members: seq<(string, Value)>, at: seq<nat>, stop: nat)

  predicate NameIs(doc: string, t: Token, name: string)
    requires t.end <= |doc|
  {
    t.kind == StringToken && t.start + 1 < t.end && Unescape(doc[t.start+1..t.end-1]) == Some(name)
  }

  /**
   The token behind member `k`. A comma, or a comment, behind which any token but the
   closing brace does, leads on to the next member; the closing brace ends the object.
   Behind a member with an empty name, a separator may stand before that brace.
   */
  predicate EntryEnds(doc: string, e: Entries, k: nat, comma: Token)
    requires k < |e.members| == |e.at|
    requires comma.start <= comma.end <= |doc| && (comma.kind == EndOfStream || comma.start < comma.end)
  {
    && (comma.kind == ObjectEnd || comma.kind == ArraySeparator || comma.kind == CommentToken)
    && var t := Uncommented(doc, comma);
       if k + 1 < |e.members| then t.kind != ObjectEnd && t.end == e.at[k+1]
       else if t.kind == ObjectEnd then t.end == e.stop
       else e.members[k].0 == "" && ObjectStops(doc, t.end, e.stop)
  }

  /** Behind any comments, the object ends. */
  predicate ObjectStops(doc: string, from: nat, stop: nat) {
    from <= |doc| && NextToken(doc, from).kind == ObjectEnd && NextToken(doc, from).end == stop
  }

  /** Where the value of a member, whose name is looked for at `at`, stands. */
  function ValueStart(doc: string, at: nat): (r: nat)
    requires at <= |doc|
    ensures r <= |doc|
  {
    SpaceEnd(doc, TokenAt(doc, NextToken(doc, at).end).end)
  }

  /** Name, colon and value of member `k` stand where they are looked for, with a separator behind them. */
  predicate EntryAt(doc: string, e: Entries, k: nat, fmt: real -> string)
    requires k < |e.members| == |e.at|
  {
    && e.at[k] <= |doc|
    && (var name := NextToken(doc, e.at[k]);
        NameIs(doc, name, e.members[k].0) && TokenAt(doc, name.end).kind == MemberSeparator)
    && (var start := ValueStart(doc, e.at[k]);
        && Holds(doc, start, e.members[k].1, fmt)
        && var behind := start + |Render(e.members[k].1, fmt)|;
           behind <= |doc| && EntryEnds(doc, e, k, TokenAt(doc, behind)))
  }

  /** From `i` on, up to and with the closing brace, stand such members. */
  predicate HoldsEntries(doc: string, i: nat, e: Entries, fmt: real -> string) {
    && i <= |doc| && |e.members| == |e.at|
    && (if e.members == [] then ObjectStops(doc, i, e.stop)
        else e.at[0] == i && forall k | 0 <= k < |e.members| :: EntryAt(doc, e, k, fmt))
  }

  /** What the first `k` members read back as, assigned one after the other; a later one of the same name replaces. */
  function Gathered(ms: seq<(string, Value)>, scan: Scan, k: nat): Option<seq<(string, Value)>>
    requires k <= |ms|
    decreases k
  {
    if k == 0 then Some([])
    else match (Gathered(ms, scan, k - 1), ReadBack(ms[k-1].1, scan))
         case (Some(members), Some(v)) => Some(Put(members, CString(ms[k-1].0), v))
         case _ => None
  }

  function ObjectBack(ms: seq<(string, Value)>, scan: Scan): Option<Value> {
    match Gathered(ms, scan, |ms|)
    case None => None
    case Some(members) => Some(Object(members))
  }

  /** A member that cannot be read back fails the object. */
  lemma {:induction false} NotGathered(ms: seq<(string, Value)>, scan: Scan, k: nat, n: nat)
    requires k < n <= |ms| && ReadBack(ms[k].1, scan) == None
    ensures Gathered(ms, scan, n) == None
    decreases n
  {
    hide ReadBack, Put, CString;
    if k + 1 < n {
      NotGathered(ms, scan, k, n - 1);
    }
  }

  /** Members in name order are gathered as they are. */
  lemma OrderedBack(ms: seq<(string, Value)>, scan: Scan)
    requires Ordered(ms) && forall j | 0 <= j < |ms| :: '\0' !in ms[j].0
    ensures ObjectBack(ms, scan) == ReadBack(Object(ms), scan)
  {
    hide ReadBack, Put, CString, BackMembers, Ordered;
    OrderedGathers(ms, scan, |ms|);
    if Gathered(ms, scan, |ms|).Some? {
      BackObject(ms, Gathered(ms, scan, |ms|).value, scan);
    } else {
      NoneBack(ms, scan);
    }
  }

  lemma NoneBack(ms: seq<(string, Value)>, scan: Scan)
    requires exists i | 0 <= i < |ms| :: ReadBack(ms[i].1, scan) == None
    ensures ReadBack(Object(ms), scan) == None
  {
  }

  lemma {:induction false} OrderedGathers(ms: seq<(string, Value)>, scan: Scan, k: nat)
    requires k <= |ms| && Ordered(ms) && forall j | 0 <= j < |ms| :: '\0' !in ms[j].0
    ensures match Gathered(ms, scan, k)
            case None => exists i | 0 <= i < k :: ReadBack(ms[i].1, scan) == None
            case Some(members) => BackMembers(ms, members, scan) && |members| == k
    decreases k
  {
    hide ReadBack, Put, CString, BackMembers, Ordered;
    if k == 0 {
      NoMembersBack(ms, scan);
    } else {
      OrderedGathers(ms, scan, k - 1);
      CStringWhole(ms[k-1].0);
      match (Gathered(ms, scan, k - 1), ReadBack(ms[k-1].1, scan))
      case (Some(members), Some(v)) => NextName(ms, members, scan, v);
      case _ =>
    }
  }

  /** The members of a written object, joined by commas. */
  ghost function CommaEntered(ms: seq<(string, Value)>, i: nat, fmt: real -> string): (e: Entries)
    ensures |e.at| == |ms| && e.members == ms
  {
    Entries(ms, seq(|ms|, k requires 0 <= k < |ms| => MemberStart(ms, i, k, fmt)), i + |Members(ms, 0, fmt)| + 1)
  }

  ghost function MemberStart(ms: seq<(string, Value)>, i: nat, k: nat, fmt: real -> string): (r: nat)
    requires k < |ms|
    decreases k
  {
    if k == 0 then i
    else MemberStart(ms, i, k - 1, fmt) + |Quoted(ms[k-1].0)| + 1 + |Render(ms[k-1].1, fmt)| + 1
  }

  lemma {:induction false} MemberStarts(doc: string, i: nat, ms: seq<(string, Value)>, k: nat, fmt: real -> string)
    requires HoldsMembers(doc, i, ms, 0, fmt) && k < |ms|
    ensures HoldsMembers(doc, MemberStart(ms, i, k, fmt), ms, k, fmt)
    ensures MemberStart(ms, i, k, fmt) + |Members(ms, k, fmt)| == i + |Members(ms, 0, fmt)|
    decreases k
  {
    hide Members, Render, HoldsMembers, Holds, Quoted, PrefixAt;
    if k > 0 {
      MemberStarts(doc, i, ms, k - 1, fmt);
      MemberAt(doc, MemberStart(ms, i, k - 1, fmt), ms, k - 1, fmt);
    }
  }

  /** What is written is so joined. */
  lemma WrittenEnters(doc: string, i: nat, ms: seq<(string, Value)>, fmt: real -> string, scan: Scan)
    requires HoldsMembers(doc, i, ms, 0, fmt)
    ensures HoldsEntries(doc, i, CommaEntered(ms, i, fmt), fmt) && ObjectBack(ms, scan) == ReadBack(Object(ms), scan)
  {
    hide Members, Render, HoldsMembers, EntryAt, TokenAt, NextToken, ReadBack, Gathered, Ordered, Writable;
    MembersOrdered(doc, i, ms, fmt);
    OrderedBack(ms, scan);
    if ms == [] {
      WrittenStops(doc, i, ms, fmt);
    }
    var e := CommaEntered(ms, i, fmt);
    forall k | 0 <= k < |ms|
      ensures EntryAt(doc, e, k, fmt)
    {
      WrittenEntryAt(doc, i, ms, k, fmt);
    }
    HoldsWithin(doc, i, ms, fmt);
  }

  lemma HoldsWithin(doc: string, i: nat, ms: seq<(string, Value)>, fmt: real -> string)
    requires HoldsMembers(doc, i, ms, 0, fmt)
    ensures i <= |doc|
  {
    hide Members;
  }

  lemma MembersOrdered(doc: string, i: nat, ms: seq<(string, Value)>, fmt: real -> string)
    requires HoldsMembers(doc, i, ms, 0, fmt)
    ensures Ordered(ms) && forall j | 0 <= j < |ms| :: '\0' !in ms[j].0
  {
    hide Members, PrefixAt, Ordered, Writable;
  }

  lemma WrittenStops(doc: string, i: nat, ms: seq<(string, Value)>, fmt: real -> string)
    requires HoldsMembers(doc, i, ms, 0, fmt) && ms == []
    ensures ObjectStops(doc, i, i + |Members(ms, 0, fmt)| + 1)
  {
    hide Members, HoldsMembers, TokenAt;
    ClosingBrace(doc, i, ms, fmt);
    CharToken(doc, i, TokenAt(doc, i));
  }

  lemma WrittenEntryAt(doc: string, i: nat, ms: seq<(string, Value)>, k: nat, fmt: real -> string)
    requires HoldsMembers(doc, i, ms, 0, fmt) && k < |ms|
    ensures EntryAt(doc, CommaEntered(ms, i, fmt), k, fmt)
  {
    hide Members, Render, HoldsMembers, Holds, SpaceEnd, TokenAt, Quoted, Unescape, Ordered;
    MemberStarts(doc, i, ms, k, fmt);
    var at := MemberStart(ms, i, k, fmt);
    MemberAt(doc, at, ms, k, fmt);
    var name := TokenAt(doc, at);
    NameToken(doc, at, ms, k, fmt, name);
    var c := name.end;
    CharToken(doc, c, TokenAt(doc, c));
    FirstOfValue(doc, c + 1, ms[k].1, fmt);
    SpaceEndHere(doc, c + 1);
    var behind := c + 1 + |Render(ms[k].1, fmt)|;
    CharToken(doc, behind, TokenAt(doc, behind));
  }

  /** An array of joined items begins at `i`. */
  predicate HoldsList(doc: string, i: nat, j: Joined, fmt: real -> string) {
    i < |doc| && doc[i] == '[' && HoldsJoined(doc, i + 1, j, fmt)
  }

  /** An object of joined members begins at `i`. */
  predicate HoldsObject(doc: string, i: nat, e: Entries, fmt: real -> string) {
    i < |doc| && doc[i] == '{' && HoldsEntries(doc, i + 1, e, fmt)
  }
}
