/** The compact JSON writer. */
module FastWriter {
  import opened JsonValue

  /** A C string ends at its first NUL. */
  function CString(s: string): string {
    if s == "" || s[0] == '\0' then "" else [s[0]] + CString(s[1..])
  }

  lemma {:induction false} CStringWhole(s: string)
    ensures CString(s) == s <==> '\0' !in s
    ensures '\0' !in CString(s)
  {
    if s != "" && s[0] != '\0' {
      CStringWhole(s[1..]);
      assert CString(s)[1..] == CString(s[1..]);
      assert s == [s[0]] + s[1..];
    }
  }

  function Digit(d: nat): char
    requires d < 10
  {
    '0' + d as char
  }

  function Digits(n: nat): string {
    if n < 10 then [Digit(n)] else Digits(n / 10) + [Digit(n % 10)]
  }

  lemma {:induction false} DigitsBound(n: nat, k: nat, limit: nat)
    requires n < limit && limit == Pow10(k) && k > 0
    ensures 1 <= |Digits(n)| <= k
  {
    if n >= 10 {
      DigitsBound(n / 10, k - 1, limit / 10);
    }
  }

  function Pow10(k: nat): nat { if k == 0 then 1 else 10 * Pow10(k - 1) }

  /** Digits are written backwards from the end of a buffer. */
  method UintToString(value: nat, buffer: array<char>, end: nat) returns (current: nat)
    requires 1 + |Digits(value)| <= end <= buffer.Length
    modifies buffer
    ensures current == end - 1 - |Digits(value)| && buffer[current..end-1] == Digits(value) && buffer[end-1] == '\0'
    ensures forall i | 0 <= i < buffer.Length && !(current <= i < end) :: buffer[i] == old(buffer[i])
  {
    current := end - 1;
    buffer[current] := '\0';
    var v := value;
    var first := true;
    while first || v != 0
      invariant 0 <= current < end
      invariant first ==> v == value && current == end - 1
      invariant !first ==>
                  current < end - 1 && (if v == 0 then "" else Digits(v)) + buffer[current..end-1] == Digits(value)
      invariant buffer[end-1] == '\0'
      invariant forall i | 0 <= i < buffer.Length && !(current <= i < end) :: buffer[i] == old(buffer[i])
      decreases first, v
    {
      assert first ==> Digits(v) == Digits(value) + buffer[current..end-1];
      assert !first ==> Digits(v) + buffer[current..end-1] == Digits(value);
      ghost var tail := buffer[current..end-1];
      current := current - 1;
      buffer[current] := Digit(v % 10);
      assert buffer[current..end-1] == [Digit(v % 10)] + tail;
      v := v / 10;
      first := false;
    }
  }

  /** Decimal text of a signed 32-bit value; the magnitude goes through unsigned arithmetic. */
  function IntText(i: int): string {
    if i < 0 then "-" + Digits(-i) else Digits(i)
  }

  method IntToString(value: int) returns (s: string)
    requires MIN_INT <= value <= MAX_INT
    ensures s == IntText(value)
  {
    var buffer := new char[32];
    var isNegative := value < 0;
    var magnitude := if isNegative then -value else value;
    assert Pow10(10) == 10_000_000_000 by { Pow10Ten(); }
    DigitsBound(magnitude, 10, 10_000_000_000);
    var current := UintToString(magnitude, buffer, 32);
    if isNegative {
      ghost var tail := buffer[current..31];
      current := current - 1;
      buffer[current] := '-';
      assert buffer[current..31] == ['-'] + tail;
    }
    s := buffer[current..31];
  }

  method UIntToText(value: int) returns (s: string)
    requires 0 <= value <= MAX_UINT
    ensures s == Digits(value)
  {
    var buffer := new char[32];
    assert Pow10(10) == 10_000_000_000 by { Pow10Ten(); }
    DigitsBound(value, 10, 10_000_000_000);
    var current := UintToString(value, buffer, 32);
    s := buffer[current..31];
  }

  lemma Pow10Ten()
    ensures Pow10(10) == 10_000_000_000
  {
    assert Pow10(5) == 100_000 by { assert Pow10(2) == 100; }
    assert Pow10(7) == 10_000_000;
  }

  predicate IsControl(c: char) { '\0' < c <= 0x1F as char }

  function HexDigit(d: nat): char
    requires d < 16
  {
    if d < 10 then '0' + d as char else 'A' + (d - 10) as char
  }

  /** How one character is written inside quotes. */
  function EscapeChar(c: char): (e: string)
    ensures e != ""
  {
    if c == '"' then "\\\""
    else if c == '\\' then "\\\\"
    else if c == 8 as char then "\\b"
    else if c == 12 as char then "\\f"
    else if c == '\n' then "\\n"
    else if c == '\r' then "\\r"
    else if c == '\t' then "\\t"
    else if IsControl(c) then "\\u00" + [HexDigit(c as int / 16), HexDigit(c as int % 16)]
    else [c]
  }

  function Escape(s: string): string {
    if s == "" then "" else EscapeChar(s[0]) + Escape(s[1..])
  }

  predicate Special(c: char) {
    c == '"' || c == '\\' || c == 8 as char || c == 12 as char || c == '\n' || c == '\r' || c == '\t' || IsControl(c)
  }

  lemma {:induction false} EscapePlain(s: string)
    requires forall c | c in s :: !Special(c)
    ensures Escape(s) == s
  {
    if s != "" {
      assert s[0] in s;
      EscapePlain(s[1..]);
    }
  }

  lemma {:induction false} EscapeConcat(a: string, b: string)
    ensures Escape(a + b) == Escape(a) + Escape(b)
  {
    if a == "" {
      assert a + b == b;
    } else {
      assert (a + b)[1..] == a[1..] + b;
      EscapeConcat(a[1..], b);
    }
  }

  function Quoted(s: string): string { "\"" + Escape(CString(s)) + "\"" }

  /** What the loop over the characters of a string appends for one of them. */
  method WrittenAs(c: char) returns (e: string)
    ensures e == EscapeChar(c)
  {
    match c {
      case '"' => e := "\\\"";
      case '\\' => e := "\\\\";
      case '\n' => e := "\\n";
      case '\r' => e := "\\r";
      case '\t' => e := "\\t";
      case _ =>
        if c == 8 as char {
          e := "\\b";
        } else if c == 12 as char {
          e := "\\f";
        } else if '\0' < c <= 0x1F as char {
          e := "\\u00" + [HexDigit(c as int / 16), HexDigit(c as int % 16)];
        } else {
          e := [c];
        }
    }
  }

  method ValueToQuotedString(s: string) returns (r: string)
    ensures r == Quoted(s)
  {
    var value := CString(s);
    hide EscapeChar, Special, CString;
    if forall c | c in value :: !Special(c) {
      EscapePlain(value);
      return "\"" + value + "\"";
    }
    r := "\"";
    for i := 0 to |value|
      invariant r == "\"" + Escape(value[..i])
    {
      var e := WrittenAs(value[i]);
      r := r + e;
      assert value[..i+1] == value[..i] + [value[i]];
      EscapeConcat(value[..i], [value[i]]);
      assert [value[i]][1..] == "";
    }
    assert value[..|value|] == value;
    r := r + "\"";
  }

  /** The text of a value. Doubles are formatted by a foreign routine. */
  function Render(v: Value, fmt: real -> string): string
    decreases v, 0
  {
    match v
    case Null => "null"
    case Boolean(b) => if b then "true" else "false"
    case Int(i) => IntText(i)
    case UInt(u) => if u < 0 then "" else Digits(u)
    case Real(r) => fmt(r)
    case String(s) => Quoted(s)
    case Array(items) => "[" + Items(items, 0, fmt) + "]"
    case Object(members) => "{" + Members(members, 0, fmt) + "}"
  }

  function Items(items: seq<Value>, i: nat, fmt: real -> string): string
    requires i <= |items|
    decreases items, |items| - i
  {
    if i == |items| then ""
    else Render(items[i], fmt) + (if i + 1 == |items| then "" else "," + Items(items, i + 1, fmt))
  }

  function Member(m: (string, Value), fmt: real -> string): string
    decreases m, 1
  {
    Quoted(m.0) + ":" + Render(m.1, fmt)
  }

  function Members(members: seq<(string, Value)>, i: nat, fmt: real -> string): string
    requires i <= |members|
    decreases members, |members| - i
  {
    if i == |members| then ""
    else Member(members[i], fmt) + (if i + 1 == |members| then "" else "," + Members(members, i + 1, fmt))
  }

  /** What is still to be written of the items from `i` on. */
  function PendingItems(items: seq<Value>, i: nat, fmt: real -> string): string
    requires i <= |items|
  {
    if 0 < i < |items| then "," + Items(items, i, fmt) else Items(items, i, fmt)
  }

  function PendingMembers(members: seq<(string, Value)>, i: nat, fmt: real -> string): string
    requires i <= |members|
  {
    if 0 < i < |members| then "," + Members(members, i, fmt) else Members(members, i, fmt)
  }

  function Comma(i: nat): string { if i > 0 then "," else "" }

  lemma Regroup(doc: string, c: string, r: string, p: string)
    ensures doc + (c + (r + p)) == (doc + c) + r + p && doc + "" == doc
  {
  }

  lemma PendingItem(items: seq<Value>, i: nat, fmt: real -> string)
    requires i < |items|
    ensures PendingItems(items, i, fmt) == Comma(i) + (Render(items[i], fmt) + PendingItems(items, i + 1, fmt))
  {
    hide Render;
  }

  lemma ItemStep(doc: string, items: seq<Value>, i: nat, fmt: real -> string)
    requires i < |items|
    ensures doc + PendingItems(items, i, fmt) == (doc + Comma(i)) + Render(items[i], fmt) +
              PendingItems(items, i + 1, fmt)
    ensures doc + "" == doc
  {
    hide *;
    PendingItem(items, i, fmt);
    Regroup(doc, Comma(i), Render(items[i], fmt), PendingItems(items, i + 1, fmt));
  }

  lemma PendingMember(members: seq<(string, Value)>, i: nat, fmt: real -> string)
    requires i < |members|
    ensures PendingMembers(members, i, fmt) == Comma(i) +
              (Member(members[i], fmt) + PendingMembers(members, i + 1, fmt))
  {
    hide Render, Quoted, Member;
  }

  lemma MemberIs(m: (string, Value), fmt: real -> string)
    ensures Member(m, fmt) == Quoted(m.0) + ":" + Render(m.1, fmt)
  {
    hide Render, Quoted;
  }

  lemma RegroupMember(doc: string, c: string, q: string, r: string, p: string)
    ensures (doc + c) + (q + ":" + r) + p == (((doc + c) + q) + ":") + r + p
  {
  }

  lemma MemberStep(doc: string, members: seq<(string, Value)>, i: nat, fmt: real -> string)
    requires i < |members|
    ensures doc + PendingMembers(members, i, fmt) ==
            (((doc + Comma(i)) + Quoted(members[i].0)) + ":") + Render(members[i].1, fmt) +
                PendingMembers(members, i + 1, fmt)
    ensures doc + "" == doc
  {
    hide *;
    PendingMember(members, i, fmt);
    MemberIs(members[i], fmt);
    Regroup(doc, Comma(i), Member(members[i], fmt), PendingMembers(members, i + 1, fmt));
    RegroupMember(doc, Comma(i), Quoted(members[i].0), Render(members[i].1, fmt), PendingMembers(members, i + 1, fmt));
  }

  lemma NothingPending(doc: string, fmt: real -> string, items: seq<Value>, members: seq<(string, Value)>)
    ensures doc + PendingItems(items, |items|, fmt) == doc
    ensures doc + PendingMembers(members, |members|, fmt) == doc
  {
  }

  /** What the C++ types allow: integers within 32 bits. */
  predicate Representable(v: Value)
    decreases v
  {
    match v
    case Int(i) => -2147483648 <= i <= 2147483647
    case UInt(u) => 0 <= u <= 4294967295
    case Array(items) => forall i | 0 <= i < |items| :: Representable(items[i])
    case Object(members) => forall i | 0 <= i < |members| :: Representable(members[i].1)
    case _ => true
  }

  class Writer {
    var document: string
    const fmt: real -> string

    constructor (fmt: real -> string)
      ensures document == "" && this.fmt == fmt
    {
      document := "";
      this.fmt := fmt;
    }

    method WriteValue(v: Value)
      requires Representable(v)
      modifies this
      ensures document == old(document) + Render(v, fmt)
      decreases v
    {
      match v {
        case Null => document := document + "null";
        case Boolean(b) => document := document + if b then "true" else "false";
        case Int(i) =>
          var s := IntToString(i);
          document := document + s;
        case UInt(u) =>
          var s := UIntToText(u);
          document := document + s;
        case Real(r) => document := document + fmt(r);
        case String(s) =>
          var q := ValueToQuotedString(s);
          document := document + q;
        case Array(items) => WriteArray(items, v);
        case Object(members) => WriteObject(members, v);
      }
    }

    method WriteArray(items: seq<Value>, ghost v: Value)
      requires v == Array(items) && Representable(v)
      modifies this
      ensures document == old(document) + Render(v, fmt)
      decreases v, 0
    {
      assert Render(v, fmt) == "[" + PendingItems(items, 0, fmt) + "]";
      assert forall i | 0 <= i < |items| :: Representable(items[i]);
      hide Render, PendingItems, Representable;
      document := document + "[";
      for index := 0 to |items|
        invariant document + PendingItems(items, index, fmt) == old(document) + "[" + PendingItems(items, 0, fmt)
      {
        ItemStep(document, items, index, fmt);
        if index > 0 {
          document := document + ",";
        }
        WriteValue(items[index]);
      }
      NothingPending(document, fmt, items, []);
      document := document + "]";
    }

    method WriteObject(members: seq<(string, Value)>, ghost v: Value)
      requires v == Object(members) && Representable(v)
      modifies this
      ensures document == old(document) + Render(v, fmt)
      decreases v, 0
    {
      assert Render(v, fmt) == "{" + PendingMembers(members, 0, fmt) + "}";
      assert forall i | 0 <= i < |members| :: Representable(members[i].1);
      hide Render, PendingMembers, Representable, Quoted;
      document := document + "{";
      for it := 0 to |members|
        invariant document + PendingMembers(members, it, fmt) == old(document) + "{" + PendingMembers(members, 0, fmt)
      {
        MemberStep(document, members, it, fmt);
        if it > 0 {
          document := document + ",";
        }
        var name := ValueToQuotedString(members[it].0);
        document := document + name;
        document := document + ":";
        WriteValue(members[it].1);
      }
      NothingPending(document, fmt, [], members);
      document := document + "}";
    }

    method Write(root: Value) returns (s: string)
      requires Representable(root)
      modifies this
      ensures s == Render(root, fmt) + "\n" && document == s
    {
      document := "";
      WriteValue(root);
      document := document + "\n";
      return document;
    }
  }
}
