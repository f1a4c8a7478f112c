/**
 Quoted strings: the shared escape table, the parser that decodes a literal, and
 the raw comparison of a query key against a literal in the text.
 */
module Keys {
  import opened Lexer

  /** What the character after a backslash stands for; every unlisted one decodes to NUL. */
  function EscapeTable(c: char): char {
    match c
    case '"' => '"'
    case '/' => '/'
    case '\\' => '\\'
    case 'b' => 8 as char
    case 'f' => 12 as char
    case 'n' => '\n'
    case 'r' => '\r'
    case 't' => '\t'
    case _ => '\0'
  }

  /** The characters between the quotes of one complete literal. */
  predicate ValidRaw(raw: string) {
    || raw == ""
    || (raw[0] == '\\' && |raw| >= 2 && ValidRaw(raw[2..]))
    || (raw[0] != '\\' && raw[0] != '"' && ValidRaw(raw[1..]))
  }

  function Decode(raw: string): string
    requires ValidRaw(raw)
  {
    if raw == "" then ""
    else if raw[0] == '\\' then [EscapeTable(raw[1])] + Decode(raw[2..])
    else [raw[0]] + Decode(raw[1..])
  }

  /** The width of the first character of a literal as written. */
  function Width(raw: string): nat { if raw != "" && raw[0] == '\\' then 2 else 1 }

  lemma RawStep(raw: string)
    requires ValidRaw(raw) && raw != ""
    ensures Width(raw) <= |raw| && ValidRaw(raw[Width(raw)..]) && raw[0] != '"'
    ensures Decode(raw) == [if Width(raw) == 2 then EscapeTable(raw[1]) else raw[0]] + Decode(raw[Width(raw)..])
  {
  }

  /** Reading the text through the iterator; a C string ends with NUL. */
  function Read(text: string, i: nat): char {
    if i < |text| then text[i] else '\0'
  }

  /** The text at `i` spells `key`, escapes resolved, and a quote follows. */
  predicate Spells(text: string, i: nat, key: string)
    decreases |key|
  {
    if key == "" then Read(text, i) == '"'
    else if Read(text, i) == '\\' then EscapeTable(Read(text, i + 1)) == key[0] && Spells(text, i + 2, key[1..])
    else Read(text, i) == key[0] && Spells(text, i + 1, key[1..])
  }

  predicate QuoteFrom(text: string, i: nat) {
    exists j | i <= j < |text| :: text[j] == '"'
  }

  /** First quote at or after `i`. */
  function FirstQuote(text: string, i: nat): (q: nat)
    requires QuoteFrom(text, i)
    ensures i <= q < |text| && text[q] == '"'
    ensures forall j | i <= j < q :: text[j] != '"'
    decreases |text| - i
  {
    if text[i] == '"' then i else FirstQuote(text, i + 1)
  }

  method CheckKey(text: string, key: string, pos: nat) returns (r: bool)
    requires QuoteFrom(text, pos)
    ensures r <==> Spells(text, FirstQuote(text, pos) + 1, key)
  {
    var it := pos;
    while text[it] != '"'
      invariant pos <= it < |text| && QuoteFrom(text, it)
      invariant FirstQuote(text, it) == FirstQuote(text, pos)
      decreases |text| - it
    {
      it := it + 1;
    }
    it := it + 1;
    var k := 0;
    while k != |key|
      invariant 0 <= k <= |key|
      invariant Spells(text, it, key[k..]) == Spells(text, FirstQuote(text, pos) + 1, key)
      decreases |key| - k
    {
      var c := Read(text, it);
      it := it + 1;
      if c == '\\' {
        c := EscapeTable(Read(text, it));
        it := it + 1;
      }
      if c != key[k] {
        return false;
      }
      assert key[k..][1..] == key[k+1..];
      k := k + 1;
    }
    r := Read(text, it) == '"';
  }

  /**
   On a complete literal, a key without a quote is spelled exactly when the literal
   decodes to it, and the comparison never leaves the literal.
   */
  lemma {:induction false} SpellsDecodes(text: string, i: nat, raw: string, key: string)
    requires ValidRaw(raw) && '"' !in key
    requires i + |raw| < |text| && text[i..i+|raw|] == raw && text[i+|raw|] == '"'
    ensures Spells(text, i, key) <==> Decode(raw) == key
    decreases |raw|
  {
    hide Decode, ValidRaw, EscapeTable, Spells;
    SpellsAt(text, i, key);
    NothingLeft("");
    if raw != "" {
      var w := Width(raw);
      RawStep(raw);
      SliceStep(text, i, raw, w);
      DecodeFirst(if w == 2 then EscapeTable(raw[1]) else raw[0], Decode(raw[w..]), key);
      if key != "" {
        SpellsDecodes(text, i + w, raw[w..], key[1..]);
      }
    } else if key != "" {
      assert key[0] in key;
    }
  }

  /** One step of the comparison. */
  lemma SpellsAt(text: string, i: nat, key: string)
    requires i < |text|
    ensures key == "" ==> (Spells(text, i, key) <==> text[i] == '"')
    ensures key != "" && text[i] == '\\' && i + 1 < |text| ==>
              (Spells(text, i, key) <==> EscapeTable(text[i+1]) == key[0] && Spells(text, i + 2, key[1..]))
    ensures key != "" && text[i] != '\\' ==>
              (Spells(text, i, key) <==> text[i] == key[0] && Spells(text, i + 1, key[1..]))
  {
    hide EscapeTable;
  }

  lemma DecodeFirst(c: char, rest: string, key: string)
    ensures [c] + rest == key <==> key != "" && key[0] == c && key[1..] == rest
  {
    if key != "" && key[0] == c && key[1..] == rest {
      assert key == [c] + rest;
    }
  }

  /** A raw spelling of `key` that protects backslashes only, so quotes in it stay bare. */
  function Bare(key: string): string {
    if key == "" then "" else (if key[0] == '\\' then "\\\\" else [key[0]]) + Bare(key[1..])
  }

  lemma {:induction false} SpellsBare(pre: string, key: string, post: string)
    requires post != "" && post[0] == '"'
    ensures Spells(pre + Bare(key) + post, |pre|, key)
    decreases |key|
  {
    var text := pre + Bare(key) + post;
    if key == "" {
      assert text[|pre|] == post[0];
    } else {
      var head := if key[0] == '\\' then "\\\\" else [key[0]];
      SpellsBare(pre + head, key[1..], post);
      assert text == (pre + head) + Bare(key[1..]) + post;
      assert text[|pre|] == head[0];
      assert |head| == 2 ==> text[|pre|+1] == head[1];
    }
  }

  lemma {:induction false} BareConcat(a: string, b: string)
    ensures Bare(a + b) == Bare(a) + Bare(b)
  {
    if a == "" {
      assert a + b == b;
    } else {
      assert (a + b)[1..] == a[1..] + b;
      BareConcat(a[1..], b);
    }
  }

  lemma {:induction false} BareValid(key: string)
    requires '"' !in key
    ensures ValidRaw(Bare(key)) && Decode(Bare(key)) == key
  {
    if key != "" {
      assert forall c | c in key[1..] :: c in key;
      BareValid(key[1..]);
      var w := if key[0] == '\\' then 2 else 1;
      assert Bare(key)[w..] == Bare(key[1..]);
      assert key[0] in key;
    }
  }

  /** The literal behind the first (necessarily escaped) quote in it. */
  function AfterQuote(raw: string): string
    requires '"' in raw
  {
    raw[FirstQuote(raw, 0) + 1..]
  }

  predicate KeyBehindQuote(raw: string, key: string) {
    '"' in raw && ValidRaw(AfterQuote(raw)) && Decode(AfterQuote(raw)) == key
  }

  lemma {:induction false} AfterQuoteShorter(raw: string)
    requires ValidRaw(raw) && '"' in raw
    ensures ValidRaw(AfterQuote(raw)) && |Decode(AfterQuote(raw))| < |Decode(raw)|
  {
    hide Decode, ValidRaw;
    RawStep(raw);
    var w := Width(raw);
    if w == 2 && raw[1] == '"' {
      assert FirstQuote(raw, 0) == 1;
    } else {
      var j :| 0 <= j < |raw| && raw[j] == '"';
      assert raw[w..][j-w] == '"';
      AfterQuoteShorter(raw[w..]);
      AfterQuoteLater(raw, w);
    }
  }

  lemma AfterQuoteLater(raw: string, w: nat)
    requires w <= |raw| && '"' in raw[w..] && '"' !in raw[..w]
    ensures '"' in raw && AfterQuote(raw) == AfterQuote(raw[w..])
  {
    hide FirstQuote;
    var j :| 0 <= j < |raw[w..]| && raw[w..][j] == '"';
    assert raw[w+j] == '"';
    FirstQuoteShift(raw, w, 0);
    var q := FirstQuote(raw, 0);
    assert forall i | 0 <= i < w :: raw[i] == raw[..w][i];
    assert w <= q;
    assert q == FirstQuote(raw, w);
  }

  lemma {:induction false} FirstQuoteShift(s: string, w: nat, i: nat)
    requires w <= |s| && QuoteFrom(s[w..], i)
    ensures QuoteFrom(s, w + i) && FirstQuote(s, w + i) == w + FirstQuote(s[w..], i)
    decreases |s| - i
  {
    var q := w + FirstQuote(s[w..], i);
    assert s[q] == '"';
    forall j | w + i <= j < q
      ensures s[j] != '"'
    {
      assert s[w..][j-w] == s[j];
    }
  }

  /** What the key comparison is for: it agrees with decoding on every literal, whatever follows it. */
  ghost predicate AgreesOnAllLiterals(key: string) {
    forall raw: string, tail: string | ValidRaw(raw) ::
      Spells(raw + "\"" + tail, 0, key) <==> Decode(raw) == key
  }

  /** The comparison is right on every literal exactly for the keys without a quote. */
  lemma CheckKeyExact(key: string)
    ensures AgreesOnAllLiterals(key) <==> '"' !in key
  {
    hide Spells, Decode, ValidRaw;
    if '"' !in key {
      forall raw: string, tail: string | ValidRaw(raw)
        ensures Spells(raw + "\"" + tail, 0, key) <==> Decode(raw) == key
      {
        var text := raw + "\"" + tail;
        assert text[0..|raw|] == raw && text[|raw|] == '"';
        SpellsDecodes(text, 0, raw, key);
      }
    } else {
      var raw, tail := QuoteMisleads(key);
    }
  }

  /** A literal that ends where the quote of the key stands, in a text that goes on as the key does. */
  lemma QuoteMisleads(key: string) returns (raw: string, tail: string)
    requires '"' in key
    ensures ValidRaw(raw) && Spells(raw + "\"" + tail, 0, key) && Decode(raw) != key
  {
    hide Spells, Decode, ValidRaw, Bare;
    var p := FirstQuote(key, 0);
    var a, b := key[..p], key[p+1..];
    BareValid(a);
    raw, tail := Bare(a), Bare(b) + "\"";
    BareAroundQuote(a, b);
    assert key == a + ("\"" + b);
    SpellsBare("", key, "\"");
    SameText(Bare(a), Bare(b), Bare(key));
  }

  lemma BareAroundQuote(a: string, b: string)
    ensures Bare(a + ("\"" + b)) == Bare(a) + ("\"" + Bare(b))
  {
    BareConcat(a, "\"" + b);
    assert ("\"" + b)[1..] == b;
  }

  lemma SameText(a: string, b: string, all: string)
    requires all == a + ("\"" + b)
    ensures "" + all + "\"" == a + "\"" + (b + "\"")
  {
  }

  /** The characters of one literal, read up to its closing quote. */
  lemma {:induction false} RawScans(raw: string)
    requires ValidRaw(raw)
    ensures Run(InString, raw) == InString && BpFrom(InString, raw) == []
    decreases |raw|
  {
    if raw != "" {
      if raw[0] == '\\' {
        assert raw[1..][1..] == raw[2..];
        RawScans(raw[2..]);
      } else {
        RawScans(raw[1..]);
      }
    }
  }

  /** The scanner, started inside a literal, is still in it behind the text, and not escaped. */
  predicate StaysIn(raw: string) {
    Run(InString, raw) == InString && forall k | 0 <= k <= |raw| :: Run(InString, raw[..k]) != Outside
  }

  /** The complete literals are exactly the texts that the scanner stays inside of. */
  lemma {:induction false} RawExact(raw: string)
    ensures ValidRaw(raw) <==> StaysIn(raw)
    decreases |raw|
  {
    hide ValidRaw, StaysIn;
    RawStart(raw);
    if |raw| >= 2 && raw[0] != '"' {
      RawExact(raw[Width(raw)..]);
      StaysStep(raw, Width(raw));
    }
  }

  lemma RawStart(raw: string)
    ensures raw == "" ==> ValidRaw(raw) && StaysIn(raw)
    ensures raw != "" && raw[0] == '"' ==> !ValidRaw(raw) && !StaysIn(raw)
    ensures |raw| == 1 && raw[0] != '"' ==> (ValidRaw(raw) <==> StaysIn(raw))
    ensures |raw| >= 2 && raw[0] != '"' ==> (ValidRaw(raw) <==> ValidRaw(raw[Width(raw)..]))
  {
    if raw != "" {
      assert |raw| == 1 ==> raw[1..] == "" && raw[..1] == raw && raw[..0] == "";
      assert raw[..1][0] == raw[0] && raw[..1][1..] == "";
      assert Run(InString, raw[..1]) == Next(InString, raw[0]);
    }
  }

  lemma StaysStep(raw: string, w: nat)
    requires |raw| >= 2 && w == Width(raw) && raw[0] != '"'
    ensures StaysIn(raw) <==> StaysIn(raw[w..])
  {
    hide Run;
    var rest := raw[w..];
    forall k | 0 <= k <= |raw|
      ensures k < w ==> Run(InString, raw[..k]) != Outside
      ensures k >= w ==> Run(InString, raw[..k]) == Run(InString, rest[..k-w])
    {
      RunTwo(raw[..k]);
      if k >= w {
        assert raw[..k][w..] == rest[..k-w];
      }
    }
    assert raw[..|raw|] == raw && rest[..|rest|] == rest;
    if StaysIn(raw) {
      forall k | 0 <= k <= |rest|
        ensures Run(InString, rest[..k]) != Outside
      {
        assert Run(InString, raw[..k+w]) != Outside;
      }
    }
  }

  lemma RunTwo(s: string)
    ensures Run(InString, "") == InString
    ensures s != "" && s[0] != '\\' && s[0] != '"' ==> Run(InString, s) == Run(InString, s[1..])
    ensures |s| == 1 && s[0] == '\\' ==> Run(InString, s) == Escaped
    ensures |s| >= 2 && s[0] == '\\' ==> Run(InString, s) == Run(InString, s[2..])
  {
    if |s| >= 2 {
      assert s[1..][1..] == s[2..];
    }
  }

  lemma LiteralScans(raw: string)
    requires ValidRaw(raw)
    ensures Closed("\"" + raw + "\"") && Bp("\"" + raw + "\"") == []
  {
    hide ValidRaw, Run, BpFrom;
    RawScans(raw);
    ScanConcat(InString, raw, "\"");
    ClosingQuote();
    OpeningQuote(raw + "\"");
    assert "\"" + raw + "\"" == "\"" + (raw + "\"");
  }

  lemma ClosingQuote()
    ensures Run(InString, "\"") == Outside && BpFrom(InString, "\"") == []
  {
    assert "\""[1..] == "";
  }

  lemma OpeningQuote(rest: string)
    ensures Run(Outside, "\"" + rest) == Run(InString, rest) && BpFrom(Outside, "\"" + rest) == BpFrom(InString, rest)
  {
    hide Run, BpFrom;
    var text := "\"" + rest;
    assert text[1..] == rest;
    ScanStep(Outside, text);
  }

  /**
   The literal parser, started after the opening quote. On a terminated literal it
   stops behind the closing quote with the decoded characters; on a text that ends
   inside the literal it fails. (A text ending in a lone backslash is read past its end.)
   */
  method ParseQuoted(text: string, start: nat, ghost raw: string, ghost closed: bool)
    returns (ok: bool, first: nat, attr: string)
    requires ValidRaw(raw) && start + |raw| + (if closed then 1 else 0) <= |text|
    requires text[start..start+|raw|] == raw
    requires if closed then text[start+|raw|] == '"' else start + |raw| == |text|
    ensures ok == closed && attr == Decode(raw)
    ensures first == start + |raw| + (if closed then 1 else 0)
  {
    hide Decode, ValidRaw;
    first, attr := start, "";
    ghost var rest := raw;
    while first != |text|
      invariant start <= first && first + |rest| == start + |raw|
      invariant ValidRaw(rest) && text[first..first+|rest|] == rest
      invariant attr + Decode(rest) == Decode(raw)
      decreases |text| - first
    {
      LiteralStep(text, first, rest, attr, raw);
      var c := text[first];
      first := first + 1;
      if c == '"' {
        return true, first, attr;
      } else if c == '\\' {
        attr := attr + [EscapeTable(text[first])];
        first := first + 1;
      } else {
        attr := attr + [c];
      }
      rest := rest[Width(rest)..];
    }
    NothingLeft(attr);
    ok := false;
  }

  /** One character of a literal, as written and as decoded. */
  lemma LiteralStep(text: string, at: nat, rest: string, attr: string, raw: string)
    requires ValidRaw(rest) && at + |rest| <= |text| && text[at..at+|rest|] == rest && ValidRaw(raw)
    requires attr + Decode(rest) == Decode(raw)
    ensures rest == "" ==> attr == Decode(raw)
    ensures rest != "" ==> var w := Width(rest);
              && w <= |rest| && text[at] == rest[0] != '"' && (w == 2 ==> text[at+1] == rest[1])
              && ValidRaw(rest[w..]) && text[at+w..at+w+|rest[w..]|] == rest[w..]
              && attr + [if w == 2 then EscapeTable(rest[1]) else rest[0]] + Decode(rest[w..]) == Decode(raw)
  {
    hide Decode, ValidRaw, EscapeTable;
    NothingLeft(attr);
    if rest != "" {
      RawStep(rest);
      SliceStep(text, at, rest, Width(rest));
    }
  }

  lemma SliceStep(text: string, at: nat, rest: string, w: nat)
    requires at + |rest| <= |text| && text[at..at+|rest|] == rest && 1 <= w <= |rest|
    ensures text[at] == rest[0] && (w == 2 ==> text[at+1] == rest[1])
    ensures text[at+w..at+w+|rest[w..]|] == rest[w..]
  {
  }

  lemma NothingLeft(attr: string)
    ensures ValidRaw("") && Decode("") == "" && attr + Decode("") == attr
  {
  }
}
