/**
 The construction of the semi-index: one pass over the texts of a collection,
 pushing onto the two bit vectors.
 */
module Builder {
  import opened Lexer

  datatype SemiIndex = SemiIndex(nav: seq<bool>, bp: seq<bool>)

  datatype Outcome = Built(index: SemiIndex) | UnterminatedLiteral

  function Flatten(texts: seq<string>): string {
    if texts == [] then "" else Flatten(texts[..|texts|-1]) + texts[|texts|-1]
  }

  predicate AllClosed(texts: seq<string>) {
    forall i | 0 <= i < |texts| :: Closed(texts[i])
  }

  lemma {:induction false} FlattenClosed(texts: seq<string>)
    requires AllClosed(texts)
    ensures Closed(Flatten(texts))
  {
    if texts != [] {
      FlattenClosed(texts[..|texts|-1]);
      ClosedConcat(Flatten(texts[..|texts|-1]), texts[|texts|-1]);
    }
  }

  function Zeros(n: nat): seq<bool> { seq(n, _ => false) }

  lemma ZerosGrow(nav: seq<bool>, n: nat)
    ensures nav + Zeros(n) + [false] == nav + Zeros(n + 1)
    ensures nav + Zeros(0) == nav
  {
    assert Zeros(n) + [false] == Zeros(n + 1);
  }

  /** One more character at the end of a scanned prefix. */
  lemma ScanOne(s: string, i: nat)
    requires i < |s|
    ensures Run(Outside, s[..i+1]) == Next(Run(Outside, s[..i]), s[i])
    ensures var st := Run(Outside, s[..i]);
            && Nav(s[..i+1]) == Nav(s[..i]) + [st == Outside && IsStructural(s[i])]
            && Bp(s[..i+1]) == Bp(s[..i]) + (if st == Outside && IsStructural(s[i]) then Parens(s[i]) else [])
  {
    assert s[..i+1] == s[..i] + [s[i]];
    ScanConcat(Outside, s[..i], [s[i]]);
    assert [s[i]][1..] == "";
  }

  lemma ScanNothing(s: string)
    ensures s[..0] == "" && Nav(s[..0]) == [] && Bp(s[..0]) == [] && Run(Outside, s[..0]) == Outside
  {
  }

  /**
   The scan of one text, onto vectors that already hold `nav0` and `bp0`.
   Fails exactly when the text leaves a literal unterminated.
   */
  method ScanText(s: string, nav0: seq<bool>, bp0: seq<bool>) returns (ok: bool, nav: seq<bool>, bp: seq<bool>)
    ensures ok <==> Closed(s)
    ensures ok ==> nav == nav0 + Nav(s) && bp == bp0 + Bp(s)
  {
    hide Nav, Bp, NavFrom, BpFrom, Run, Ones, Zeros;
    ScanNothing(s);
    nav, bp := nav0, bp0;
    var escaped := false;
    var json := 0;
    while json != |s|
      invariant 0 <= json <= |s|
      invariant !escaped && Closed(s[..json])
      invariant nav == nav0 + Nav(s[..json]) && bp == bp0 + Bp(s[..json])
      decreases |s| - json
    {
      var c := s[json];
      ScanOne(s, json);
      if c == '[' || c == '{' {
        nav := nav + [true];
        bp := bp + [true];
        bp := bp + [true];
      } else if c == '}' || c == ']' {
        nav := nav + [true];
        bp := bp + [false];
        bp := bp + [false];
      } else if c == ',' || c == ':' {
        nav := nav + [true];
        bp := bp + [false];
        bp := bp + [true];
      } else if c == '"' {
        var first := json;
        json := json + 1;
        ZerosGrow(nav, 0);
        while true
          invariant first < json <= |s|
          invariant Run(Outside, s[..json]) == if escaped then Escaped else InString
          invariant nav0 + Nav(s[..json]) == nav + Zeros(json - first)
          invariant bp == bp0 + Bp(s[..json])
          decreases |s| - json
        {
          if json == |s| {
            assert s[..json] == s;
            return false, nav, bp;
          }
          ScanOne(s, json);
          ZerosGrow(nav, json - first);
          if escaped {
            escaped := false;
          } else {
            if s[json] == '"' {
              break;
            }
            escaped := s[json] == '\\';
          }
          json := json + 1;
        }
        nav := nav + Zeros(json - first + 1);
      } else {
        nav := nav + [false];
      }
      json := json + 1;
    }
    assert s[..json] == s;
    ok := true;
  }

  /**
   The constructor. It throws exactly when some text has an unterminated literal;
   otherwise the vectors are those of the concatenated collection.
   */
  method Build(texts: seq<string>) returns (r: Outcome)
    ensures r.Built? <==> AllClosed(texts)
    ensures r.Built? ==> r.index == SemiIndex(Nav(Flatten(texts)), Bp(Flatten(texts)))
  {
    var nav, bp := [], [];
    for i := 0 to |texts|
      invariant AllClosed(texts[..i])
      invariant nav == Nav(Flatten(texts[..i])) && bp == Bp(Flatten(texts[..i]))
    {
      var ok;
      ok, nav, bp := ScanText(texts[i], nav, bp);
      if !ok {
        return UnterminatedLiteral;
      }
      FlattenClosed(texts[..i]);
      assert texts[..i+1][..i] == texts[..i];
      ClosedConcat(Flatten(texts[..i]), texts[i]);
    }
    assert texts[..|texts|] == texts;
    r := Built(SemiIndex(nav, bp));
  }
}
