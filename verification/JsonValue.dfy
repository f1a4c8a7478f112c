/** The values of the JSON library: a tagged tree, with object members kept in name order. */
module JsonValue {
  datatype Value =
    | Null
    | Boolean(b: bool)
    | Int(i: int)
    | UInt(u: int)
    | Real(r: real)
    | String(s: string)
    | Array(items: seq<Value>)
    | Object(members: seq<(string, Value)>)

  const MAX_INT: int := 0x7FFF_FFFF
  const MIN_INT: int := -0x8000_0000
  const MAX_UINT: int := 0xFFFF_FFFF

  /** The order of member names: that of strcmp. */
  predicate Less(a: string, b: string) {
    b != "" && (a == "" || a[0] < b[0] || (a[0] == b[0] && Less(a[1..], b[1..])))
  }

  predicate ProperPrefix(a: string, b: string) { |a| < |b| && a == b[..|a|] }

  /** The two first differ at `k`, and `a` has the lower character there. */
  predicate LowerAt(a: string, b: string, k: nat) {
    k < |a| && k < |b| && a[..k] == b[..k] && a[k] < b[k]
  }

  lemma LowerStep(c: char, a: string, b: string, k: nat)
    ensures LowerAt([c] + a, [c] + b, k + 1) <==> LowerAt(a, b, k)
    ensures ProperPrefix([c] + a, [c] + b) <==> ProperPrefix(a, b)
  {
    var a', b' := [c] + a, [c] + b;
    if k < |a| && k < |b| {
      assert a'[..k+1] == [c] + a[..k] && b'[..k+1] == [c] + b[..k];
      assert a'[..k+1][1..] == a[..k] && b'[..k+1][1..] == b[..k];
    }
    if |a| < |b| {
      assert b'[..|a'|] == [c] + b[..|a|];
      assert a'[1..] == a && b'[..|a'|][1..] == b[..|a|];
    }
  }

  /** A name precedes another exactly if it is a proper prefix of it or is lower where they first differ. */
  lemma {:induction false} LessMeaning(a: string, b: string)
    ensures Less(a, b) <==> ProperPrefix(a, b) || exists k: nat :: LowerAt(a, b, k)
  {
    if a != "" && b != "" && a[0] == b[0] {
      var a', b' := a[1..], b[1..];
      assert a == [a[0]] + a' && b == [a[0]] + b';
      LessMeaning(a', b');
      LowerStep(a[0], a', b', 0);
      if k: nat :| LowerAt(a', b', k) {
        LowerStep(a[0], a', b', k);
      }
      if k: nat :| LowerAt(a, b, k) {
        LowerStep(a[0], a', b', k - 1);
      }
    } else if a != "" && b != "" {
      assert LowerAt(a, b, 0) <==> a[0] < b[0];
      assert |a| < |b| ==> b[..|a|][0] == b[0];
      forall k: nat | 0 < k < |a| && k < |b|
        ensures !LowerAt(a, b, k)
      {
        assert a[..k][0] == a[0] && b[..k][0] == b[0];
      }
    }
  }

  predicate Ordered(members: seq<(string, Value)>) {
    forall i, j | 0 <= i < j < |members| :: Less(members[i].0, members[j].0)
  }

  lemma {:induction false} LessIrreflexive(a: string)
    ensures !Less(a, a)
  {
    if a != "" {
      LessIrreflexive(a[1..]);
    }
  }

  lemma {:induction false} LessTotal(a: string, b: string)
    ensures a == b || Less(a, b) || Less(b, a)
  {
    if a != "" && b != "" && a[0] == b[0] {
      LessTotal(a[1..], b[1..]);
      assert a == [a[0]] + a[1..] && b == [b[0]] + b[1..];
    }
  }

  lemma {:induction false} LessTransitive(a: string, b: string, c: string)
    requires Less(a, b) && Less(b, c)
    ensures Less(a, c)
  {
    if a != "" && a[0] == b[0] && b[0] == c[0] {
      LessTransitive(a[1..], b[1..], c[1..]);
    }
  }

  /** The member's value, or null: what `operator[]` refers to before it is assigned. */
  function Get(members: seq<(string, Value)>, name: string): Value {
    if members == [] then Null
    else if members[0].0 == name then members[0].1
    else Get(members[1..], name)
  }

  /** Assigning through `operator[]`: replace in place, or insert at the lower bound. */
  function Put(members: seq<(string, Value)>, name: string, v: Value): seq<(string, Value)> {
    if members == [] then [(name, v)]
    else if Less(members[0].0, name) then [members[0]] + Put(members[1..], name, v)
    else if members[0].0 == name then [(name, v)] + members[1..]
    else [(name, v)] + members
  }

  lemma {:induction false} PutNames(members: seq<(string, Value)>, name: string, v: Value)
    ensures forall m | m in Put(members, name, v) :: m.0 == name || m in members
  {
    if members != [] {
      PutNames(members[1..], name, v);
      assert forall m | m in members[1..] :: m in members;
    }
  }

  /** Assigning one member leaves the others as they were. */
  lemma {:induction false} PutOthers(members: seq<(string, Value)>, name: string, v: Value, other: string)
    requires other != name
    ensures Get(Put(members, name, v), other) == Get(members, other)
  {
    if members != [] {
      PutOthers(members[1..], name, v, other);
      assert ([members[0]] + Put(members[1..], name, v))[1..] == Put(members[1..], name, v);
      assert ([(name, v)] + members[1..])[1..] == members[1..];
      assert ([(name, v)] + members)[1..] == members;
    } else {
      assert [(name, v)][1..] == [];
    }
  }

  lemma OrderedCons(m: (string, Value), rest: seq<(string, Value)>)
    ensures Ordered([m] + rest) <==> Ordered(rest) && forall x | x in rest :: Less(m.0, x.0)
  {
    var r := [m] + rest;
    assert r[1..] == rest;
    if Ordered(r) {
      forall i, j | 0 <= i < j < |rest|
        ensures Less(rest[i].0, rest[j].0)
      {
        assert r[i+1] == rest[i] && r[j+1] == rest[j];
      }
      forall x | x in rest
        ensures Less(m.0, x.0)
      {
        var j :| 0 <= j < |rest| && rest[j] == x;
        assert r[0] == m && r[j+1] == x;
      }
    }
  }

  /** Assignment keeps the members in order, and is what a later lookup sees. */
  lemma {:induction false} PutOrdered(members: seq<(string, Value)>, name: string, v: Value)
    requires Ordered(members)
    ensures Ordered(Put(members, name, v)) && Get(Put(members, name, v), name) == v
  {
    if members == [] {
      assert Put(members, name, v)[0] == (name, v);
    } else {
      hide Ordered;
      var m, rest := members[0], members[1..];
      assert members == [m] + rest;
      OrderedCons(m, rest);
      LessTotal(m.0, name);
      if Less(m.0, name) {
        LessIrreflexive(name);
        PutOrdered(rest, name, v);
        PutNames(rest, name, v);
        OrderedCons(m, Put(rest, name, v));
        assert ([m] + Put(rest, name, v))[1..] == Put(rest, name, v);
      } else if m.0 == name {
        OrderedCons((name, v), rest);
      } else {
        forall x | x in members
          ensures Less(name, x.0)
        {
          if x != m {
            assert x in rest;
            LessTransitive(name, m.0, x.0);
          }
        }
        OrderedCons((name, v), members);
      }
    }
  }

  /** A name above all others goes to the end. */
  lemma {:induction false} PutLast(members: seq<(string, Value)>, name: string, v: Value)
    requires forall m | m in members :: Less(m.0, name)
    ensures Put(members, name, v) == members + [(name, v)]
  {
    if members != [] {
      assert members[0] in members;
      PutLast(members[1..], name, v);
    }
  }
}
