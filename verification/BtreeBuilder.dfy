/**
 Building an index bottom up from a run of keys: buckets are filled one after the other,
 then each level gives the last key of every bucket to the level above.
 */
module BtreeBuilder {
  import opened Bucket

  /** A bucket with what hangs below it: keys are put in and taken out at the back. */
  datatype Node = Nil | Node(items: Items, next: Node)
  datatype Items = Empty | Snoc(init: Items, last: Item)
  datatype Item = Item(child: Node, key: Key, rec: int)

  function ItemCost(x: Item): int { x.key.size + KEY_NODE }

  function Used(items: Items): int {
    match items
    case Empty => 0
    case Snoc(init, x) => Used(init) + ItemCost(x)
  }

  // ---- The entries below a bucket, in order ----

  function InOrder(t: Node): seq<Entry> {
    match t
    case Nil => []
    case Node(items, next) => Walk(items) + InOrder(next)
  }

  function Walk(items: Items): seq<Entry> {
    match items
    case Empty => []
    case Snoc(init, x) => Walk(init) + InOrder(x.child) + [Entry(x.key.ord, x.rec)]
  }

  /** The entries of a chain of buckets. */
  function Listing(level: seq<Node>): seq<Entry> {
    if level == [] then [] else Listing(level[..|level|-1]) + InOrder(level[|level|-1])
  }

  lemma ListingPush(level: seq<Node>, t: Node)
    ensures Listing(level + [t]) == Listing(level) + InOrder(t)
  {
    assert (level + [t])[..|level|] == level;
  }

  // ---- Sound buckets ----

  /** Every bucket at and below has keys, no more than fit, and keys within the limit. */
  predicate Sound(t: Node, most: int) {
    match t
    case Nil => true
    case Node(items, next) => items != Empty && Used(items) <= BODY && AllSound(items, most) && Sound(next, most)
  }

  predicate AllSound(items: Items, most: int) {
    match items
    case Empty => true
    case Snoc(init, x) => AllSound(init, most) && 1 <= x.key.size <= most && Sound(x.child, most)
  }

  /** A bucket of a chain that is still being built: nothing hangs to the right of its last key. */
  predicate Open(t: Node, most: int) { HasLast(t) && t.next == Nil && Sound(t, most) }

  predicate Level(level: seq<Node>, most: int) {
    forall i | 0 <= i < |level| :: Open(level[i], most)
  }

  lemma {:induction false} UsedPositive(items: Items, most: int)
    requires AllSound(items, most)
    ensures Used(items) >= 0 && (items != Empty ==> Used(items) > KEY_NODE)
  {
    if items.Snoc? {
      UsedPositive(items.init, most);
    }
  }

  // ---- One level up ----

  /** A bucket with a key in it. */
  predicate HasLast(t: Node) { t.Node? && t.items.Snoc? }

  /** What a bucket gives to the level above: its last key, with all the rest to the left of it. */
  function Popped(x: Node): Item
    requires HasLast(x)
  {
    var last, rest := x.items.last, x.items.init;
    Item(if rest == Empty then last.child else Node(rest, last.child), last.key, last.rec)
  }

  function Single(x: Item): Node { Node(Snoc(Empty, x), Nil) }

  /** Puts a key behind the last one of a chain, in a new bucket if the last one is full. */
  function Push(up: seq<Node>, x: Item): seq<Node>
    requires up != [] && up[|up|-1].Node?
  {
    var last := up[|up|-1];
    if Used(last.items) + ItemCost(x) <= BODY
    then up[|up|-1 := last.(items := Snoc(last.items, x))]
    else up + [Single(x)]
  }

  /** The level above the first `k` buckets. */
  function Raised(level: seq<Node>, k: nat): (up: seq<Node>)
    requires k <= |level| && forall i | 0 <= i < |level| :: HasLast(level[i])
    ensures up != [] && up[|up|-1].Node?
  {
    if k == 0 then [Node(Empty, Nil)] else Push(Raised(level, k - 1), Popped(level[k-1]))
  }

  /** Popping the last key of a bucket whose right end is free moves nothing in the order. */
  lemma PoppedInOrder(x: Node, most: int)
    requires Open(x, most)
    ensures HasLast(x) && InOrder(x) == InOrder(Popped(x).child) + [Entry(Popped(x).key.ord, Popped(x).rec)]
    ensures SoundItem(Popped(x), most)
  {
    assert AllSound(x.items, most);
    UsedPositive(x.items.init, most);
    assert InOrder(Nil) == [];
    assert InOrder(x) == Walk(x.items) + [];
  }

  predicate SoundItem(x: Item, most: int) { Sound(x.child, most) && 1 <= x.key.size <= most && ItemCost(x) <= BODY }

  /** The chain so far: all but perhaps the very first empty bucket are in order. */
  predicate Rising(up: seq<Node>, most: int) {
    up == [Node(Empty, Nil)] || Level(up, most)
  }

  lemma PushedLast(last: Node, x: Item, most: int)
    requires (last == Node(Empty, Nil) || Open(last, most)) && SoundItem(x, most)
    ensures Used(last.items) + ItemCost(x) <= BODY ==> Open(last.(items := Snoc(last.items, x)), most)
    ensures InOrder(last.(items := Snoc(last.items, x))) == InOrder(last) + InOrder(x.child) + [Entry(x.key.ord, x.rec)]
    ensures Open(Single(x), most) && InOrder(Single(x)) == InOrder(x.child) + [Entry(x.key.ord, x.rec)]
  {
    hide InOrder, Walk;
    PushedInOrder(last.items, x);
    PushedInOrder(Empty, x);
    SnocSound(last.items, x, most);
    SnocSound(Empty, x, most);
    assert Sound(Nil, most) && Used(Empty) == 0 && AllSound(Empty, most);
    assert Single(x) == Node(Snoc(Empty, x), Nil);
  }

  lemma SnocSound(items: Items, x: Item, most: int)
    requires SoundItem(x, most)
    ensures AllSound(Snoc(items, x), most) <==> AllSound(items, most)
    ensures Used(Snoc(items, x)) == Used(items) + ItemCost(x)
  {
  }

  lemma InOrderOpen(items: Items)
    ensures InOrder(Node(items, Nil)) == Walk(items)
  {
    hide Walk;
    assert InOrder(Nil) == [];
    assert Walk(items) + [] == Walk(items);
  }

  lemma WalkSnoc(items: Items, x: Item)
    ensures Walk(Snoc(items, x)) == Walk(items) + InOrder(x.child) + [Entry(x.key.ord, x.rec)]
    ensures Walk(Empty) == []
  {
  }

  lemma PushedInOrder(items: Items, x: Item)
    ensures InOrder(Node(Snoc(items, x), Nil)) == InOrder(Node(items, Nil)) + InOrder(x.child) +
              [Entry(x.key.ord, x.rec)]
    ensures items == Empty ==> InOrder(Node(Snoc(items, x), Nil)) == InOrder(x.child) + [Entry(x.key.ord, x.rec)]
  {
    hide InOrder, Walk;
    InOrderOpen(items);
    InOrderOpen(Snoc(items, x));
    WalkSnoc(items, x);
    assert [] + InOrder(x.child) == InOrder(x.child);
  }

  lemma PushKeeps(up: seq<Node>, x: Item, most: int)
    requires Rising(up, most) && up != [] && up[|up|-1].Node? && SoundItem(x, most)
    ensures Push(up, x) != [] && Level(Push(up, x), most)
    ensures Listing(Push(up, x)) == Listing(up) + InOrder(x.child) + [Entry(x.key.ord, x.rec)]
  {
    hide Sound, Used, InOrder, Listing, Open, Level, SoundItem, Push;
    var front, last := up[..|up|-1], up[|up|-1];
    PushIs(up, x);
    FrontLevel(up, most);
    PushedLast(last, x, most);
    if Used(last.items) + ItemCost(x) <= BODY {
      var last' := last.(items := Snoc(last.items, x));
      LevelPush(front, last', most);
      ListingPush(front, last');
      ListingPush(front, last);
      Regroup(Listing(front), InOrder(last), InOrder(x.child), [Entry(x.key.ord, x.rec)]);
    } else {
      if up == [Node(Empty, Nil)] {
        EmptyHasRoom(x, most);
      }
      LevelPush(up, Single(x), most);
      ListingPush(up, Single(x));
      Regroup([], Listing(up), InOrder(x.child), [Entry(x.key.ord, x.rec)]);
    }
  }

  // ---- The keys below a bucket, with their sizes ----

  function SizedItem(x: Item): Sized { Sized(Entry(x.key.ord, x.rec), x.key.size) }

  function KeySet(t: Node): set<Sized> {
    match t
    case Nil => {}
    case Node(items, next) => ItemSet(items) + KeySet(next)
  }

  function ItemSet(items: Items): set<Sized> {
    match items
    case Empty => {}
    case Snoc(init, x) => ItemSet(init) + KeySet(x.child) + {SizedItem(x)}
  }

  /** The keys of a chain of buckets. */
  function LevelKeys(level: seq<Node>): set<Sized> {
    if level == [] then {} else LevelKeys(level[..|level|-1]) + KeySet(level[|level|-1])
  }

  lemma LevelKeysPush(level: seq<Node>, t: Node)
    ensures LevelKeys(level + [t]) == LevelKeys(level) + KeySet(t)
  {
    assert (level + [t])[..|level|] == level;
  }

  lemma NoKeys()
    ensures LevelKeys([]) == {} && KeySet(Node(Empty, Nil)) == {} && LevelKeys([Node(Empty, Nil)]) == {}
  {
    LevelKeysPush([], Node(Empty, Nil));
    assert [] + [Node(Empty, Nil)] == [Node(Empty, Nil)];
  }

  /** Popping loses no key and changes none. */
  lemma PoppedKeys(x: Node)
    requires HasLast(x) && x.next == Nil
    ensures KeySet(x) == KeySet(Popped(x).child) + {SizedItem(Popped(x))}
  {
    assert KeySet(Nil) == {} && ItemSet(Empty) == {};
    assert KeySet(x) == ItemSet(x.items.init) + KeySet(x.items.last.child) + {SizedItem(x.items.last)};
  }

  lemma PushKeys(up: seq<Node>, x: Item)
    requires up != [] && up[|up|-1].Node?
    ensures LevelKeys(Push(up, x)) == LevelKeys(up) + KeySet(x.child) + {SizedItem(x)}
  {
    hide Used, Push, LevelKeys;
    var front, last := up[..|up|-1], up[|up|-1];
    PushIs(up, x);
    LevelKeysPush(front, last);
    LevelKeysPush(front, last.(items := Snoc(last.items, x)));
    LevelKeysPush(up, Single(x));
    assert KeySet(Nil) == {} && ItemSet(Empty) == {};
  }

  /** A level holds the keys of the one below, none lost and none changed. */
  lemma {:induction false} RaisedKeys(level: seq<Node>, k: nat, most: int)
    requires k <= |level| && Level(level, most) && forall i | 0 <= i < |level| :: HasLast(level[i])
    ensures LevelKeys(Raised(level, k)) == LevelKeys(level[..k])
  {
    hide Sound, Used, Popped, Push, LevelKeys, KeySet;
    NoKeys();
    if k == 0 {
      assert level[..0] == [];
    } else {
      RaisedKeys(level, k - 1, most);
      assert Open(level[k-1], most);
      PoppedKeys(level[k-1]);
      PushKeys(Raised(level, k - 1), Popped(level[k-1]));
      assert level[..k] == level[..k-1] + [level[k-1]];
      LevelKeysPush(level[..k-1], level[k-1]);
    }
  }

  lemma PushIs(up: seq<Node>, x: Item)
    requires up != [] && up[|up|-1].Node?
    ensures var last, front := up[|up|-1], up[..|up|-1];
            && up == front + [last]
            && Push(up, x) == if Used(last.items) + ItemCost(x) <= BODY
               then front + [last.(items := Snoc(last.items, x))] else up + [Single(x)]
  {
  }

  lemma Regroup(a: seq<Entry>, b: seq<Entry>, c: seq<Entry>, d: seq<Entry>)
    ensures a + (b + c + d) == (a + b) + c + d && b + (c + d) == b + c + d
  {
  }

  lemma EmptyHasRoom(x: Item, most: int)
    requires SoundItem(x, most)
    ensures Used(Empty) + ItemCost(x) <= BODY
  {
  }

  lemma LevelPush(front: seq<Node>, t: Node, most: int)
    requires Level(front, most) && Open(t, most)
    ensures Level(front + [t], most)
  {
    hide Open;
  }

  lemma FrontLevel(up: seq<Node>, most: int)
    requires Rising(up, most) && up != []
    ensures Level(up[..|up|-1], most) && (up[|up|-1] == Node(Empty, Nil) || Open(up[|up|-1], most))
  {
    hide Open;
  }

  /** A level holds exactly the entries of the one below, in the same order, in sound buckets. */
  lemma {:induction false} RaisedKeeps(level: seq<Node>, k: nat, most: int)
    requires k <= |level| && Level(level, most)
    ensures Rising(Raised(level, k), most) && Listing(Raised(level, k)) == Listing(level[..k])
    ensures k > 0 ==> Level(Raised(level, k), most)
  {
    hide Sound, Used, InOrder, Listing, Popped, Push;
    HaveLast(level, most);
    if k == 0 {
      NothingListed();
      assert level[..0] == [];
    } else {
      RaisedKeeps(level, k - 1, most);
      PoppedInOrder(level[k-1], most);
      PushKeeps(Raised(level, k - 1), Popped(level[k-1]), most);
      assert level[..k] == level[..k-1] + [level[k-1]];
      ListingPush(level[..k-1], level[k-1]);
    }
  }

  lemma NothingListed()
    ensures Listing([]) == [] && Listing([Node(Empty, Nil)]) == []
  {
  }

  lemma HaveLast(level: seq<Node>, most: int)
    requires Level(level, most)
    ensures forall i | 0 <= i < |level| :: HasLast(level[i])
  {
    forall i | 0 <= i < |level|
      ensures HasLast(level[i])
    {
      assert Open(level[i], most);
    }
  }

  // ---- Does a level shrink? ----

  /** The last keys of buckets `i` and `i + 1` fit into one bucket. */
  predicate FitTogether(level: seq<Node>, i: nat)
    requires i + 1 < |level| && forall j | 0 <= j < |level| :: HasLast(level[j])
  {
    ItemCost(Popped(level[i])) + ItemCost(Popped(level[i+1])) <= BODY
  }

  /** No two neighbours fit together. */
  predicate Stuck(level: seq<Node>, k: nat)
    requires k <= |level| && forall j | 0 <= j < |level| :: HasLast(level[j])
  {
    forall i | 0 <= i < k - 1 :: !FitTogether(level, i)
  }

  lemma {:induction false} RaisedCount(level: seq<Node>, k: nat, most: int)
    requires 1 <= k <= |level| && Level(level, most)
    ensures |Raised(level, k)| <= k
    ensures |Raised(level, k)| < k <==> !Stuck(level, k)
    ensures Stuck(level, k) ==> forall i | 0 <= i < k :: Raised(level, k)[i] == Single(Popped(level[i]))
    decreases k
  {
    hide Sound, InOrder, Popped, Open;
    HaveLast(level, most);
    var x := Popped(level[k-1]);
    PoppedInOrder(level[k-1], most);
    if k == 1 {
      assert Raised(level, 0) == [Node(Empty, Nil)];
    } else {
      RaisedCount(level, k - 1, most);
      var up := Raised(level, k - 1);
      assert Stuck(level, k) <==> Stuck(level, k - 1) && !FitTogether(level, k - 2);
      if Stuck(level, k - 1) {
        assert up[k-2] == Single(Popped(level[k-2]));
        SingleUsed(Popped(level[k-2]));
      }
    }
  }

  lemma SingleUsed(x: Item)
    ensures Used(Single(x).items) == ItemCost(x)
  {
    assert Used(Empty) == 0;
  }

  /** With keys within the limit, several buckets always become fewer. */
  lemma LevelShrinks(level: seq<Node>)
    requires |level| > 1 && Level(level, KEY_MAX)
    ensures |Raised(level, |level|)| < |level|
  {
    RaisedCount(level, |level|, KEY_MAX);
    PoppedInOrder(level[0], KEY_MAX);
    PoppedInOrder(level[1], KEY_MAX);
    assert FitTogether(level, 0);
  }

  /** A level that does not shrink is repeated for ever: the next one has the same last keys. */
  lemma StuckStays(level: seq<Node>, most: int)
    requires level != [] && Level(level, most) && Stuck(level, |level|)
    ensures var up := Raised(level, |level|);
            |up| == |level| && Level(up, most) && Stuck(up, |up|)
  {
    var n := |level|;
    RaisedKeeps(level, n, most);
    RaisedCount(level, n, most);
    var up := Raised(level, n);
    forall i | 0 <= i < n
      ensures Popped(up[i]).key == Popped(level[i]).key
    {
      assert up[i] == Single(Popped(level[i]));
    }
    forall i | 0 <= i < n - 1
      ensures !FitTogether(up, i)
    {
      assert !FitTogether(level, i);
    }
  }

  /** The level reached after `steps` levels. */
  ghost function Levels(level: seq<Node>, steps: nat): (up: seq<Node>)
    requires level != [] && Level(level, BODY)
    ensures up != [] && Level(up, BODY)
  {
    if steps == 0 then level
    else
      var below := Levels(level, steps - 1);
      RaisedKeeps(below, |below|, BODY);
      Raised(below, |below|)
  }

  /** So building never ends from there. */
  lemma {:induction false} StuckForever(level: seq<Node>, steps: nat)
    requires |level| > 1 && Level(level, BODY) && Stuck(level, |level|)
    ensures var up := Levels(level, steps);
            |up| == |level| && Stuck(up, |up|)
    decreases steps
  {
    if steps > 0 {
      StuckForever(level, steps - 1);
      StuckStays(Levels(level, steps - 1), BODY);
    }
  }

  // ---- When building ends ----

  /** Some level has a single bucket. */
  ghost predicate Ends(level: seq<Node>)
    requires level != [] && Level(level, BODY)
  {
    exists steps: nat :: |Levels(level, steps)| == 1
  }

  /** No level with several buckets is stuck; as levels shrink, only so many need to be looked at. */
  ghost predicate NeverStuck(level: seq<Node>)
    requires level != [] && Level(level, BODY)
  {
    forall steps: nat | steps < |level| ::
      var up := Levels(level, steps); |up| > 1 ==> !Stuck(up, |up|)
  }

  lemma {:induction false} LevelsAdd(level: seq<Node>, a: nat, b: nat)
    requires level != [] && Level(level, BODY)
    ensures Levels(Levels(level, a), b) == Levels(level, a + b)
    decreases b
  {
    hide Level, Raised;
    if b > 0 {
      LevelsAdd(level, a, b - 1);
    }
  }

  /** A level that is not stuck has at least one bucket less. */
  lemma LevelsShrink(level: seq<Node>, steps: nat)
    requires level != [] && Level(level, BODY)
    ensures var up, next := Levels(level, steps), Levels(level, steps + 1);
            |next| <= |up| && (|up| > 1 && !Stuck(up, |up|) ==> |next| < |up|)
  {
    hide Level, Raised, Stuck;
    var up := Levels(level, steps);
    HaveLast(up, BODY);
    RaisedCount(up, |up|, BODY);
  }

  lemma {:induction false} NeverStuckCounts(level: seq<Node>, steps: nat)
    requires level != [] && Level(level, BODY) && NeverStuck(level) && steps < |level|
    ensures |Levels(level, steps)| <= |level| - steps
    decreases steps
  {
    hide Level, Stuck;
    if steps > 0 {
      NeverStuckCounts(level, steps - 1);
      LevelsShrink(level, steps - 1);
    }
  }

  /** Building ends if and only if no level with several buckets is stuck. */
  lemma EndsExactly(level: seq<Node>)
    requires level != [] && Level(level, BODY)
    ensures Ends(level) <==> NeverStuck(level)
  {
    hide Sound, Levels, Stuck;
    if NeverStuck(level) {
      NeverStuckCounts(level, |level| - 1);
    }
    if Ends(level) {
      var last: nat :| |Levels(level, last)| == 1;
      forall steps: nat | steps < |level|
        ensures var up := Levels(level, steps); |up| > 1 ==> !Stuck(up, |up|)
      {
        NotStuckBefore(level, steps, last);
      }
    }
  }

  lemma NotStuckBefore(level: seq<Node>, steps: nat, last: nat)
    requires level != [] && Level(level, BODY) && |Levels(level, last)| == 1
    ensures var up := Levels(level, steps); |up| > 1 ==> !Stuck(up, |up|)
  {
    hide Sound, Levels, Stuck;
    var up := Levels(level, steps);
    if steps <= last {
      LevelsAdd(level, steps, last - steps);
      if |up| > 1 && Stuck(up, |up|) {
        StuckForever(up, last - steps);
      }
    } else {
      LevelsAdd(level, last, steps - last);
      OneStays(Levels(level, last), steps - last);
    }
  }

  lemma {:induction false} OneStays(level: seq<Node>, steps: nat)
    requires |level| == 1 && Level(level, BODY)
    ensures |Levels(level, steps)| == 1
    decreases steps
  {
    hide Level, Stuck;
    if steps > 0 {
      OneStays(level, steps - 1);
      LevelsShrink(level, steps - 1);
    }
  }

  // ---- Keys within the limit ----

  lemma {:induction false} SoundMore(t: Node, most: int, more: int)
    requires Sound(t, most) && most <= more
    ensures Sound(t, more)
    decreases t
  {
    if t.Node? {
      AllSoundMore(t.items, most, more);
      SoundMore(t.next, most, more);
    }
  }

  lemma {:induction false} AllSoundMore(items: Items, most: int, more: int)
    requires AllSound(items, most) && most <= more
    ensures AllSound(items, more)
    decreases items
  {
    if items.Snoc? {
      AllSoundMore(items.init, most, more);
      SoundMore(items.last.child, most, more);
    }
  }

  lemma LevelMore(level: seq<Node>)
    requires Level(level, KEY_MAX)
    ensures Level(level, BODY)
  {
    hide Sound;
    forall i | 0 <= i < |level|
      ensures Open(level[i], BODY)
    {
      assert Open(level[i], KEY_MAX);
      SoundMore(level[i], KEY_MAX, BODY);
    }
  }

  lemma {:induction false} LevelsWithin(level: seq<Node>, steps: nat)
    requires level != [] && Level(level, KEY_MAX)
    ensures Level(level, BODY) && Level(Levels(level, steps), KEY_MAX)
    decreases steps
  {
    hide Open;
    LevelMore(level);
    if steps > 0 {
      LevelsWithin(level, steps - 1);
      var below := Levels(level, steps - 1);
      RaisedKeeps(below, |below|, KEY_MAX);
    }
  }

  /** With keys within the limit, building always ends. */
  lemma LimitNeverStuck(level: seq<Node>)
    requires level != [] && Level(level, KEY_MAX)
    ensures Level(level, BODY) && NeverStuck(level)
  {
    hide Sound, Levels, Stuck;
    LevelMore(level);
    forall steps: nat | steps < |level|
      ensures var up := Levels(level, steps); |up| > 1 ==> !Stuck(up, |up|)
    {
      LevelsWithin(level, steps);
      var up := Levels(level, steps);
      if |up| > 1 {
        LevelShrinks(up);
        HaveLast(up, KEY_MAX);
        RaisedCount(up, |up|, KEY_MAX);
      }
    }
  }

  // ---- The builder ----

  datatype Outcome = Added | Skipped | Duplicate | BadOrder

  /** The keys added so far, of `n` offered the last of which is `last`, strictly increase. */
  predicate Climbing(added: seq<Entry>, n: nat, last: int) {
    && Ascending(added)
    && (if n == 0 then added == [] else forall i | 0 <= i < |added| :: added[i].ord <= last)
  }

  lemma ClimbsOn(added: seq<Entry>, n: nat, last: int, e: Entry)
    requires Climbing(added, n, last) && (n > 0 ==> last < e.ord)
    ensures Climbing(added + [e], n + 1, e.ord) && Climbing(added, n + 1, e.ord)
  {
  }

  predicate Ascending(added: seq<Entry>) { forall i, j | 0 <= i < j < |added| :: added[i].ord < added[j].ord }

  predicate FitsLast(chain: seq<Node>, key: Key)
    requires chain != [] && chain[|chain|-1].Node?
  {
    Used(chain[|chain|-1].items) + key.size + KEY_NODE <= BODY
  }

  /** The chain after a key has been added: one over the limit is left out only if there is no room for it. */
  function Extended(chain: seq<Node>, key: Key, rec: int): seq<Node>
    requires chain != [] && chain[|chain|-1].Node?
  {
    if FitsLast(chain, key) || key.size <= KEY_MAX then Push(chain, Item(Nil, key, rec)) else chain
  }

  class Builder {
    const dupsAllowed: bool
    var chain: seq<Node>
    var n: nat
    var keyLast: int

    ghost predicate Valid()
      reads this
    {
      chain != [] && Rising(chain, BODY) && (!dupsAllowed ==> Climbing(Listing(chain), n, keyLast))
    }

    constructor (dupsAllowed: bool)
      ensures Valid() && chain == [Node(Empty, Nil)] && Listing(chain) == [] && n == 0
              && this.dupsAllowed == dupsAllowed
    {
      this.dupsAllowed := dupsAllowed;
      chain := [Node(Empty, Nil)];
      n := 0;
      keyLast := 0;
      new;
      NothingListed();
    }

    /** Adds the next key of a run. */
    method AddKey(key: Key, rec: int) returns (out: Outcome)
      requires Valid() && 1 <= key.size
      modifies this
      ensures Valid()
      ensures out == Added ==>
                chain == Extended(old(chain), key, rec) && Listing(chain) == old(Listing(chain)) + [Entry(key.ord, rec)]
      ensures out != Added ==> chain == old(chain)
      ensures out == Duplicate <==> !dupsAllowed && old(n) > 0 && key.ord == old(keyLast)
      ensures out == Skipped ==> key.size > KEY_MAX && !FitsLast(old(chain), key)
      ensures out == Added ==> key.size <= KEY_MAX || FitsLast(old(chain), key)
      ensures out == BadOrder <==>
              || (!dupsAllowed && old(n) > 0 && key.ord < old(keyLast))
              || (out != Duplicate && FitsLast(old(chain), key) && var last := old(chain)[|old(chain)|-1];
                  last.items.Snoc? && key.ord < last.items.last.key.ord)
      ensures !dupsAllowed ==> Ascending(Listing(chain))
      ensures n == old(n) + if out == Added || out == Skipped then 1 else 0
      ensures keyLast == if (out == Added || out == Skipped) && !dupsAllowed then key.ord else old(keyLast)
      ensures InTurn(old(Listing(chain)), key, dupsAllowed || old(n) == 0 || old(keyLast) < key.ord) ==>
                chain == Extended(old(chain), key, rec) && (out == Added || out == Skipped)
      ensures old(Rising(chain, KEY_MAX)) && key.size <= KEY_MAX ==> Rising(chain, KEY_MAX)
    {
      hide Sound, Used, InOrder, Listing, Ascending;
      if !dupsAllowed {
        if n > 0 {
          if keyLast > key.ord {
            return BadOrder;
          }
          if keyLast == key.ord {
            return Duplicate;
          }
        }
      }
      var last := chain[|chain|-1];
      var x := Item(Nil, key, rec);
      if !dupsAllowed {
        ClimbsOn(Listing(chain), n, keyLast, Entry(key.ord, rec));
      }
      if Used(last.items) + key.size + KEY_NODE <= BODY {
        if last.items.Snoc? && last.items.last.key.ord > key.ord {
          LastListed(chain);
          return BadOrder;
        }
        LeafSound(chain, x);
        PushKeeps(chain, x, BODY);
        PushWithin(chain, x);
        chain := chain[|chain|-1 := last.(items := Snoc(last.items, x))];
        assert Listing(chain) == old(Listing(chain)) + [Entry(key.ord, rec)];
        out := Added;
      } else if key.size > KEY_MAX {
        out := Skipped;
      } else {
        LeafSound(chain, x);
        PushKeeps(chain, x, BODY);
        PushWithin(chain, x);
        chain := chain + [Single(x)];
        assert Listing(chain) == old(Listing(chain)) + [Entry(key.ord, rec)];
        out := Added;
      }
      if !dupsAllowed {
        keyLast := key.ord;
      }
      n := n + 1;
    }

    /** Builds the higher levels: the tree has the keys added, in order. */
    method Commit() returns (root: Node)
      requires Valid() && Builds(chain)
      ensures InOrder(root) == Listing(chain) && KeySet(root) == LevelKeys(chain)
      ensures root == Node(Empty, Nil) || Open(root, BODY)
      ensures Rising(chain, KEY_MAX) ==> root == Node(Empty, Nil) || Open(root, KEY_MAX)
    {
      root := BuildNextLevel(chain);
    }
  }

  /** The key is not below any added so far, and not the last one again where that is refused. */
  predicate InTurn(added: seq<Entry>, key: Key, apart: bool) {
    (forall x | x in added :: x.ord <= key.ord) && apart
  }

  lemma PushWithin(chain: seq<Node>, x: Item)
    requires chain != [] && chain[|chain|-1].Node? && x.child == Nil && 1 <= x.key.size
    ensures Rising(chain, KEY_MAX) && x.key.size <= KEY_MAX ==> Rising(Push(chain, x), KEY_MAX)
  {
    hide InOrder, Listing, Push;
    if Rising(chain, KEY_MAX) && x.key.size <= KEY_MAX {
      assert SoundItem(x, KEY_MAX);
      PushKeeps(chain, x, KEY_MAX);
    }
  }

  lemma LeafSound(chain: seq<Node>, x: Item)
    requires chain != [] && Rising(chain, BODY) && x.child == Nil && 1 <= x.key.size
    requires Used(chain[|chain|-1].items) + ItemCost(x) <= BODY || x.key.size <= KEY_MAX
    ensures SoundItem(x, BODY) && InOrder(x.child) == []
  {
    assert chain[|chain|-1] == Node(Empty, Nil) || Open(chain[|chain|-1], BODY);
    UsedPositive(chain[|chain|-1].items, BODY);
  }

  lemma LastListed(chain: seq<Node>)
    requires chain != [] && chain[|chain|-1].Node? && chain[|chain|-1].items.Snoc?
    ensures var x := chain[|chain|-1].items.last; Entry(x.key.ord, x.rec) in Listing(chain)
  {
    var x := chain[|chain|-1].items.last;
    assert Entry(x.key.ord, x.rec) in Walk(chain[|chain|-1].items);
  }

  /** The higher levels of the chain come to an end. */
  ghost predicate Builds(chain: seq<Node>) {
    |chain| == 1 || (chain != [] && Level(chain, BODY) && NeverStuck(chain))
  }

  /** Level by level, until one bucket is left: it is the root. */
  method BuildNextLevel(first: seq<Node>) returns (root: Node)
    requires first != [] && Rising(first, BODY) && Builds(first)
    ensures InOrder(root) == Listing(first) && KeySet(root) == LevelKeys(first)
    ensures root == Node(Empty, Nil) || Open(root, BODY)
    ensures Rising(first, KEY_MAX) ==> root == Node(Empty, Nil) || Open(root, KEY_MAX)
  {
    hide Sound, Used, InOrder, Listing, Popped, Push, NeverStuck, Stuck, Levels, KeySet, LevelKeys;
    var level := first;
    ghost var steps := 0;
    StartsAt(first);
    while |level| != 1
      invariant level != [] && Rising(level, BODY) && Listing(level) == Listing(first)
      invariant LevelKeys(level) == LevelKeys(first)
      invariant Rising(first, KEY_MAX) ==> Rising(level, KEY_MAX)
      invariant |level| > 1 ==> |first| > 1 && |level| <= |first| - steps && level == Levels(first, steps)
      decreases |level|
    {
      HaveLast(level, BODY);
      var up := [Node(Empty, Nil)];
      for i := 0 to |level|
        invariant up == Raised(level, i)
      {
        up := Push(up, Popped(level[i]));
      }
      NextStep(first, steps);
      RaisedKeeps(level, |level|, BODY);
      RaisedKeys(level, |level|, BODY);
      if Rising(level, KEY_MAX) {
        RaisedKeeps(level, |level|, KEY_MAX);
      }
      assert level[..|level|] == level;
      level := up;
      steps := steps + 1;
    }
    root := level[0];
    OneListed(level);
  }

  lemma StartsAt(first: seq<Node>)
    ensures first != [] && Level(first, BODY) ==> Levels(first, 0) == first
  {
  }

  lemma NextStep(first: seq<Node>, steps: nat)
    requires |first| > 1 && Level(first, BODY) && NeverStuck(first) && steps < |first| && |Levels(first, steps)| > 1
    ensures var level := Levels(first, steps);
            && (forall i | 0 <= i < |level| :: HasLast(level[i]))
            && Levels(first, steps + 1) == Raised(level, |level|) && |Raised(level, |level|)| < |level|
  {
    hide Sound, Stuck, Raised;
    HaveLast(Levels(first, steps), BODY);
    LevelsShrink(first, steps);
  }

  lemma OneListed(level: seq<Node>)
    requires |level| == 1
    ensures Listing(level) == InOrder(level[0]) && LevelKeys(level) == KeySet(level[0])
  {
    assert Listing(level[..0]) == [] && LevelKeys(level[..0]) == {};
  }

  // ---- A whole run ----

  /** The chain of buckets after the first `k` keys of a run. */
  function Chain(run: seq<(Key, int)>, k: nat): (chain: seq<Node>)
    requires k <= |run|
    ensures chain != [] && chain[|chain|-1].Node?
  {
    if k == 0 then [Node(Empty, Nil)] else Extended(Chain(run, k - 1), run[k-1].0, run[k-1].1)
  }

  /** The entries of the first `k` keys, without those over the limit for which there is no room. */
  function Accepted(run: seq<(Key, int)>, k: nat): seq<Entry>
    requires k <= |run|
  {
    if k == 0 then []
    else Accepted(run, k - 1) + if FitsLast(Chain(run, k - 1), run[k-1].0) || run[k-1].0.size <= KEY_MAX
                                then [Entry(run[k-1].0.ord, run[k-1].1)] else []
  }

  function AcceptedKeys(run: seq<(Key, int)>, k: nat): set<Sized>
    requires k <= |run|
  {
    if k == 0 then {}
    else AcceptedKeys(run, k - 1) + if FitsLast(Chain(run, k - 1), run[k-1].0) || run[k-1].0.size <= KEY_MAX
                                    then {SizedIn(run, k - 1)} else {}
  }

  function SizedIn(run: seq<(Key, int)>, i: nat): Sized
    requires i < |run|
  {
    Sized(Entry(run[i].0.ord, run[i].1), run[i].0.size)
  }

  function KeysOf(run: seq<(Key, int)>): set<Sized> { set i | 0 <= i < |run| :: SizedIn(run, i) }

  lemma {:induction false} ChainKeys(run: seq<(Key, int)>, k: nat)
    requires k <= |run|
    ensures LevelKeys(Chain(run, k)) == AcceptedKeys(run, k)
  {
    hide Push, LevelKeys, KeySet, FitsLast;
    NoKeys();
    if k > 0 {
      ChainKeys(run, k - 1);
      PushKeys(Chain(run, k - 1), Item(Nil, run[k-1].0, run[k-1].1));
      NilKeys();
    }
  }

  lemma NilKeys()
    ensures KeySet(Nil) == {}
  {
  }

  lemma {:induction false} AcceptedAll(run: seq<(Key, int)>, k: nat)
    requires k <= |run| && Within(run)
    ensures AcceptedKeys(run, k) == set i | 0 <= i < k :: SizedIn(run, i)
  {
    if k > 0 {
      AcceptedAll(run, k - 1);
    }
  }

  /** A run in key order; keys may repeat where duplicates are allowed. */
  predicate InRun(run: seq<(Key, int)>, dupsAllowed: bool) {
    && (forall i | 0 <= i < |run| :: 1 <= run[i].0.size)
    && (forall i, j | 0 <= i < j < |run| ::
          run[i].0.ord <= run[j].0.ord && (!dupsAllowed ==> run[i].0.ord < run[j].0.ord))
  }

  /** All keys are within the limit. */
  predicate Within(run: seq<(Key, int)>) { forall i | 0 <= i < |run| :: run[i].0.size <= KEY_MAX }

  function EntriesOf(run: seq<(Key, int)>): seq<Entry> {
    seq(|run|, i requires 0 <= i < |run| => Entry(run[i].0.ord, run[i].1))
  }

  /** Nothing of a run within the limit is left out. */
  lemma {:induction false} AcceptedWithin(run: seq<(Key, int)>, k: nat)
    requires k <= |run| && Within(run)
    ensures Accepted(run, k) == EntriesOf(run)[..k]
  {
    if k > 0 {
      AcceptedWithin(run, k - 1);
    }
  }

  lemma {:induction false} AcceptedFrom(run: seq<(Key, int)>, k: nat)
    requires k <= |run|
    ensures forall x | x in Accepted(run, k) :: exists i :: 0 <= i < k && x.ord == run[i].0.ord
  {
    if k > 0 {
      AcceptedFrom(run, k - 1);
    }
  }

  /** The next key of a run is in turn. */
  lemma RunInTurn(run: seq<(Key, int)>, k: nat, dupsAllowed: bool)
    requires InRun(run, dupsAllowed) && k < |run|
    ensures forall x | x in Accepted(run, k) :: x.ord <= run[k].0.ord
    ensures k > 0 && !dupsAllowed ==> run[k-1].0.ord < run[k].0.ord
  {
    AcceptedFrom(run, k);
  }

  /** A run within the limit makes a chain within the limit, from which building ends. */
  lemma {:induction false} ChainWithin(run: seq<(Key, int)>, k: nat)
    requires k <= |run| && Within(run) && forall i | 0 <= i < |run| :: 1 <= run[i].0.size
    ensures Rising(Chain(run, k), KEY_MAX) && Builds(Chain(run, k))
  {
    hide Push, NeverStuck;
    if k > 0 {
      ChainWithin(run, k - 1);
      PushWithin(Chain(run, k - 1), Item(Nil, run[k-1].0, run[k-1].1));
      if |Chain(run, k)| > 1 {
        LimitNeverStuck(Chain(run, k));
      }
    }
  }

  /** Adds a whole run and commits: the tree lists exactly what was accepted of the run, in order. */
  method BuildRun(run: seq<(Key, int)>, dupsAllowed: bool) returns (root: Node)
    requires InRun(run, dupsAllowed) && Builds(Chain(run, |run|))
    ensures InOrder(root) == Accepted(run, |run|)
    ensures KeySet(root) == AcceptedKeys(run, |run|)
    ensures Within(run) ==> InOrder(root) == EntriesOf(run) && KeySet(root) == KeysOf(run)
    ensures root == Node(Empty, Nil) || Open(root, if Within(run) then KEY_MAX else BODY)
  {
    hide InOrder, Listing, Sound, Push, Builds, Accepted, EntriesOf, Extended, KeySet, LevelKeys, AcceptedKeys;
    var builder := new Builder(dupsAllowed);
    AcceptedStart(run);
    for k := 0 to |run|
      invariant builder.Valid() && fresh(builder) && builder.dupsAllowed == dupsAllowed
      invariant builder.chain == Chain(run, k) && Listing(builder.chain) == Accepted(run, k) && builder.n == k
      invariant k > 0 && !dupsAllowed ==> builder.keyLast == run[k-1].0.ord
    {
      RunInTurn(run, k, dupsAllowed);
      AcceptedStep(run, k);
      var _ := builder.AddKey(run[k].0, run[k].1);
    }
    root := builder.Commit();
    ChainKeys(run, |run|);
    if Within(run) {
      AcceptedAll(run, |run|);
      AcceptedWithin(run, |run|);
      ChainWithin(run, |run|);
      assert EntriesOf(run)[..|run|] == EntriesOf(run);
    }
  }

  lemma AcceptedStart(run: seq<(Key, int)>)
    ensures Accepted(run, 0) == [] && |EntriesOf(run)| == |run|
  {
  }

  lemma AcceptedStep(run: seq<(Key, int)>, k: nat)
    requires k < |run|
    ensures var taken := FitsLast(Chain(run, k), run[k].0) || run[k].0.size <= KEY_MAX;
            && Accepted(run, k + 1) ==
                 (if taken then Accepted(run, k) + [Entry(run[k].0.ord, run[k].1)] else Accepted(run, k))
            && Chain(run, k + 1) == Extended(Chain(run, k), run[k].0, run[k].1)
            && (!taken ==> Extended(Chain(run, k), run[k].0, run[k].1) == Chain(run, k))
  {
  }

  /** Every sorted run of keys within the limit is built into a tree that lists exactly that run. */
  method BuildWithin(run: seq<(Key, int)>, dupsAllowed: bool) returns (root: Node)
    requires InRun(run, dupsAllowed) && Within(run)
    ensures InOrder(root) == EntriesOf(run) && KeySet(root) == KeysOf(run)
    ensures root == Node(Empty, Nil) || Open(root, KEY_MAX)
  {
    ChainWithin(run, |run|);
    root := BuildRun(run, dupsAllowed);
  }

  /** With keys over the limit that still fit into their buckets, building need not end. */
  lemma OversizeNeverEnds()
    ensures var run := [(Key(1, 8000), 2), (Key(2, 200), 4), (Key(3, 7900), 6)];
            && InRun(run, false) && |Chain(run, 3)| == 2 && Level(Chain(run, 3), BODY)
            && !Ends(Chain(run, 3)) && forall steps: nat :: |Levels(Chain(run, 3), steps)| == 2
  {
    var run := [(Key(1, 8000), 2), (Key(2, 200), 4), (Key(3, 7900), 6)];
    var a, b, c := Item(Nil, Key(1, 8000), 2), Item(Nil, Key(2, 200), 4), Item(Nil, Key(3, 7900), 6);
    OversizeUsed(a, b, c);
    assert Chain(run, 0) == [Node(Empty, Nil)];
    assert Chain(run, 1) == [Single(a)];
    assert Chain(run, 2) == [Single(a), Single(b)];
    var level := [Single(a), Node(Snoc(Snoc(Empty, b), c), Nil)];
    assert Chain(run, 3) == level;
    assert Open(level[0], BODY) && Open(level[1], BODY);
    forall steps: nat
      ensures |Levels(level, steps)| == 2
    {
      StuckForever(level, steps);
    }
  }

  lemma OversizeUsed(a: Item, b: Item, c: Item)
    requires a.key.size == 8000 && b.key.size == 200 && c.key.size == 7900 && a.child == b.child == c.child == Nil
    ensures Used(Empty) == 0 && Used(Snoc(Empty, a)) == 8018 && Used(Snoc(Empty, b)) == 218
    ensures Used(Snoc(Snoc(Empty, b), c)) == 8136
    ensures Sound(Nil, BODY) && AllSound(Snoc(Empty, a), BODY) && AllSound(Snoc(Snoc(Empty, b), c), BODY)
  {
    assert Sound(Nil, BODY) && AllSound(Empty, BODY) && AllSound(Snoc(Empty, b), BODY);
  }
}
