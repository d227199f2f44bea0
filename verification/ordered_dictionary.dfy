/**
  A read-only ordered dictionary: an immutable array of uniquely identified
  items together with a map from each item's uid to its position in that
  array. Items are reachable in input order by position, by uid, and through
  a restartable generator.
 */
module OrderedDictionary {
  import opened Wrappers

  /** An element of the dictionary: anything that exposes a string `uid`.
      `payload` stands for the rest of the element, which the dictionary never inspects. */
  datatype Item<P> = Item(uid: string, payload: P)

  /** The two stored views of the same data: the items in input order and
      the uid-to-position map. */
  datatype Storage<P> = Storage(items: seq<Item<P>>, itemsById: map<string, int>)

  /** The uids that occur in `items`. */
  function Uids<P>(items: seq<Item<P>>): set<string>
  {
    set i | 0 <= i < |items| :: items[i].uid
  }

  /** `pos` is a position of `items` holding uid `id`, and no later position holds `id`. */
  predicate IsLastOccurrence<P>(items: seq<Item<P>>, id: string, pos: int)
  {
    && 0 <= pos < |items|
    && items[pos].uid == id
    && forall j :: pos < j < |items| ==> items[j].uid != id
  }

  /** `m` maps exactly the uids of `items`, each to the last position holding it
      (later duplicates overwrite earlier ones). */
  predicate IndexesLastOccurrences<P>(items: seq<Item<P>>, m: map<string, int>)
  {
    && m.Keys == Uids(items)
    && forall id :: id in m ==> IsLastOccurrence(items, id, m[id])
  }

  /** The invariant every dictionary keeps between its two views. */
  predicate Valid<P>(s: Storage<P>)
  {
    IndexesLastOccurrences(s.items, s.itemsById)
  }

  /** A dictionary as the program can observe it: only construction builds one,
      so both views always agree. */
  type ReadOnlyOrderedDictionary<P> = s: Storage<P> | Valid(s) witness Storage([], map[])

  /** Adding one element at the end adds its uid to the uids seen so far. */
  lemma UidsSnoc<P>(items: seq<Item<P>>, x: Item<P>)
    ensures Uids(items + [x]) == Uids(items) + {x.uid}
  {
    var s := items + [x];
    assert s[|items|] == x;
    forall id | id in Uids(items)
      ensures id in Uids(s)
    {
      var i :| 0 <= i < |items| && items[i].uid == id;
      assert s[i] == items[i];
    }
  }

  /** The map the construction loop has built after visiting every element of
      `items` in order, each visit storing `uid -> index` over whatever was there. */
  function PositionsById<P>(items: seq<Item<P>>): (m: map<string, int>)
    ensures IndexesLastOccurrences(items, m)
    decreases |items|
  {
    if items == [] then map[]
    else
      var n := |items| - 1;
      var prefix := items[..n];
      assert items == prefix + [items[n]];
      UidsSnoc(prefix, items[n]);
      PositionsById(prefix)[items[n].uid := n]
  }

  /** Functional form of `init(items:)`: keeps the array as given and indexes it by uid. */
  function Create<P>(items: seq<Item<P>>): (d: ReadOnlyOrderedDictionary<P>)
    ensures d.items == items
    ensures items == [] ==> d.itemsById == map[]
  {
    Storage(items, PositionsById(items))
  }

  /** `init(items:)`: one forward pass that stores each element's position
      under its uid, overwriting the position of any earlier duplicate. */
  method Init<P>(items: seq<Item<P>>) returns (d: ReadOnlyOrderedDictionary<P>)
    ensures d.items == items
    ensures d.itemsById.Keys == Uids(items)
    ensures forall id :: id in d.itemsById ==> IsLastOccurrence(items, id, d.itemsById[id])
    ensures d == Create(items)
  {
    var dictionary: map<string, int> := map[];
    var index := 0;
    while index < |items|
      invariant 0 <= index <= |items|
      invariant dictionary == PositionsById(items[..index])
    {
      assert items[..index + 1][..index] == items[..index];
      dictionary := dictionary[items[index].uid := index];
      index := index + 1;
    }
    assert items[..index] == items;
    d := Storage(items, dictionary);
  }

  /** Any two maps that index the last occurrences of the same items are equal,
      so the dictionary's uid map is fully determined by its items. */
  lemma IndexesDetermined<P>(items: seq<Item<P>>, m1: map<string, int>, m2: map<string, int>)
    requires IndexesLastOccurrences(items, m1)
    requires IndexesLastOccurrences(items, m2)
    ensures m1 == m2
  {
  }

  /** `subscript(index:)`: the element at a position. An index outside
      `[startIndex, endIndex)` is a caller error, never clamped. */
  function At<P>(d: ReadOnlyOrderedDictionary<P>, index: int): (r: Item<P>)
    requires StartIndex(d) <= index < EndIndex(d)
    ensures r == d.items[index]
  {
    d.items[index]
  }

  /** `subscript(uid:)`: the element whose uid is `uid`, or `None`. */
  function Lookup<P>(d: ReadOnlyOrderedDictionary<P>, uid: string): (r: Option<Item<P>>)
    ensures r.Some? <==> uid in Uids(d.items)
    ensures r.Some? ==> r.value.uid == uid
    ensures forall k :: IsLastOccurrence(d.items, uid, k) ==> r == Some(d.items[k])
  {
    if uid in d.itemsById then Some(d.items[d.itemsById[uid]]) else None
  }

  /** `startIndex`: the first valid position. */
  function StartIndex<P>(d: ReadOnlyOrderedDictionary<P>): (r: int)
    ensures r == 0
  {
    0
  }

  /** `endIndex`: one past the last valid position. */
  function EndIndex<P>(d: ReadOnlyOrderedDictionary<P>): (r: int)
    ensures r == |d.items|
  {
    |d.items|
  }

  /** The state the generator closure captures: the dictionary and the next position. */
  datatype Generator<P> = Generator(source: ReadOnlyOrderedDictionary<P>, index: nat)

  /** `generate()`: every call starts a fresh traversal at the first position. */
  function Generate<P>(d: ReadOnlyOrderedDictionary<P>): (g: Generator<P>)
    ensures g.source == d
    ensures g.index == StartIndex(d)
  {
    Generator(d, 0)
  }

  /** One call of the generator closure: past the end it yields `None` and stays
      where it is; otherwise it yields the current element and then advances. */
  function Next<P>(g: Generator<P>): (step: (Option<Item<P>>, Generator<P>))
    ensures step.1.source == g.source
    ensures step.0.Some? <==> g.index < EndIndex(g.source)
    ensures step.0.Some? ==> step.0.value == At(g.source, g.index) && step.1.index == g.index + 1
    ensures step.0.None? ==> step.1 == g
  {
    if g.index < |g.source.items| then
      (Some(g.source.items[g.index]), g.(index := g.index + 1))
    else
      (None, g)
  }

  /** Everything the generator yields when stepped until it returns `None`. */
  function Drain<P>(g: Generator<P>): (out: seq<Item<P>>)
    ensures g.index <= |g.source.items| ==> out == g.source.items[g.index..]
    ensures g.index > |g.source.items| ==> out == []
    decreases |g.source.items| - g.index
  {
    var (x, next) := Next(g);
    match x
    case None => []
    case Some(item) => [item] + Drain(next)
  }

  /** Stepping a fresh generator until `None` yields exactly the items, in order. */
  lemma GenerateYieldsItems<P>(d: ReadOnlyOrderedDictionary<P>)
    ensures Drain(Generate(d)) == d.items
    ensures |Drain(Generate(d))| == EndIndex(d) - StartIndex(d)
  {
  }

  /** The generator state after `n` calls: the cursor advances one position per
      call until it reaches `endIndex`, and never moves past it. */
  function Iterate<P>(g: Generator<P>, n: nat): (h: Generator<P>)
    ensures h.source == g.source
    ensures h.index == if g.index >= |g.source.items| then g.index
                       else if g.index + n <= |g.source.items| then g.index + n
                       else |g.source.items|
  {
    if n == 0 then g else Next(Iterate(g, n - 1)).1
  }

  /** Once the generator has returned `None` it returns `None` forever. */
  lemma ExhaustedStaysExhausted<P>(g: Generator<P>, n: nat)
    requires Next(g).0.None?
    ensures Iterate(g, n) == g
    ensures Next(Iterate(g, n)).0.None?
  {
  }

  /** After `k` steps from a fresh start the generator yields the element at
      position `k`, the same one positional access returns. */
  lemma StepYieldsAt<P>(d: ReadOnlyOrderedDictionary<P>, k: nat)
    requires k < EndIndex(d)
    ensures Iterate(Generate(d), k).index == k
    ensures Next(Iterate(Generate(d), k)).0 == Some(At(d, k))
  {
  }

  /** Construction keeps every position: position `i` holds the `i`-th input element. */
  lemma PositionalRoundTrip<P>(items: seq<Item<P>>, i: int)
    requires 0 <= i < |items|
    ensures StartIndex(Create(items)) <= i < EndIndex(Create(items))
    ensures At(Create(items), i) == items[i]
  {
  }

  /** A uid held by exactly one input element looks up that element. */
  lemma LookupUnique<P>(items: seq<Item<P>>, i: int)
    requires 0 <= i < |items|
    requires forall j :: 0 <= j < |items| && items[j].uid == items[i].uid ==> j == i
    ensures Lookup(Create(items), items[i].uid) == Some(items[i])
  {
  }

  /** Two elements with the same uid: lookup finds the later one, yet both stay
      reachable by position. */
  lemma DuplicateLastWins<P>(a: Item<P>, b: Item<P>)
    requires a.uid == b.uid
    ensures Create([a, b]).itemsById[a.uid] == 1
    ensures Lookup(Create([a, b]), a.uid) == Some(b)
    ensures EndIndex(Create([a, b])) == 2
    ensures At(Create([a, b]), 0) == a && At(Create([a, b]), 1) == b
  {
  }

  /** The empty dictionary: no positions, no uid found, nothing generated. */
  lemma EmptyDictionary<P>(uid: string)
    ensures EndIndex(Create<P>([])) == StartIndex(Create<P>([]))
    ensures Lookup(Create<P>([]), uid) == None
    ensures Drain(Generate(Create<P>([]))) == []
  {
  }
}
