# ReadOnlyOrderedDictionary in Dafny

Chatto's `ReadOnlyOrderedDictionary<T>` is an immutable container that keeps two
views of the same data. The first is the array `items`, which preserves the
input order. The second is the map `itemsById`, which sends each element's
string `uid` to that element's position in `items`. Elements are reached by
position (`subscript(index:)`), by uid (`subscript(uid:)`) and through a
restartable generator (`generate()`). `startIndex` and `endIndex` bound the
valid positions.

This project models that type in Dafny and proves the properties its design
promises:

- the two views always agree;
- duplicate uids resolve to the last occurrence;
- positional access returns the input element at that position;
- uid lookup finds an element exactly when the uid occurs in the input;
- the generator yields the items, in order, and then stays exhausted.

Layout:

- `wrappers.dfy`: module `Wrappers`, which holds `Option`, the model of Swift's `T?`.
- `ordered_dictionary.dfy`: module `OrderedDictionary`, which holds the whole component.

Modelling choices:

- The element type `T: UniqueIdentificable` is `Item<P>(uid, payload)`. `payload`
  stands for everything about an element other than its uid, which the
  dictionary never looks at.
- The struct's stored properties are `Storage<P>(items, itemsById)`. Only
  `init(items:)` can build a value, because both properties are private
  constants. So the subset type `ReadOnlyOrderedDictionary<P>` adds the
  invariant `Valid` that construction establishes. Accessors take that type
  and need no extra precondition.
- Construction is written twice, and both forms are proved to agree:
  - `Init`, a method whose loop mirrors the Swift `for` loop;
  - `Create`, a pure function built on the fold `PositionsById`, used to
    state lemmas.
- The generator closure captures `self` and a mutable `index`. It becomes the
  explicit state `Generator(source, index)` with a step function `Next`.
  `Drain` steps a generator until it returns `None`.
- Every operation is a pure function of an immutable value. So repeated calls
  of `At`, `Lookup` and `Generate` with the same arguments give equal results
  by construction.

## Model

| member | source | states |
|---|---|---|
| OrderedDictionary.PositionsById | Chatto/Source/ReadOnlyOrderedDictionary.swift:32-35 | After the loop has stored `uid -> index` for every element in order, the map's keys are exactly the input's uids, and each uid maps to the last position holding it. An empty input gives an empty map. |
| OrderedDictionary.Create | Chatto/Source/ReadOnlyOrderedDictionary.swift:31-38 | Construction keeps the input array unchanged. An empty input yields an empty uid map. Its result carries the dictionary invariant. |
| OrderedDictionary.Init | Chatto/Source/ReadOnlyOrderedDictionary.swift:31-38 | The single forward pass stores the input array unchanged. It builds a map whose keys are exactly the input uids, each mapped to the last position holding it, so every entry `(id, pos)` has `0 <= pos < count` and `items[pos].uid == id`. The result equals the functional construction. |
| OrderedDictionary.IndexesDetermined | Chatto/Source/ReadOnlyOrderedDictionary.swift:33-34 | The last-write-wins rule fixes the uid map completely: any two maps that send each input uid to its last position are equal. |
| OrderedDictionary.At | Chatto/Source/ReadOnlyOrderedDictionary.swift:40-42 | Positional access requires `startIndex <= index < endIndex`; out-of-range access is a caller error, never clamped. It returns the element stored at that position. |
| OrderedDictionary.Lookup | Chatto/Source/ReadOnlyOrderedDictionary.swift:44-49 | Lookup by uid returns `Some` exactly when some stored element has that uid, and `None` otherwise. The element found has the requested uid. It is the element at the last position holding that uid. |
| OrderedDictionary.StartIndex | Chatto/Source/ReadOnlyOrderedDictionary.swift:64-66 | The first valid position is 0. |
| OrderedDictionary.EndIndex | Chatto/Source/ReadOnlyOrderedDictionary.swift:68-70 | One past the last valid position is the number of stored items, so the valid positions are exactly `[startIndex, endIndex)`. |
| OrderedDictionary.Generate | Chatto/Source/ReadOnlyOrderedDictionary.swift:51-52 | Every call to `generate()` starts a fresh traversal of this dictionary at `startIndex`. |
| OrderedDictionary.Next | Chatto/Source/ReadOnlyOrderedDictionary.swift:54-61 | One step yields an element exactly when the cursor is below `endIndex`. That element is the one positional access returns at the cursor, and the cursor then advances by one. Past the end the step yields `nil` and leaves the state unchanged. |
| OrderedDictionary.Drain | Chatto/Source/ReadOnlyOrderedDictionary.swift:54-61 | Stepping a generator until it yields `nil` produces exactly the items from its cursor to the end, in order. |
| OrderedDictionary.Iterate | Chatto/Source/ReadOnlyOrderedDictionary.swift:54-61 | Any number of steps keeps the generator bound to the same dictionary. Each step advances the cursor by one until it reaches `endIndex`, and the cursor never moves past it. |
| OrderedDictionary.GenerateYieldsItems | Chatto/Source/ReadOnlyOrderedDictionary.swift:51-62 | A fresh generator, stepped until `nil`, yields exactly `items`: `endIndex - startIndex` elements, in order. |
| OrderedDictionary.StepYieldsAt | Chatto/Source/ReadOnlyOrderedDictionary.swift:54-61 | After `k` steps from a fresh start, the generator's cursor is `k`, and its next element is the one positional access returns at position `k`. |
| OrderedDictionary.ExhaustedStaysExhausted | Chatto/Source/ReadOnlyOrderedDictionary.swift:55-57 | Once the generator has yielded `nil`, every later step yields `nil` again and leaves the state unchanged. |
| OrderedDictionary.PositionalRoundTrip | Chatto/Source/ReadOnlyOrderedDictionary.swift:36-42 | For every input position `i`, `i` is a valid position of the built dictionary, and positional access at `i` returns the `i`-th input element. |
| OrderedDictionary.LookupUnique | Chatto/Source/ReadOnlyOrderedDictionary.swift:44-49 | When exactly one input element has a given uid, lookup by that uid returns that element. |
| OrderedDictionary.DuplicateLastWins | Chatto/Source/ReadOnlyOrderedDictionary.swift:33-46 | For input `[a, b]` where `a` and `b` share a uid, the uid map sends that uid to position 1 and lookup by that uid returns `b`. Both elements stay reachable by position: 0 holds `a` and 1 holds `b`. |
| OrderedDictionary.EmptyDictionary | Chatto/Source/ReadOnlyOrderedDictionary.swift:31-37 | An empty input gives a dictionary with `startIndex == endIndex`. Every uid lookup on it returns `nil`, and its generator yields nothing. |

## Left out

- `minimumCapacity`, at line 32, is a capacity hint only. It does not change which map is built.
- The O(1) access costs are not expressible as contracts.
- The Swift `CollectionType` and `AnyGenerator` protocol machinery is modelled only through the behaviour above. Members the protocol derives, such as `count`, are not modelled. `count` equals `endIndex - startIndex`, which `GenerateYieldsItems` relates to the generator.
- The `UniqueIdentificable` protocol is not part of this model. Its only use here is the `uid` accessor, which `Item.uid` stands for.
- `import Foundation` and the thread safety of concurrent reads have no counterpart in an immutable value model.
- A Swift out-of-range subscript traps at run time. Here it is a precondition of `At`, so such a call is rejected at verification time instead of being modelled as a trap.
- Uid equality is exact equality of character sequences. Swift compares `String` keys by Unicode canonical equivalence, so `"\u{e9}"` and `"e\u{301}"` are one key in Swift but two keys here. The model has no Unicode normalisation.
- Elements are immutable values, and each element's `uid` is assumed not to change after construction. In Swift, `T` may be a class whose `uid` getter later returns a different value, and then `subscript(uid:)` can return an element whose current uid differs from the key. The model does not cover that case.
