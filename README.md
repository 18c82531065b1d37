# refactor.js identifier renaming, modelled in Dafny

refactor.js renames identifiers in a JavaScript program, one mapping
entry at a time, on top of three libraries: a parser (esprima), a
tree walker (estraverse) and a single-identifier rename (esrefactor).
This project models the program's own code around those libraries:

- `listToObj` builds an object that maps each name to itself.
- `getIdentifiers` collects the distinct identifier names of a program
  in the order it first meets them.
- `getIdIndex` finds the offset of an identifier.
- `renameId` renames one identifier at that offset.
- `renameIds` applies a whole mapping by threading the text through
  one `renameId` call per property.

The libraries are not modelled. They appear as parameters:

- `parse: Src -> seq<Node>` stands for parsing the text and walking
  its tree. It yields the visited nodes `(type, name, range start)` in
  the order the walker enters them.
- `rename: (Src, int, string) -> Src` stands for
  `esrefactor.Context(src).rename(identify(index), newId)`.
- The source text is the opaque type parameter `Src`.

A JavaScript object with string properties is a list of
`(key, value)` pairs in insertion order (`JsObject.Obj`). Assigning to
an existing key keeps its position. `Object.keys` and `Object.values`
report the keys and values in that order. So entry `i` of the rename
loop pairs key `i` with value `i`.

The program has no rename planner. It folds the mapping naively, in key
order, and each step re-parses the text the previous step produced. The
model does the same. Module `RefactorNotes` shows the failure described
in the header notes of refactor.js. It uses a concrete primitive that
rewrites every token spelled like the one at the offset. Under it, the
permutation `{a: b, b: c, c: a}` turns `(a, b, c)` into `(a, a, a)`.
The same naive fold also collapses a chain, an input the notes do not
trace: `{x: y, y: z}` turns `(x, y)` into `(z, z)`.

The code and its documentation disagree on `getIdIndex`. The comment at
refactor.js:58 says it returns the first index. The code overwrites
`index` on every match and never leaves the walk early: the break at
refactor.js:68-69 is commented out. So it returns the range start of the
LAST matching `Identifier` node. The model follows the code.
`Refactor.IdIndexIsNotFirstMatch` shows a walk on which the two differ.
`Refactor.IdIndexSingleMatch` shows they agree when only one node
matches.

Files:

- `js_object.dfy`: module `JsObject`, covering objects, property
  assignment and lookup, `Object.keys` and `Object.values`.
- `refactor.dfy`: module `Refactor`, covering the five functions of
  refactor.js and the lemmas about them.
- `refactor_notes.dfy`: module `RefactorNotes`, the header-notes
  scenario under a spelling-based primitive.

## Model

| member | source | states |
|---|---|---|
| `JsObject.Keys` | refactor.js:93 | `Object.keys`: the key of each property, position by position. The insertion order of that list is kept by `JsObject.Put`, whose contract appends a new key and leaves an existing key in place |
| `JsObject.Values` | refactor.js:94 | `Object.values`: one value per property, in the same order as the keys, so position `i` of both belongs to the same property |
| `JsObject.Get` | refactor.js:24-30 | The observer used to specify the assignment at line 30 and the "mapped to themselves" promise of lines 24-25 (refactor.js never reads these objects by key). Own-property lookup: None exactly when the object has no own property `k`; otherwise the value of an own property with that key |
| `JsObject.Put` | refactor.js:30 | `obj[k] = v` keeps keys unique. An existing key keeps its place and takes the new value; a new key is appended. Afterwards `k` reads `v` and every other key reads as before |
| `Refactor.ListToObj` | refactor.js:26-34 | The key set is exactly the set of list elements, each key once. Every element's own property holds the element itself, and no other name is an own property. Values equal keys. On a duplicate-free list the keys are the list itself, in order |
| `Refactor.FirstMatch` | refactor.js:45 | The position of the first `Identifier` node with that name, or the walk length if there is none: the node there matches and no earlier node does |
| `Refactor.CollectIdentifiers` | refactor.js:38-53 | The collected list has no duplicates and holds exactly the names of `Identifier` nodes. Name `u` precedes name `v` iff `u`'s first `Identifier` node is visited before `v`'s |
| `Refactor.GetIdentifiers` | refactor.js:37-56 | The returned object's keys are the first-occurrence list of the walk, and each key maps to itself |
| `Refactor.FirstOccurrenceListUnique` | refactor.js:43-47 | At most one list satisfies the first-occurrence contract, so that contract determines what getIdentifiers returns |
| `Refactor.LastMatch` | refactor.js:63-70 | None iff no node is an `Identifier` spelled `id`; otherwise a matching position after which no node matches |
| `Refactor.IdIndex` | refactor.js:59-78 | -1 iff no `Identifier` node is spelled `id`; otherwise the range start of a matching node with no match after it |
| `Refactor.GetIdIndex` | refactor.js:59-78 | The loop that starts at -1 and overwrites on every match returns `IdIndex`: -1 iff nothing matches, else the last match's range start |
| `Refactor.IdIndexIsNotFirstMatch` | refactor.js:58-69 | On a walk with `a` at offsets 4 then 12, the first match is at offset 4 but the search returns 12, contrary to the comment at line 58 |
| `Refactor.IdIndexSingleMatch` | refactor.js:58-70 | When exactly one node matches, first and last match coincide and the search returns its range start |
| `Refactor.RenameId` | refactor.js:81-88 | The primitive is called on the current text with the index search's result on that text and the new name. When nothing matches, it receives -1 |
| `Refactor.RenameIds` | refactor.js:92-103 | The result is the left fold of renameId over the properties in key order, with key `i` paired with value `i` and each call receiving the previous output. An empty mapping returns `src` unchanged |
| `Refactor.FoldAppend` | refactor.js:97-100 | Renaming by a concatenated batch equals renaming by the first part, then by the second, starting from the first part's output |
| `Refactor.FoldLast` | refactor.js:97-100 | The last property is applied to the text produced by all earlier ones |
| `RefactorNotes.SpellingStep` | refactor.js:4-9 | Under a spelling-based primitive over tokens, one renameId step rewrites every token spelled `id` to the new name and leaves all others |
| `RefactorNotes.SwapCollapses` | refactor.js:8-13 | The fold of `{a: b, b: c, c: a}` over `(a, b, c)` yields `(a, a, a)`, as traced in the notes |
| `RefactorNotes.ChainCollapses` | refactor.js:97-100 | On an extra input not traced in the notes, the same naive fold collapses a chain: `{x: y, y: z}` over `(x, y)` yields `(z, z)` |

## Left out

- Parsing by esprima (refactor.js:39, 60) is not modelled. That includes
  the exception it throws on invalid source. `parse` is a total
  parameter.
- getIdentifiers parses without the `range` option and getIdIndex parses
  with it. Both are modelled by the same `parse`, since only the visit
  order and the node fields matter.
- The callback mechanics of estraverse and the empty `leave` handlers
  (refactor.js:43-53, 63-75) are not modelled. Only the order in which
  `enter` sees the nodes is kept.
- esrefactor's `Context`, `identify` and `rename` (refactor.js:82, 85,
  87) are not modelled. They are scope-aware foreign code and are
  represented by the parameter `rename`. What `identify(-1)` does is
  whatever that parameter does.
- Logging under `verbose` (refactor.js:47, 66, 83, 99) is I/O and is not
  modelled. The same goes for the `require` lines (refactor.js:19-22).
- The test script at refactor.js:105-127 is not modelled. It consists
  of top-level statements and console output.
- Integer-like property keys are not modelled. `Object.keys` lists them
  first, in numeric order. Identifier names are never integer-like.
- Properties inherited from `Object.prototype` (`constructor`, `toString`,
  ...) are not modelled. `JsObject.Get` is own-property lookup, so a name
  it reports absent may still read as an inherited function in JavaScript.
  refactor.js never reads these objects by key.
- Assigning the key `__proto__` is not modelled. In JavaScript it
  creates no property.
- `Node.name` is a string on every node. In JavaScript, non-Identifier
  nodes have no name, but the code tests the type before the name.
- `Refactor.RenameIds` does not require the mapping's keys to be unique,
  because the code does not rely on it. Objects built by `JsObject.Put`
  always have unique keys.
