# dictdiffer.js `patch`, modelled in Dafny

`patch(diffResult, destination)` applies a diff list to a nested JavaScript
object tree. The diff list has the format that Python's `dictdiffer.diff()`
produces: entries `[action, node, changes]`. The tree mixes mapping nodes
(objects) and sequence nodes (arrays).

- `node` is a path, given as a `.`-separated string or as an array of tokens.
- `changes` holds `[key, value]` pairs for `add` and `remove`, and
  `[old, new]` for `change`.

This project models the whole of `patch`, in five modules:

- **`Values`**: the tree (`Node`), its scalar leaves, and the ways an
  application can fail (`Failure`). A place where JavaScript would throw a
  TypeError, or would quietly produce `undefined` or a NaN-named property,
  is an explicit error.
- **`Text`**: `String.prototype.split('.')` (`Split`, with its inverse
  `Join`), `parseInt` on decimal tokens (`ParseIndex`), and the property key
  of a scalar (`KeyString`, JavaScript's ToString). Numeric array tokens such
  as `['a', 'b', 'list', 0]` therefore index as they do in JavaScript,
  within the number range stated under "Left out".
- **`Lookup`**: the resolver `dotLookup`, as the specification function
  `Resolve` and the loop `DotLookup` proved equal to it.
  - `Walk` is the token-by-token descent.
  - `Replace` writes a container back at the end of a path. This is the
    value-level form of mutating in place a container that the resolver
    found.
- **`Operators`**: `add`, `change` and `remove`.
  - `add` and `remove` are loops (`Add`, `Remove`), each proved equal to the
    fold `EachPair`.
  - Each iteration resolves the container afresh against the current tree,
    then inserts (`splice(key, 0, value)` or `dest[key] = value`) or deletes
    (`splice(key, 1)` or `delete dest[key]`).
  - `change` resolves the parent, takes the final token, and writes the last
    element of `changes` there.
  - `splice`'s clamping of its start index is modelled exactly
    (`SpliceStart`).
- **`Patching`**: the dispatch loop (`Patch`), proved equal to the fold
  `Run`.
  - An unknown action name is ignored.
  - A failing entry stops the loop. Everything applied before it stays
    applied, because JavaScript does not roll back. The result `Aborted`
    records the entry's index, the failure, and the partially patched tree.
  - The file's own test vector (`testObject1`, `diffList`, `testObject2`) is
    proved as a lemma.

The destination is a value: an in-place assignment becomes a new tree that
differs from the old one only at the path written. Mapping key order is
irrelevant (`map`), and sequence order is kept (`seq`).

## Model

| member | source | states |
|---|---|---|
| `Text.Split` | dictdiffer.js:26 | `split('.')` always yields at least one token, no token contains `.`, and joining the tokens with `.` gives back the string |
| `Text.SplitJoin` | dictdiffer.js:24-26 | the other round trip: delimiter-free tokens joined with `.` split back into exactly those tokens |
| `Text.ParseRendered` | dictdiffer.js:37-40 | `parseInt` of the decimal rendering of a natural number (the key a numeric token becomes) gives back that number |
| `Lookup.Resolve` | dictdiffer.js:15-43 | an empty or falsy path resolves to the root itself; a path that is neither a string nor an array is an error |
| `Lookup.DotLookup` | dictdiffer.js:15-43 | the loop that reassigns `value` token by token returns exactly `Resolve` (root for a falsy path, error for an invalid one, and in parent mode the walk without the last token) |
| `Lookup.DottedAsTokens` | dictdiffer.js:21-26 | a non-empty dotted string and the array of its `.`-separated tokens resolve to the same node, in both modes |
| `Lookup.TokensAsDotted` | dictdiffer.js:21-26 | conversely, an array of delimiter-free tokens and the string joining them resolve to the same node, unless the joined string is empty (the root) |
| `Lookup.ParentHoldsTarget` | dictdiffer.js:32-41 | plain resolution equals parent-mode resolution followed by one step with the last token; a one-token path in parent mode resolves to the root |
| `Lookup.WalkReplace` | dictdiffer.js:49-53 | after the container at a path is written back, the path reaches the new container, and every path below it reaches what it reaches inside the new container |
| `Lookup.ReplaceElsewhere` | dictdiffer.js:49-53 | writing back at a path leaves every path that leaves it by a different key or index exactly as it was |
| `Lookup.ReplaceTwice` | dictdiffer.js:49-53 | writing back twice at the same path keeps only the second write |
| `Operators.SpliceStart` | dictdiffer.js:51 | the start index `splice` uses lies within the sequence (or at its end) and is the key itself whenever the key is in range |
| `Operators.InsertAt` | dictdiffer.js:51 | `splice(i, 0, v)`: length grows by one, `v` sits at `i`, earlier elements are unchanged, later ones shift right by one |
| `Operators.DeleteAt` | dictdiffer.js:77 | `splice(i, 1)`: length shrinks by one, earlier elements are unchanged, later ones shift left by one |
| `Operators.Add` | dictdiffer.js:45-56 | the loop over `changes` (resolve, then insert or set) gives exactly the in-order fold `EachPair(Adding, ...)`, including where it stops |
| `Operators.Remove` | dictdiffer.js:72-82 | the loop over `changes` (resolve, then splice or delete) gives exactly the in-order fold `EachPair(Removing, ...)` |
| `Operators.ResolveAfterPair` | dictdiffer.js:46-55 | after one iteration, the path resolves to the container as inserted into or deleted from |
| `Operators.AddIntoSequence` | dictdiffer.js:50-51 | add of `[k, v]` on a sequence target with `0 <= k <= length` succeeds and leaves the sequence with `v` inserted at `k` |
| `Operators.AddIntoMapping` | dictdiffer.js:52-53 | add of `[key, v]` on a mapping target succeeds and leaves the mapping with `key` mapped to `v` and every other key unchanged |
| `Operators.RemoveFromSequence` | dictdiffer.js:76-77 | remove of `[k, _]` on a sequence target deletes the element at `k` when `k` is in range and changes nothing when `k` is at or past the end |
| `Operators.RemoveFromMapping` | dictdiffer.js:78-79 | remove of `[key, _]` on a mapping target leaves `key` absent and every other key unchanged |
| `Operators.RemoveFromScalar` | dictdiffer.js:78-79 | remove on a number, boolean or string leaf deletes a property the primitive does not have: the tree is unchanged and the loop goes on; on `null`, or on a string's `length` or character index, it fails |
| `Operators.PairElsewhere` | dictdiffer.js:49-54 | one iteration of add or remove changes nothing outside the container it resolved |
| `Operators.MappingPairIdempotent` | dictdiffer.js:50-53 | on a mapping target, repeating an add or remove iteration changes nothing more |
| `Operators.AddGrows` | dictdiffer.js:46-55 | a completed add on a sequence target grows it by exactly one element per change |
| `Operators.RemoveShrinks` | dictdiffer.js:73-81 | a completed remove on a sequence target shrinks it by at most one element per change, and never grows it |
| `Operators.ChangeWrites` | dictdiffer.js:58-70 | a successful change had a non-empty `changes`, and resolving the full path afterwards yields its last element |
| `Operators.ChangeIntoMapping` | dictdiffer.js:59-69 | under a mapping parent, change always succeeds and sets the final token to the last change, keeping the parent's other keys |
| `Operators.ChangeIntoSequence` | dictdiffer.js:66-69 | under a sequence parent, the final token is parsed as an index, and that element (only) is overwritten with the last change |
| `Operators.ChangeElsewhere` | dictdiffer.js:59-69 | change alters nothing but the slot it writes: any path that leaves the written path by another key or index reaches what it reached before |
| `Operators.ChangeIdempotent` | dictdiffer.js:58-70 | applying the same change twice (the second time from a fresh copy of the entry) gives what applying it once does |
| `Patching.Patch` | dictdiffer.js:84-99 | the dispatch loop returns exactly `Run`: the entries applied in list order, stopping at the first failing one |
| `Patching.RunInOrder` | dictdiffer.js:84-97 | running a list followed by one more entry is applying that entry to what the list produced |
| `Patching.RunStep` | dictdiffer.js:84-97 | extending a successful prefix of the list by its next entry applies that entry to the prefix's result |
| `Patching.RunStopped` | dictdiffer.js:84-97 | once a prefix of the list aborts, the whole list aborts the same way: later entries are never applied |
| `Patching.AbortedAfterPrefix` | dictdiffer.js:84-97 | an aborted run names an entry of the list, every earlier entry was applied in full, and that entry failed on their result |
| `Patching.UnknownIgnored` | dictdiffer.js:88-96 | a list whose entries all have an action other than `add`, `change` or `remove` leaves the tree unchanged |
| `Patching.UnknownSkipped` | dictdiffer.js:88-96 | an entry with an unknown action anywhere in the list is skipped: the list without it patches to the same tree, or aborts with the same failure and partial tree |
| `Patching.TestVector` | dictdiffer.js:106-123 | patching `testObject1` with `diffList` yields a tree equal to `testObject2` |

## Left out

- Logging in `runTests` (`console.log`, `JSON.stringify`, dictdiffer.js:119-127) is I/O. Only its data is used, in `Patching.TestVector`.
- The Python side and the transport named in the doc comment, and computing the diff itself, are external collaborators.
- Object identity is not modelled: `patch` returns the very object it was given, already mutated, while the model returns the patched tree as a value. Aliasing between nested containers is also not modelled. For the same reason, "`dotLookup` copies an array path" has nothing to state: a `seq` cannot be altered by the resolver.
- The destructive `pop` on the caller's `node` array and `changes` array in `change` (dictdiffer.js:62, 69) is not modelled. Only the values it yields are used: the last token and the last change. The model leaves the diff list unchanged. In JavaScript `patch` uses up its diff list: each `change` entry loses the last element of its `changes`, and an array `node` loses its last token. Applying the same entry object a second time therefore writes the old value, one level higher for an array path.
- `Operators.ChangeIdempotent` holds for a fresh copy of the entry only, not for the same entry object after the first application has popped it.
- `parseInt` is modelled for plain decimal tokens only. A sign, white space, a hexadecimal prefix or trailing garbage gives `BadIndex` instead of JavaScript's partial parse or NaN.
- Falling back to NaN-named properties is not modelled. Where JavaScript would index or write `dest[NaN]` (a non-numeric token on a sequence), the model reports `BadIndex`.
- ToNumber coercion of `splice` keys is partial. Keys that are numbers or unsigned digit strings are modelled, with exact clamping. A signed string such as `"-1"`, which `splice` would count from the end, gives `BadIndex`, as do booleans, `null` and other strings.
- Reading a missing key yields `PathNotFound` at once. JavaScript reads `undefined` there and then throws a TypeError: at the next step of the walk, or when `add`, `change` or `remove` assigns to or deletes from `undefined[key]`. The model reports the failure at the key that was missing rather than where JavaScript throws.
- Descending into a scalar, or assigning into one with `add` or `change`, gives `NotContainer`. In JavaScript the descent reads `undefined` and the next step or the operator throws. The assignment throws because the module runs in strict mode. `remove` on a scalar follows JavaScript: see `Operators.RemoveFromScalar`.
- Character indexing of string leaves (`"abc"[0]`), their `length`, and other properties of primitives are not modelled as reads: descending through them gives `NotContainer`. Strings are sequences of characters, not of UTF-16 code units.
- Inherited (prototype) properties are not modelled.
- `change` writing more than one place past the end of a sequence gives `OutOfRange`. JavaScript would grow the array with holes, which a `seq` cannot hold. Writing exactly at the end appends, as JavaScript does.
- `change` with an empty `changes` gives `MissingValue`. JavaScript would store `undefined`.
- Numbers are integers only: floating point, NaN and infinities are not modelled. A `Num` is an unbounded integer written with plain digits. JavaScript writes numbers of 10^21 and above in exponent form (`1e+21`, which `parseInt` reads as 1), and does not hold integers above 2^53 exactly. Keys and indices outside that range are not modelled faithfully.
- Array path tokens are scalars only. A nested array or an object as a token, which JavaScript would stringify, is not modelled.
- A change element that is not an array with a scalar key at index 0 (and, for `add`, a value at index 1) gives `BadChange`.
