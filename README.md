# Persistent stack and unbalanced search tree, in Dafny

This project models a small library of immutable (persistent) collections
and proves what their operations promise:

- `UnbalancedTree` (`unbalanced_tree.dfy`, modelling `src/set.rs`): an
  unbalanced binary search tree, the UnbalancedSet of chapter 2 of Okasaki's
  *Purely Functional Data Structures*, used as a Map (`empty_map`, `bind`,
  `lookup`) and as a Set whose values are all `()` (`empty`, `insert`,
  `member`). `bind` and `insert` copy the path from the root to the change
  and share every other subtree. `lookup` does one `<` per node and carries a
  "candidate", the binding of the last node whose key was not greater than
  the search key; it tests equality only once, when the search falls off the
  tree. `insert` uses a helper that answers `None` for "already present", and
  then returns the original tree instead of a rebuilt copy. The test helpers
  `complete` (a loop, modelled as a method) and `depth` are modelled too.
- `SharedStack` (`shared_stack.dfy`, modelling `src/stack.rs`): a persistent
  singly-linked stack whose tails are shared between versions. It offers
  `cons`, `head`, `tail`, a recursive `size`, indexed `get`, and `update`,
  which rebuilds the cells in front of index `i` and reuses the rest. The
  errors are `NoSuchElementException` and `IndexOutOfRange`. The test helper
  `suffixes` is modelled too.
- `BoxStack` (`box_stack.dfy`, modelling `src/lib.rs`): the earlier stack
  with a single owner and only `empty`, `is_empty`, `cons`, `head` and
  `tail`.

Each operation is a Dafny function over a datatype. A subtree or tail that
several versions share is an ordinary datatype field, so "the old version is
unchanged" holds by construction. "Returns the original tree" and "shares
the suffix" are stated as value equalities.

The tree is specified three ways:

- `Keys` gives the set of keys and `Ordered` the search-tree invariant.
- `Bindings` gives the map that an ordered tree stands for.
- `Find` is an ordinary search with a three-way comparison.

The candidate-tracking `lookup` is proved equal to `Find`, and `Find` equal
to the map, on every ordered tree. The stack is specified by `Elements`
(its values, top first) and by `Drop` (`tail` applied `n` times).

Two points where the code decides:

- The candidate is not always a lower bound. `lookup` and `insert` seed it
  with the root's key even when that key is greater than the search key.
  The model follows the code. The lemma `LookupWithCandidateFinds` states
  the condition under which a candidate cannot produce a wrong answer: a
  candidate whose key equals the search key lies below the whole subtree.
- In `try_insert_with_candidate`, the equality test against the candidate at
  an empty subtree never succeeds when `insert` makes the call. Equal keys
  are already caught at the node. The model keeps the test as written, and
  `TryInsertWithCandidate`'s contract covers both outcomes.

## Model

| member | source | states |
|---|---|---|
| `UnbalancedTree.EmptyMap` | src/set.rs:92-94 | the empty map is ordered, binds nothing, and every lookup in it is `None` |
| `UnbalancedTree.Singleton` | src/set.rs:152-160 | a singleton is an ordered tree whose only binding is `key -> value` |
| `UnbalancedTree.Bind` | src/set.rs:95-124 | the keys after `bind(k, v)` are the old keys plus `k`, and an ordered tree stays ordered |
| `UnbalancedTree.BindBindings` | src/set.rs:95-124 | on an ordered tree the map after `bind(k, v)` is the old map with `k` bound to `v`: overwritten if present, added if not, everything else kept |
| `UnbalancedTree.BindLookup` | src/set.rs:95-131 | after `bind(k, v)`, `lookup(k)` is `Some(v)` even if `k` was bound before, and `lookup(j)` is unchanged for every `j != k` |
| `UnbalancedTree.Lookup` | src/set.rs:125-131 | on any tree, `lookup` answers `Some` only for a key the tree holds; `None` on `Empty` (see `EmptyMap`); its exact answer on ordered trees is stated by `LookupIsSearch` |
| `UnbalancedTree.LookupWithCandidate` | src/set.rs:161-178 | on any tree, an answer is either for a key of the subtree or the candidate's own binding when the candidate's key is the search key; its exact answer on ordered trees is stated by `LookupWithCandidateFinds` |
| `UnbalancedTree.LookupWithCandidateFinds` | src/set.rs:161-178 | on an ordered subtree the candidate search returns what the three-way search returns for a present key; for an absent key it returns the candidate if the candidate's key is the search key and `None` otherwise, provided such a candidate lies below the subtree |
| `UnbalancedTree.FindBindings` | src/set.rs:161-178 | `Find` is this model's reference search (a three-way comparison at each node), not a function of the source; on an ordered tree it returns exactly the value bound to the key and `None` for an unbound key. `LookupIsSearch` uses this lemma to tie the source's candidate search to the map |
| `UnbalancedTree.LookupIsSearch` | src/set.rs:125-131 | on an ordered tree, `lookup` (root-seeded candidate search, `None` on `Empty`) equals the three-way search and returns `Some(v)` exactly when the key is bound to `v` |
| `UnbalancedTree.EmptySet` | src/set.rs:135-137 | the empty set is ordered and has no members |
| `UnbalancedTree.TryInsertWithCandidate` | src/set.rs:182-215 | `None` only if `x` is a key or equals the candidate; a grown tree has exactly the old keys plus `x` and stays ordered; on an ordered tree, with a candidate equal to `x` only when `x` is present, `None` exactly when `x` is already a key |
| `UnbalancedTree.Insert` | src/set.rs:138-144 | the keys after `insert(x)` are the old keys plus `x`; ordering is preserved; on an ordered tree the result is the original tree exactly when `x` was already present |
| `UnbalancedTree.Member` | src/set.rs:145-147 | `member` is a successful `lookup`; on any tree only keys the tree holds are members; on ordered trees `MemberKeys` gives the converse |
| `UnbalancedTree.MemberKeys` | src/set.rs:145-147 | on an ordered tree `member(x)` (a successful `lookup`) holds exactly when `x` is a key |
| `UnbalancedTree.InsertMember` | src/set.rs:138-147 | after `insert(x)`, `x` is a member and every other value is a member exactly when it was one before |
| `UnbalancedTree.TryInsertTwice` | src/set.rs:182-215 | once the helper has hung `x` into a tree, running it again on the grown tree with the same candidate answers `None` |
| `UnbalancedTree.InsertIdempotent` | src/set.rs:138-144 | on every tree, ordered or not, inserting the same value twice gives the tree the first insert gave |
| `UnbalancedTree.Depth` | src/set.rs:230-235 | depth is 0 exactly for the empty tree; `CompleteTreeDepth` gives the depth of the trees `complete` builds |
| `UnbalancedTree.Complete` | src/set.rs:217-228 | the loop builds the perfect tree of the requested depth with every key equal to the given value, and its depth is that depth |
| `UnbalancedTree.CompleteTreeDepth` | src/set.rs:257-261 | the complete tree of depth `d` has depth `d` |
| `UnbalancedTree.InsertedValuesAreContained` | src/set.rs:248-255 | after inserting 3 and 5 into the empty set, 3 and 5 are members and 42 is not |
| `UnbalancedTree.MapValuesCanBeReplaced` | src/set.rs:277-286 | rebinding 2 gives a map whose lookup of 2 is the new value, while the map it came from still gives the old value |
| `SharedStack.EmptyStack` | src/stack.rs:24-26 | the empty stack is empty, has size 0 and holds no elements |
| `SharedStack.IsEmpty` | src/stack.rs:27-32 | `is_empty` holds exactly when the size is 0 |
| `SharedStack.Push` | src/stack.rs:33-35 | `head(cons(s, x)) == Ok(x)`, `tail(cons(s, x)) == Ok(s)`, and the size grows by one |
| `SharedStack.Head` | src/stack.rs:36-41 | `head` fails exactly on an empty stack, with `NoSuchElementException`; otherwise it is the top element |
| `SharedStack.Tail` | src/stack.rs:42-47 | `tail` fails exactly on an empty stack, with `NoSuchElementException`; otherwise it holds every element but the top |
| `SharedStack.Size` | src/stack.rs:60-65 | `size` is the number of elements |
| `SharedStack.Get` | src/stack.rs:66-74 | `get(i)` succeeds exactly when `i < size` and then gives the element at index `i`; otherwise it fails with `IndexOutOfRange` |
| `SharedStack.GetIsHeadAfterTails` | src/stack.rs:66-74 | for `i < size`, `get(i)` is `head` after `i` applications of `tail`; for larger `i` it is `IndexOutOfRange` |
| `SharedStack.Update` | src/stack.rs:48-59 | `update(i, x)` succeeds exactly when `i < size`, failing otherwise with `IndexOutOfRange`; on success the elements are the old ones with index `i` replaced by `x` |
| `SharedStack.UpdateGet` | src/stack.rs:48-59 | a successful update keeps the size, `get(i)` gives the new value, and `get(j)` is unchanged for every `j != i` |
| `SharedStack.UpdateSharesSuffix` | src/stack.rs:52-55 | after a successful `update(i, x)`, dropping `i + 1` cells from the result and from the original gives the same stack |
| `SharedStack.Suffixes` | src/stack.rs:78-86 | `suffixes(s)` has `size(s) + 1` entries and the first is `s` itself |
| `SharedStack.SuffixesAt` | src/stack.rs:78-86 | the `k`-th entry of `suffixes(s)` is `s` with `k` cells dropped, for every `k <= size(s)`, and the last entry is the empty stack |
| `SharedStack.UpdateExample` | src/stack.rs:145-187 | on the stack 3, 2, 1: `get` gives 3, 2, 1 and then `IndexOutOfRange`; two tails leave a stack headed by 1 and one tail a stack headed by 2; `update(1, 10)` gives 3, 10, 1; `update(4, 10)` fails with `IndexOutOfRange` |
| `BoxStack.EmptyStack` | src/lib.rs:19-21 | the empty stack is empty, and its `head` and `tail` fail with `NoSuchElementException` |
| `BoxStack.IsEmpty` | src/lib.rs:22-27 | `is_empty`; its contract is stated from the other side: `EmptyStack` is empty, `Push` never is, and `Head` and `Tail` fail exactly when it holds |
| `BoxStack.Push` | src/lib.rs:28-30 | `cons(s, x)` is not empty, its head is `x` and its tail is `s` |
| `BoxStack.Head` | src/lib.rs:31-36 | `head` fails exactly when the stack is empty |
| `BoxStack.Tail` | src/lib.rs:37-42 | `tail` fails exactly when the stack is empty |
| `BoxStack.PushHeadTail` | src/lib.rs:28-42 | pushing the head of a non-empty stack back onto its tail rebuilds the stack |
| `BoxStack.HeadAfterTwoTails` | src/lib.rs:84-90 | after pushing 1, 2 and 3, two tails leave a stack whose head is 1 |

## Left out

- Reference counting (`Arc`, `Box`) and sharing versions across threads. Children and tails are plain datatype fields, so node identity, allocation counts and "only the path is copied" are not modelled. Sharing is stated as value equality: `insert` returns the original tree, and `update` leaves an equal suffix.
- Keys are `int`. The source accepts any totally ordered key type, and it uses only `<`, `>` and `==` on keys.
- `size`, `get` and `update` take and return `u32` in the source. Here they use `nat`, so wrap-around on stacks of 2^32 or more cells is not modelled. `complete` and `depth` likewise use `nat` for `u32`.
- Recursion depth on skewed trees and long stacks is a runtime limit, not behaviour, and is not modelled.
- The `Set`, `Map` and `Stack` trait declarations are not modelled as separate entities; their operations are functions of each module. The `Debug` and `Clone` derives and the documentation-test harness are also left out.
- The tree lemmas about `lookup`, `member`, `bind` and `insert` assume an ordered tree, which every tree built by these operations is. `complete` deliberately builds trees with repeated keys, and for those nothing is claimed beyond their shape and depth.
