/**
 * An unbalanced binary search tree that serves both as an immutable Map
 * (keys bound to values) and as an immutable Set (every value is `()`),
 * the UnbalancedSet of chapter 2 of Okasaki's "Purely Functional Data
 * Structures".
 *
 * Every operation is a pure function that builds a new tree and leaves its
 * argument untouched; the subtrees that a new version shares with an old one
 * are ordinary datatype fields here.  Keys are integers: the source only
 * needs `<`, `>` and `==` of a total order.
 */
module UnbalancedTree {

  datatype Option<T> = None | Some(value: T)

  datatype Tree<V> = Empty | Node(left: Tree<V>, key: int, value: V, right: Tree<V>)

  // ---------------------------------------------------------------------------
  // Specification: the keys, the search-tree invariant and the bound map
  // ---------------------------------------------------------------------------

  /** Every key stored anywhere in `t`. */
  function Keys<V>(t: Tree<V>): set<int>
  {
    match t
    case Empty => {}
    case Node(l, k, _, r) => Keys(l) + {k} + Keys(r)
  }

  /** The search-tree invariant, holding at every node: keys on the left are
      smaller than the node's key, keys on the right are greater. */
  ghost predicate Ordered<V>(t: Tree<V>)
  {
    match t
    case Empty => true
    case Node(l, k, _, r) =>
      && (forall x :: x in Keys(l) ==> x < k)
      && (forall x :: x in Keys(r) ==> k < x)
      && Ordered(l)
      && Ordered(r)
  }

  /** The map an ordered tree stands for. */
  ghost function Bindings<V>(t: Tree<V>): (m: map<int, V>)
    ensures m.Keys == Keys(t)
  {
    match t
    case Empty => map[]
    case Node(l, k, v, r) => Bindings(l) + Bindings(r) + map[k := v]
  }

  /** The entry `m` holds for `k`, as an Option. */
  ghost function Get<V>(m: map<int, V>, k: int): Option<V>
  {
    if k in m then Some(m[k]) else None
  }

  /** Reference search: the ordinary descent with a three-way comparison at
      every node, against which the candidate-tracking search is proved. */
  function Find<V>(t: Tree<V>, k: int): Option<V>
  {
    match t
    case Empty => None
    case Node(l, key, v, r) =>
      if k < key then Find(l, k)
      else if k > key then Find(r, k)
      else Some(v)
  }

  // ---------------------------------------------------------------------------
  // Map view
  // ---------------------------------------------------------------------------

  /** `empty_map`: the tree with no bindings. */
  function EmptyMap<V>(): (t: Tree<V>)
    ensures Ordered(t) && Bindings(t) == map[]
    ensures forall k :: Lookup(t, k) == None
  {
    Empty
  }

  /** A one-node tree whose two children are empty. */
  function Singleton<V>(k: int, v: V): (t: Tree<V>)
    ensures Ordered(t)
    ensures Keys(t) == {k} && Bindings(t) == map[k := v]
  {
    Node(Empty, k, v, Empty)
  }

  /** `bind`: copy the path down to `k`; an existing node with key `k` gets
      the new key and value, otherwise a singleton is hung where the search
      falls off the tree. */
  function Bind<V>(t: Tree<V>, k: int, v: V): (r: Tree<V>)
    ensures Keys(r) == Keys(t) + {k}
    ensures Ordered(t) ==> Ordered(r)
  {
    match t
    case Empty => Singleton(k, v)
    case Node(l, key, value, right) =>
      if k < key then Node(Bind(l, k, v), key, value, right)
      else if k > key then Node(l, key, value, Bind(right, k, v))
      else Node(l, k, v, right)
  }

  /** On an ordered tree, `bind(k, v)` binds `k` to `v` and keeps every other
      binding. */
  lemma {:induction false} BindBindings<V>(t: Tree<V>, k: int, v: V)
    requires Ordered(t)
    ensures Bindings(Bind(t, k, v)) == Bindings(t)[k := v]
  {
    match t
    case Empty =>
    case Node(l, key, value, right) =>
      var top := map[key := value];
      if k < key {
        BindBindings(l, k, v);
        assert k !in Bindings(right);
        UpdateThenUnion(Bindings(l), Bindings(right), k, v);
        UpdateThenUnion(Bindings(l) + Bindings(right), top, k, v);
      } else if k > key {
        BindBindings(right, k, v);
        UnionThenUpdate(Bindings(l), Bindings(right), k, v);
        UpdateThenUnion(Bindings(l) + Bindings(right), top, k, v);
      } else {
        UnionThenUpdate(Bindings(l) + Bindings(right), top, k, v);
      }
  }

  lemma UpdateThenUnion<V>(a: map<int, V>, b: map<int, V>, k: int, v: V)
    requires k !in b
    ensures a[k := v] + b == (a + b)[k := v]
  {
  }

  lemma UnionThenUpdate<V>(a: map<int, V>, b: map<int, V>, k: int, v: V)
    ensures a + b[k := v] == (a + b)[k := v]
  {
  }

  /** `lookup`: seed the candidate with the root's binding and search.  On
      any tree, it finds only keys the tree holds. */
  function Lookup<V>(t: Tree<V>, k: int): (r: Option<V>)
    ensures r.Some? ==> k in Keys(t)
  {
    match t
    case Empty => None
    case Node(_, key, value, _) => LookupWithCandidate(t, k, key, value)
  }

  /** `lookup_with_candidate`: descend with one `<` per node, carrying the
      binding of the last node whose key is not greater than `k`, and compare
      for equality only once the search falls off the tree.  On any tree, an
      answer is either a key of the subtree or the candidate itself. */
  function LookupWithCandidate<V>(t: Tree<V>, k: int, candidateKey: int, candidateValue: V): (r: Option<V>)
    ensures r.Some? ==> k in Keys(t) || (k == candidateKey && r.value == candidateValue)
  {
    match t
    case Empty => if k == candidateKey then Some(candidateValue) else None
    case Node(l, key, value, r) =>
      if k < key then LookupWithCandidate(l, k, candidateKey, candidateValue)
      else LookupWithCandidate(r, k, key, value)
  }

  /** Within an ordered tree the candidate search finds what the three-way
      search finds; for a key the subtree lacks, it answers with the
      candidate when the candidate's key is `k`.  A candidate with key `k`
      lies below the whole subtree, as one reached by descending does. */
  lemma {:induction false} LookupWithCandidateFinds<V>(t: Tree<V>, k: int, candidateKey: int, candidateValue: V)
    requires Ordered(t)
    requires k == candidateKey ==> forall x :: x in Keys(t) ==> candidateKey < x
    ensures LookupWithCandidate(t, k, candidateKey, candidateValue)
            == if k in Keys(t) then Find(t, k)
               else if k == candidateKey then Some(candidateValue)
               else None
  {
    match t
    case Empty =>
    case Node(l, key, value, r) =>
      if k < key {
        assert Keys(l) <= Keys(t);
        LookupWithCandidateFinds(l, k, candidateKey, candidateValue);
      } else {
        LookupWithCandidateFinds(r, k, key, value);
      }
  }

  /** Three-way search on an ordered tree returns exactly the bound value. */
  lemma {:induction false} FindBindings<V>(t: Tree<V>, k: int)
    requires Ordered(t)
    ensures Find(t, k) == Get(Bindings(t), k)
  {
    match t
    case Empty =>
    case Node(l, key, value, r) =>
      if k < key {
        FindBindings(l, k);
        assert k !in Bindings(r);
      } else if k > key {
        FindBindings(r, k);
        assert k !in Bindings(l);
      }
  }

  /** On an ordered tree `lookup` agrees with the three-way search and
      returns `Some(v)` exactly when `k` is bound to `v`. */
  lemma LookupIsSearch<V>(t: Tree<V>, k: int)
    requires Ordered(t)
    ensures Lookup(t, k) == Find(t, k)
    ensures Lookup(t, k) == Get(Bindings(t), k)
  {
    FindBindings(t, k);
    match t
    case Empty =>
    case Node(l, key, value, r) =>
      if k < key {
        LookupWithCandidateFinds(l, k, key, value);
      } else {
        LookupWithCandidateFinds(r, k, key, value);
      }
  }

  /** After `bind(k, v)` the key `k` looks up to `v` (also when it was bound
      before) and every other key looks up as it did. */
  lemma BindLookup<V>(t: Tree<V>, k: int, v: V, j: int)
    requires Ordered(t)
    ensures Lookup(Bind(t, k, v), j) == if j == k then Some(v) else Lookup(t, j)
  {
    LookupIsSearch(t, j);
    LookupIsSearch(Bind(t, k, v), j);
    BindBindings(t, k, v);
  }

  // ---------------------------------------------------------------------------
  // Set view: trees whose values are all `()`
  // ---------------------------------------------------------------------------

  /** `empty`: the set with no members. */
  function EmptySet(): (t: Tree<()>)
    ensures Ordered(t)
    ensures forall x :: !Member(t, x)
  {
    Empty
  }

  /** `try_insert_with_candidate`: copy the path down to where `x` belongs;
      `None` means "already present", so nothing needs to be rebuilt. */
  function TryInsertWithCandidate(t: Tree<()>, x: int, candidate: int): (r: Option<Tree<()>>)
    ensures r.None? ==> x in Keys(t) || x == candidate
    ensures r.Some? ==> Keys(r.value) == Keys(t) + {x}
    ensures r.Some? && Ordered(t) ==> Ordered(r.value)
    ensures Ordered(t) && (x == candidate ==> x in Keys(t)) ==> (r.None? <==> x in Keys(t))
  {
    match t
    case Empty =>
      if x == candidate then None else Some(Singleton(x, ()))
    case Node(l, key, _, right) =>
      if x < key then
        match TryInsertWithCandidate(l, x, candidate)
        case Some(l') => Some(Node(l', key, (), right))
        case None => None
      else if x > key then
        match TryInsertWithCandidate(right, x, key)
        case Some(r') => Some(Node(l, key, (), r'))
        case None => None
      else
        None
  }

  /** `insert`: on a tree that already holds `x` the very same tree comes
      back; otherwise the tree grows by exactly `x`. */
  function Insert(t: Tree<()>, x: int): (r: Tree<()>)
    ensures Keys(r) == Keys(t) + {x}
    ensures Ordered(t) ==> Ordered(r)
    ensures Ordered(t) ==> (r == t <==> x in Keys(t))
  {
    match t
    case Empty => Singleton(x, ())
    case Node(_, key, _, _) =>
      match TryInsertWithCandidate(t, x, key)
      case Some(grown) => grown
      case None => t
  }

  /** `member`: whether `lookup` finds the value; on any tree, only keys the
      tree holds are members. */
  function Member(t: Tree<()>, x: int): (b: bool)
    ensures b ==> x in Keys(t)
  {
    Lookup(t, x).Some?
  }

  /** On an ordered tree, membership is exactly being one of the keys. */
  lemma MemberKeys(t: Tree<()>, x: int)
    requires Ordered(t)
    ensures Member(t, x) <==> x in Keys(t)
  {
    LookupIsSearch(t, x);
  }

  /** After `insert(x)`, `x` is a member and every other value is a member
      exactly when it was one before. */
  lemma InsertMember(t: Tree<()>, x: int, y: int)
    requires Ordered(t)
    ensures Member(Insert(t, x), y) <==> y == x || Member(t, y)
  {
    MemberKeys(t, y);
    MemberKeys(Insert(t, x), y);
  }

  /** Once the helper has hung `x` into a tree, running it again on the grown
      tree with the same candidate finds `x` and answers `None`. */
  lemma {:induction false} TryInsertTwice(t: Tree<()>, x: int, candidate: int)
    requires TryInsertWithCandidate(t, x, candidate).Some?
    ensures TryInsertWithCandidate(TryInsertWithCandidate(t, x, candidate).value, x, candidate).None?
  {
    match t
    case Empty =>
    case Node(l, key, _, right) =>
      if x < key {
        TryInsertTwice(l, x, candidate);
      } else if x > key {
        TryInsertTwice(right, x, key);
      }
  }

  /** Inserting the same value twice gives the tree the first insert gave,
      on every tree, ordered or not. */
  lemma InsertIdempotent(t: Tree<()>, x: int)
    ensures Insert(Insert(t, x), x) == Insert(t, x)
  {
    match t
    case Empty =>
    case Node(_, key, _, _) =>
      if TryInsertWithCandidate(t, x, key).Some? {
        TryInsertTwice(t, x, key);
      }
  }

  // ---------------------------------------------------------------------------
  // Test helpers: depth and complete trees
  // ---------------------------------------------------------------------------

  /** `depth`: the number of nodes on the longest root-to-leaf path. */
  function Depth<V>(t: Tree<V>): (d: nat)
    ensures d == 0 <==> t.Empty?
  {
    match t
    case Empty => 0
    case Node(l, _, _, r) => 1 + if Depth(l) < Depth(r) then Depth(r) else Depth(l)
  }

  /** The perfect tree of the given depth whose every key is `x`. */
  function CompleteTree(x: int, depth: nat): Tree<()>
  {
    if depth == 0 then Empty
    else Node(CompleteTree(x, depth - 1), x, (), CompleteTree(x, depth - 1))
  }

  /** `complete`: start from the empty tree and, `depth` times, put the tree
      built so far under a new root as both of its children. */
  method Complete(x: int, depth: nat) returns (t: Tree<()>)
    ensures t == CompleteTree(x, depth)
    ensures Depth(t) == depth
  {
    t := Empty;
    for i := 0 to depth
      invariant t == CompleteTree(x, i)
    {
      t := Node(t, x, (), t);
    }
    CompleteTreeDepth(x, depth);
  }

  /** The tree `complete(x, d)` builds has depth `d`. */
  lemma {:induction false} CompleteTreeDepth(x: int, depth: nat)
    ensures Depth(CompleteTree(x, depth)) == depth
  {
    if depth > 0 {
      CompleteTreeDepth(x, depth - 1);
    }
  }

  // ---------------------------------------------------------------------------
  // The source's own examples
  // ---------------------------------------------------------------------------

  /** Inserting 3 and then 5 into the empty set: both are members, 42 is not. */
  lemma InsertedValuesAreContained()
    ensures var t := Insert(Insert(EmptySet(), 3), 5);
            Member(t, 3) && Member(t, 5) && !Member(t, 42)
  {
  }

  /** Rebinding 2 in a three-entry map: the new version sees the new value and
      the version it was built from still sees the old one. */
  lemma MapValuesCanBeReplaced(three: string, one: string, two: string, notTwo: string)
    ensures var map1 := Bind(Bind(Bind(EmptyMap(), 3, three), 1, one), 2, two);
            var map2 := Bind(map1, 2, notTwo);
            Lookup(map1, 2) == Some(two) && Lookup(map2, 2) == Some(notTwo)
  {
    var map1 := Bind(Bind(Bind(EmptyMap(), 3, three), 1, one), 2, two);
    BindLookup(Bind(Bind(EmptyMap(), 3, three), 1, one), 2, two, 2);
    BindLookup(map1, 2, notTwo, 2);
  }
}
