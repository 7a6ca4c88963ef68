/**
 * A persistent singly-linked stack whose tails are shared between versions:
 * `cons` puts one new cell in front of an existing stack, `tail` hands back
 * the stack behind the first cell, and `update` rebuilds the cells in front
 * of the changed position while reusing everything behind it.
 *
 * The stack is a datatype; a tail shared by several versions is an ordinary
 * field.  Sizes and indices are natural numbers.
 */
module SharedStack {

  datatype StackError = NoSuchElementException | IndexOutOfRange

  datatype Result<T> = Ok(value: T) | Err(error: StackError)

  datatype CustomStack<T> = Empty | Cons(value: T, tail: CustomStack<T>)

  // ---------------------------------------------------------------------------
  // Specification: the elements from the top down, and repeated `tail`
  // ---------------------------------------------------------------------------

  /** The values of `s`, top of the stack first. */
  function Elements<T>(s: CustomStack<T>): seq<T>
  {
    match s
    case Empty => []
    case Cons(v, rest) => [v] + Elements(rest)
  }

  /** `tail` applied `n` times, failing as `tail` does once the stack runs out. */
  function Drop<T>(s: CustomStack<T>, n: nat): (r: Result<CustomStack<T>>)
    ensures n <= Size(s) ==> r.Ok? && Elements(r.value) == Elements(s)[n..]
    ensures n > Size(s) ==> r == Err(NoSuchElementException)
  {
    if n == 0 then Ok(s)
    else
      match Tail(s)
      case Err(e) => Err(e)
      case Ok(rest) => Drop(rest, n - 1)
  }

  // ---------------------------------------------------------------------------
  // Operations
  // ---------------------------------------------------------------------------

  /** `empty`: the stack with no elements. */
  function EmptyStack<T>(): (s: CustomStack<T>)
    ensures IsEmpty(s) && Size(s) == 0 && Elements(s) == []
  {
    Empty
  }

  /** `is_empty`. */
  function IsEmpty<T>(s: CustomStack<T>): (b: bool)
    ensures b <==> Size(s) == 0
  {
    s.Empty?
  }

  /** `cons`: a new cell holding `x` in front of `s`; `head` gives `x` back
      and `tail` gives `s` back. */
  function Push<T>(s: CustomStack<T>, x: T): (r: CustomStack<T>)
    ensures Head(r) == Ok(x) && Tail(r) == Ok(s)
    ensures Size(r) == Size(s) + 1
  {
    Cons(x, s)
  }

  /** `head`: the top value, or `NoSuchElementException` on an empty stack. */
  function Head<T>(s: CustomStack<T>): (r: Result<T>)
    ensures r.Err? <==> IsEmpty(s)
    ensures r.Err? ==> r.error == NoSuchElementException
    ensures r.Ok? ==> r.value == Elements(s)[0]
  {
    match s
    case Empty => Err(NoSuchElementException)
    case Cons(v, _) => Ok(v)
  }

  /** `tail`: the stack behind the top cell, or `NoSuchElementException` on an
      empty stack. */
  function Tail<T>(s: CustomStack<T>): (r: Result<CustomStack<T>>)
    ensures r.Err? <==> IsEmpty(s)
    ensures r.Err? ==> r.error == NoSuchElementException
    ensures r.Ok? ==> Elements(r.value) == Elements(s)[1..]
  {
    match s
    case Empty => Err(NoSuchElementException)
    case Cons(_, rest) => Ok(rest)
  }

  /** `size`: the number of cells, counted by walking the chain. */
  function Size<T>(s: CustomStack<T>): (n: nat)
    ensures n == |Elements(s)|
  {
    match s
    case Empty => 0
    case Cons(_, rest) => 1 + Size(rest)
  }

  /** `get`: the value at index `i` from the top, or `IndexOutOfRange` when
      the descent runs off the end. */
  function Get<T>(s: CustomStack<T>, i: nat): (r: Result<T>)
    ensures r.Ok? <==> i < Size(s)
    ensures r.Ok? ==> r.value == Elements(s)[i]
    ensures r.Err? ==> r.error == IndexOutOfRange
  {
    match s
    case Empty => Err(IndexOutOfRange)
    case Cons(v, rest) =>
      if i == 0 then Ok(v) else Get(rest, i - 1)
  }

  /** `update`: replace the value at index `i`, rebuilding the cells in front
      of it; `IndexOutOfRange` when the descent runs off the end. */
  function Update<T>(s: CustomStack<T>, i: nat, x: T): (r: Result<CustomStack<T>>)
    ensures r.Ok? <==> i < Size(s)
    ensures r.Err? ==> r.error == IndexOutOfRange
    ensures r.Ok? ==> Elements(r.value) == Elements(s)[i := x]
  {
    match s
    case Empty => Err(IndexOutOfRange)
    case Cons(v, rest) =>
      if i == 0 then Ok(Push(rest, x))
      else
        match Update(rest, i - 1, x)
        case Err(e) => Err(e)
        case Ok(updatedRest) => Ok(Push(updatedRest, v))
  }

  /** `suffixes`: every suffix of `s`, longest (`s` itself) first and the
      empty stack last. */
  function Suffixes<T>(s: CustomStack<T>): (r: CustomStack<CustomStack<T>>)
    ensures Size(r) == Size(s) + 1
    ensures Head(r) == Ok(s)
  {
    var tailSuffixes :=
      match s
      case Empty => EmptyStack()
      case Cons(_, rest) => Suffixes(rest);
    Push(tailSuffixes, s)
  }

  // ---------------------------------------------------------------------------
  // Properties
  // ---------------------------------------------------------------------------

  /** Two stacks with the same elements are the same stack. */
  lemma {:induction false} ElementsInjective<T>(s: CustomStack<T>, s': CustomStack<T>)
    requires Elements(s) == Elements(s')
    ensures s == s'
  {
    match s
    case Empty =>
    case Cons(v, rest) =>
      assert Elements(rest) == Elements(s)[1..] == Elements(s')[1..] == Elements(s'.tail);
      ElementsInjective(rest, s'.tail);
  }

  /** `get(i)` is `head` after `i` applications of `tail` when `i` is in
      range, and `IndexOutOfRange` otherwise. */
  lemma GetIsHeadAfterTails<T>(s: CustomStack<T>, i: nat)
    ensures i < Size(s) ==> Drop(s, i).Ok? && Get(s, i) == Head(Drop(s, i).value)
    ensures i >= Size(s) ==> Get(s, i) == Err(IndexOutOfRange)
  {
  }

  /** A successful `update(i, x)` keeps the size, reads back `x` at `i` and
      leaves every other index as it was. */
  lemma UpdateGet<T>(s: CustomStack<T>, i: nat, x: T, j: nat)
    requires Update(s, i, x).Ok?
    ensures Size(Update(s, i, x).value) == Size(s)
    ensures Get(Update(s, i, x).value, i) == Ok(x)
    ensures j != i ==> Get(Update(s, i, x).value, j) == Get(s, j)
  {
  }

  /** A successful `update(i, x)` shares the part behind index `i`: dropping
      `i + 1` cells from the result and from `s` gives the same stack. */
  lemma {:induction false} UpdateSharesSuffix<T>(s: CustomStack<T>, i: nat, x: T)
    requires Update(s, i, x).Ok?
    ensures Drop(Update(s, i, x).value, i + 1) == Drop(s, i + 1)
  {
    match s
    case Cons(v, rest) =>
      if i > 0 {
        UpdateSharesSuffix(rest, i - 1, x);
      }
  }

  /** The `k`-th entry of `suffixes(s)` is `s` with `k` cells dropped, for
      every `k` up to the size of `s`; the last entry is the empty stack. */
  lemma {:induction false} SuffixesAt<T>(s: CustomStack<T>, k: nat)
    requires k <= Size(s)
    ensures Get(Suffixes(s), k) == Drop(s, k)
    ensures k == Size(s) ==> Get(Suffixes(s), k) == Ok(Empty)
  {
    if k > 0 {
      SuffixesAt(s.tail, k - 1);
    }
    if k == Size(s) {
      ElementsInjective(Drop(s, k).value, Empty);
    }
  }

  /** The source's own example: 3, 2, 1 pushed onto the empty stack; two
      tails leave a stack headed by 1 and one tail a stack headed by 2; then
      the value at index 1 is replaced by 10. */
  lemma UpdateExample()
    ensures var s := Push(Push(Push(EmptyStack(), 1), 2), 3);
            && Get(s, 0) == Ok(3) && Get(s, 1) == Ok(2) && Get(s, 2) == Ok(1)
            && Get(s, 3) == Err(IndexOutOfRange)
            && Drop(s, 2).Ok? && Head(Drop(s, 2).value) == Ok(1)
            && Drop(s, 1).Ok? && Head(Drop(s, 1).value) == Ok(2)
            && Update(s, 1, 10).Ok?
            && Get(Update(s, 1, 10).value, 0) == Ok(3)
            && Get(Update(s, 1, 10).value, 1) == Ok(10)
            && Get(Update(s, 1, 10).value, 2) == Ok(1)
            && Update(s, 4, 10) == Err(IndexOutOfRange)
  {
  }
}
