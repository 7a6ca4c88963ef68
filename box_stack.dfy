/**
 * The first, singly-owned stack: every operation consumes the stack it is
 * given and returns a new value built from its parts.  Only `empty`,
 * `is_empty`, `cons`, `head` and `tail` exist, and the one failure is asking
 * an empty stack for its head or tail.
 */
module BoxStack {

  datatype StackError = NoSuchElementException

  datatype Result<T> = Ok(value: T) | Err(error: StackError)

  datatype CustomStack<T> = Empty | Cons(value: T, tail: CustomStack<T>)

  /** `empty`: the stack with no elements; it has neither head nor tail. */
  function EmptyStack<T>(): (s: CustomStack<T>)
    ensures IsEmpty(s)
    ensures Head(s) == Err(NoSuchElementException) && Tail(s) == Err(NoSuchElementException)
  {
    Empty
  }

  /** `is_empty`. */
  function IsEmpty<T>(s: CustomStack<T>): bool
  {
    s.Empty?
  }

  /** `cons`: a new cell holding `x` in front of `s`; it is not empty, its
      head is `x` and its tail is `s`. */
  function Push<T>(s: CustomStack<T>, x: T): (r: CustomStack<T>)
    ensures !IsEmpty(r)
    ensures Head(r) == Ok(x) && Tail(r) == Ok(s)
  {
    Cons(x, s)
  }

  /** `head`: the top value; it fails exactly on an empty stack. */
  function Head<T>(s: CustomStack<T>): (r: Result<T>)
    ensures r.Err? <==> IsEmpty(s)
  {
    match s
    case Empty => Err(NoSuchElementException)
    case Cons(v, _) => Ok(v)
  }

  /** `tail`: the stack behind the top cell; it fails exactly on an empty
      stack. */
  function Tail<T>(s: CustomStack<T>): (r: Result<CustomStack<T>>)
    ensures r.Err? <==> IsEmpty(s)
  {
    match s
    case Empty => Err(NoSuchElementException)
    case Cons(_, rest) => Ok(rest)
  }

  /** `head` and `tail` take a non-empty stack apart into what `cons` puts
      together. */
  lemma PushHeadTail<T>(s: CustomStack<T>)
    requires !IsEmpty(s)
    ensures Tail(s).Ok? && Head(s).Ok? && Push(Tail(s).value, Head(s).value) == s
  {
  }

  /** The source's own example: after pushing 1, 2 and 3, two tails leave a
      stack whose head is 1. */
  lemma HeadAfterTwoTails()
    ensures var s := Push(Push(Push(EmptyStack(), 1), 2), 3);
            && Tail(s).Ok? && Tail(Tail(s).value).Ok?
            && Head(Tail(Tail(s).value).value) == Ok(1)
  {
  }
}
