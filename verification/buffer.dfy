/** A value model of the fixed-capacity buffer: a backing store of
    `BUFFER_SIZE` slots and a cursor `next`. The first `next` slots hold the
    elements added since the last consume; the rest hold stale values that
    the contract never reads.

    `add` and `consume` take the buffer by value and return the new buffer
    together with the call's result, which is how a `&mut self` call on a
    single-owner value is stated functionally. */
module Buffer {
  import opened Wrappers

  /** Number of slots of every buffer. */
  const BUFFER_SIZE: nat := 512

  /** Returned by `add` on a full buffer; hands the rejected element back. */
  datatype BufferFullError<T> = BufferFullError(element: T)

  /** Outcome of one `add` call. */
  type AddResult<T> = Result<(), BufferFullError<T>>

  /** The buffer as a value: its backing slots and its cursor. */
  datatype BufferState<T> = BufferState(elements: seq<T>, next: nat)

  /** Representation invariant: the backing store has exactly `BUFFER_SIZE`
      slots and the cursor lies within it. */
  predicate Valid<T>(b: BufferState<T>) {
    |b.elements| == BUFFER_SIZE && b.next <= BUFFER_SIZE
  }

  /** The abstract contents: the occupied prefix, in insertion order. */
  function Contents<T>(b: BufferState<T>): seq<T>
    requires Valid(b)
  {
    b.elements[..b.next]
  }

  /** A fresh buffer whose every slot holds `fill` (the element type's
      default value) and which holds no element. */
  function New<T>(fill: T): (b: BufferState<T>)
    ensures Valid(b)
    ensures Used(b) == 0 && Contents(b) == []
    ensures Capacity(b) == BUFFER_SIZE
    ensures forall i :: 0 <= i < |b.elements| ==> b.elements[i] == fill
  {
    BufferState(seq(BUFFER_SIZE, _ => fill), 0)
  }

  /** Appends `element` if a slot is free; otherwise refuses, returns the very
      element inside the error and leaves the buffer as it was. */
  function Add<T>(b: BufferState<T>, element: T): (out: (BufferState<T>, AddResult<T>))
    requires Valid(b)
    ensures Valid(out.0)
    ensures Capacity(out.0) == Capacity(b)
    ensures out.1.Ok? <==> Used(b) < Capacity(b)
    ensures out.1.Ok? ==> Used(out.0) == Used(b) + 1
    ensures out.1.Ok? ==> Contents(out.0) == Contents(b) + [element]
    ensures out.1.Ok? ==> forall i :: 0 <= i < b.next ==> out.0.elements[i] == b.elements[i]
    ensures out.1.Err? ==> out.1 == Err(BufferFullError(element)) && out.0 == b
  {
    if b.next == BUFFER_SIZE then
      (b, Err(BufferFullError(element)))
    else
      (BufferState(b.elements[b.next := element], b.next + 1), Ok(()))
  }

  /** Drains the buffer: `None` when it is empty, otherwise the occupied
      prefix in insertion order; either way the buffer is empty afterwards.
      The backing store is not cleared. */
  function Consume<T>(b: BufferState<T>): (out: (BufferState<T>, Option<seq<T>>))
    requires Valid(b)
    ensures Valid(out.0)
    ensures Used(out.0) == 0 && Contents(out.0) == []
    ensures Capacity(out.0) == Capacity(b)
    ensures out.0.elements == b.elements
    ensures out.1.None? <==> Used(b) == 0
    ensures out.1.None? ==> out.0 == b
    ensures out.1.Some? ==> |out.1.value| == Used(b) && out.1.value == Contents(b)
  {
    if b.next == 0 then
      (b, None)
    else
      (BufferState(b.elements, 0), Some(b.elements[..b.next]))
  }

  /** Number of elements currently held. */
  function Used<T>(b: BufferState<T>): (r: nat)
    requires Valid(b)
    ensures r == |Contents(b)|
    ensures r <= Capacity(b)
  {
    b.next
  }

  /** Maximum number of elements the buffer can hold. */
  function Capacity<T>(b: BufferState<T>): (r: nat)
    requires Valid(b)
    ensures r == |b.elements|
  {
    BUFFER_SIZE
  }

  /** A second consume with no add in between finds nothing. */
  lemma ConsumeTwiceIsNone<T>(b: BufferState<T>)
    requires Valid(b)
    ensures Consume(Consume(b).0).1 == None
    ensures Consume(Consume(b).0).0 == Consume(b).0
  {
  }

  /** An add that is accepted can always be undone by the next consume: what
      comes out is the previous contents followed by the new element. */
  lemma AddThenConsume<T>(b: BufferState<T>, element: T)
    requires Valid(b) && Used(b) < Capacity(b)
    ensures Consume(Add(b, element).0).1 == Some(Contents(b) + [element])
  {
  }
}
