/** The buffer as a mutable object: a backing array of `BUFFER_SIZE` slots
    and a cursor, with a ghost `contents` that abstracts the occupied prefix.
    Each method is proved to do what the value model in `Buffer` does. */
module StaticBufferImpl {
  import opened Wrappers
  import Buffer

  /** A newly allocated sequence holding the first `n` slots of `src`, built
      the way the drain does it: fill with `fill`, then copy slot by slot. */
  method CopyPrefix<T>(src: array<T>, n: nat, fill: T) returns (data: seq<T>)
    requires n <= src.Length
    ensures |data| == n
    ensures forall i :: 0 <= i < n ==> data[i] == src[i]
  {
    var out := new T[n](_ => fill);
    var i := 0;
    while i < n
      invariant 0 <= i <= n
      invariant forall j :: 0 <= j < i ==> out[j] == src[j]
    {
      out[i] := src[i];
      i := i + 1;
    }
    data := out[..];
  }

  class StaticBuffer<T> {
    const elements: array<T>
    var next: nat
    /** The element type's default value, used to pre-fill storage. */
    const fill: T
    ghost var contents: seq<T>

    ghost predicate Valid()
      reads this, elements
    {
      && elements.Length == Buffer.BUFFER_SIZE
      && next <= Buffer.BUFFER_SIZE
      && contents == elements[..next]
    }

    /** The object's state as a value of the model. */
    ghost function View(): Buffer.BufferState<T>
      reads this, elements
    {
      Buffer.BufferState(elements[..], next)
    }

    constructor (fill: T)
      ensures Valid() && fresh(elements)
      ensures contents == []
      ensures View() == Buffer.New(fill)
    {
      this.elements := new T[Buffer.BUFFER_SIZE](_ => fill);
      this.next := 0;
      this.fill := fill;
      this.contents := [];
    }

    method Add(element: T) returns (r: Buffer.AddResult<T>)
      requires Valid()
      modifies this, elements
      ensures Valid()
      ensures (View(), r) == Buffer.Add(old(View()), element)
      ensures old(next) < Buffer.BUFFER_SIZE ==> r.Ok? && contents == old(contents) + [element]
      ensures old(next) == Buffer.BUFFER_SIZE ==>
        r == Err(Buffer.BufferFullError(element)) && contents == old(contents)
    {
      if next == Buffer.BUFFER_SIZE {
        return Err(Buffer.BufferFullError(element));
      }
      elements[next] := element;
      next := next + 1;
      contents := contents + [element];
      r := Ok(());
    }

    method Consume() returns (r: Option<seq<T>>)
      requires Valid()
      modifies this
      ensures Valid()
      ensures (View(), r) == Buffer.Consume(old(View()))
      ensures contents == []
      ensures old(next) == 0 ==> r == None
      ensures old(next) > 0 ==> r == Some(old(contents))
    {
      if next == 0 {
        return None;
      }
      var data := CopyPrefix(elements, next, fill);
      assert data == elements[..next];
      next := 0;
      contents := [];
      r := Some(data);
    }

    function Used(): (r: nat)
      requires Valid()
      reads this, elements
      ensures r == |contents|
      ensures r <= Capacity()
    {
      next
    }

    function Capacity(): (r: nat)
      requires Valid()
      reads this, elements
      ensures r == elements.Length
    {
      Buffer.BUFFER_SIZE
    }
  }
}
