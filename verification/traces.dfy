/** Sequences of calls on one buffer: repeated adds, and arbitrary
    interleavings of adds and consumes. The lemmas here state the buffer's
    functional specification over a whole lifetime: every accepted element
    comes out of exactly one consume, in add order, and every rejected
    element is handed back to its caller. */
module BufferTraces {
  import opened Wrappers
  import opened Buffer

  /** One call on the buffer. */
  datatype Op<T> = AddOp(element: T) | ConsumeOp

  /** What one call returned. */
  datatype Outcome<T> = Added(result: AddResult<T>) | Consumed(data: Option<seq<T>>)

  function Step<T>(b: BufferState<T>, op: Op<T>): (out: (BufferState<T>, Outcome<T>))
    requires Valid(b)
    ensures Valid(out.0) && Capacity(out.0) == Capacity(b)
  {
    match op
    case AddOp(e) => var (b', r) := Add(b, e); (b', Added(r))
    case ConsumeOp => var (b', d) := Consume(b); (b', Consumed(d))
  }

  /** Performs `ops` in order, collecting one outcome per call. */
  function Run<T>(b: BufferState<T>, ops: seq<Op<T>>): (out: (BufferState<T>, seq<Outcome<T>>))
    requires Valid(b)
    ensures Valid(out.0) && Capacity(out.0) == Capacity(b)
    ensures |out.1| == |ops|
    decreases |ops|
  {
    if ops == [] then
      (b, [])
    else
      var (b1, o) := Step(b, ops[0]);
      var (f, os) := Run(b1, ops[1..]);
      (f, [o] + os)
  }

  /** The elements whose add was accepted, in call order. */
  function Accepted<T>(ops: seq<Op<T>>, outs: seq<Outcome<T>>): seq<T>
    requires |ops| == |outs|
  {
    if ops == [] then []
    else
      (if ops[0].AddOp? && outs[0].Added? && outs[0].result.Ok? then [ops[0].element] else [])
      + Accepted(ops[1..], outs[1..])
  }

  /** Everything the consumes returned, concatenated in call order. */
  function Drained<T>(outs: seq<Outcome<T>>): seq<T> {
    if outs == [] then []
    else
      (if outs[0].Consumed? && outs[0].data.Some? then outs[0].data.value else [])
      + Drained(outs[1..])
  }

  /** Performs one add per element of `xs`, in order. */
  function AddAll<T>(b: BufferState<T>, xs: seq<T>): (out: (BufferState<T>, seq<AddResult<T>>))
    requires Valid(b)
    ensures Valid(out.0) && Capacity(out.0) == Capacity(b)
    ensures |out.1| == |xs|
    decreases |xs|
  {
    if xs == [] then
      (b, [])
    else
      var (b1, r) := Add(b, xs[0]);
      var (f, rs) := AddAll(b1, xs[1..]);
      (f, [r] + rs)
  }

  function Min(a: int, b: int): int {
    if a <= b then a else b
  }

  /** Adding `xs` one by one: exactly the first `Capacity - Used` adds are
      accepted, every later one is refused with its own element, and the
      contents grow by the accepted prefix of `xs`. */
  lemma {:induction false} AddAllOutcome<T>(b: BufferState<T>, xs: seq<T>)
    requires Valid(b)
    ensures var (f, rs) := AddAll(b, xs);
      && (forall i :: 0 <= i < |xs| ==> (rs[i].Ok? <==> Used(b) + i < Capacity(b)))
      && (forall i :: 0 <= i < |xs| ==> rs[i].Err? ==> rs[i] == Err(BufferFullError(xs[i])))
      && Contents(f) == Contents(b) + xs[..Min(Capacity(b) - Used(b), |xs|)]
    decreases |xs|
  {
    if xs != [] {
      var (b1, r) := Add(b, xs[0]);
      var (f, rs) := AddAll(b, xs);
      var (f1, rs1) := AddAll(b1, xs[1..]);
      AddAllOutcome(b1, xs[1..]);
      assert rs == [r] + rs1;
      assert forall i :: 1 <= i < |xs| ==> rs[i] == rs1[i - 1] && xs[i] == xs[1..][i - 1];
      var k := Min(Capacity(b) - Used(b), |xs|);
      if r.Ok? {
        assert Contents(f) == Contents(b) + [xs[0]] + xs[1..][..k - 1];
        assert [xs[0]] + xs[1..][..k - 1] == xs[..k];
      } else {
        assert k == 0;
      }
    }
  }

  /** Within the free space every add succeeds, in order. */
  lemma {:induction false} AddAllWithinCapacity<T>(b: BufferState<T>, xs: seq<T>)
    requires Valid(b) && Used(b) + |xs| <= Capacity(b)
    ensures forall i :: 0 <= i < |xs| ==> AddAll(b, xs).1[i].Ok?
    ensures Contents(AddAll(b, xs).0) == Contents(b) + xs
    ensures Used(AddAll(b, xs).0) == Used(b) + |xs|
  {
    AddAllOutcome(b, xs);
    var out := AddAll(b, xs);
    assert Min(Capacity(b) - Used(b), |xs|) == |xs|;
    assert xs[..|xs|] == xs;
    assert Contents(out.0) == Contents(b) + xs;
  }

  /** After any consume the buffer is fully reusable: `Capacity` adds all
      succeed, one more is refused, and the next consume returns exactly the
      new elements, with nothing left over from before. */
  lemma {:induction false} ReusableAfterConsume<T>(b: BufferState<T>, xs: seq<T>, extra: T)
    requires Valid(b) && |xs| <= Capacity(b)
    ensures var (f, rs) := AddAll(Consume(b).0, xs);
      && (forall i :: 0 <= i < |rs| ==> rs[i].Ok?)
      && Consume(f).1 == (if xs == [] then None else Some(xs))
      && (|xs| == Capacity(b) ==> Add(f, extra).1 == Err(BufferFullError(extra)))
  {
    var empty := Consume(b).0;
    AddAllWithinCapacity(empty, xs);
    assert Contents(AddAll(empty, xs).0) == [] + xs == xs;
  }

  /** Conservation over any interleaving of calls: what the buffer held at
      the start followed by the accepted elements equals what the consumes
      returned followed by what the buffer still holds. */
  lemma {:induction false} RunConserves<T>(b: BufferState<T>, ops: seq<Op<T>>)
    requires Valid(b)
    ensures var (f, outs) := Run(b, ops);
      Contents(b) + Accepted(ops, outs) == Drained(outs) + Contents(f)
    decreases |ops|
  {
    if ops != [] {
      var (b1, o) := Step(b, ops[0]);
      var (f, outs) := Run(b, ops);
      var (f1, outs1) := Run(b1, ops[1..]);
      RunConserves(b1, ops[1..]);
      assert outs == [o] + outs1;
      assert outs[1..] == outs1;
      var acc := Accepted(ops[1..], outs1);
      var dr := Drained(outs1);
      assert Contents(b1) + acc == dr + Contents(f);
      match ops[0]
      case AddOp(e) =>
        if o.result.Ok? {
          assert Contents(b) + Accepted(ops, outs) == (Contents(b) + [e]) + acc;
        } else {
          assert Accepted(ops, outs) == acc;
        }
      case ConsumeOp =>
        if o.data.Some? {
          assert Drained(outs) == Contents(b) + dr;
          assert Contents(b) + Accepted(ops, outs) == Contents(b) + (Contents(b1) + acc);
        } else {
          assert Drained(outs) == dr;
        }
    }
  }

  /** Every add returns either success or its own element back, and every
      consume returns data or nothing: no call loses its argument. */
  lemma {:induction false} RunOutcomesMatchOps<T>(b: BufferState<T>, ops: seq<Op<T>>)
    requires Valid(b)
    ensures var (f, outs) := Run(b, ops);
      forall i :: 0 <= i < |ops| ==>
        (ops[i].AddOp? <==> outs[i].Added?)
        && (ops[i].AddOp? ==> (outs[i].result.Ok? || outs[i].result == Err(BufferFullError(ops[i].element))))
    decreases |ops|
  {
    if ops != [] {
      var (b1, o) := Step(b, ops[0]);
      var (f, outs) := Run(b, ops);
      var (f1, outs1) := Run(b1, ops[1..]);
      RunOutcomesMatchOps(b1, ops[1..]);
      assert outs == [o] + outs1;
      assert forall i :: 1 <= i < |ops| ==> outs[i] == outs1[i - 1] && ops[i] == ops[1..][i - 1];
    }
  }

  /** From a fresh buffer, the consumes return every accepted element once,
      in add order, except those still held at the end. */
  lemma {:induction false} LifetimeFromNew<T>(fill: T, ops: seq<Op<T>>)
    ensures var (f, outs) := Run(New(fill), ops);
      Accepted(ops, outs) == Drained(outs) + Contents(f)
  {
    RunConserves(New(fill), ops);
  }
}
