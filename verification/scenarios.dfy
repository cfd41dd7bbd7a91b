/** The buffer's three test scenarios, stated over the value model and, for
    the fill-drain-refill scenario, also stated for the mutable object. */
module BufferScenarios {
  import opened Wrappers
  import opened Buffer
  import opened BufferTraces
  import Impl = StaticBufferImpl

  /** A fresh buffer is empty, has capacity 512 and drains to nothing. */
  lemma EmptyBuffer()
    ensures Used(New<int>(0)) == 0
    ensures Capacity(New<int>(0)) == 512
    ensures Consume(New<int>(0)).1 == None
  {
  }

  /** One accepted add, then a drain returning just that element. */
  lemma AddOne()
    ensures Add(New<int>(0), 123).1.Ok?
    ensures Used(Add(New<int>(0), 123).0) == 1
    ensures Consume(Add(New<int>(0), 123).0).1 == Some([123])
  {
    var one := Add(New<int>(0), 123).0;
    assert Contents(one) == [] + [123] == [123];
    assert Used(one) == 1;
  }

  /** Fill with 0..511, be refused on 512 (and get it back), drain
      0..511 in order, then add 34 and drain exactly [34]. */
  lemma {:induction false} AddUntilFull()
    ensures var (full, rs) := AddAll(New<int>(0), seq(BUFFER_SIZE, i => i));
      && (forall i :: 0 <= i < |rs| ==> rs[i].Ok?)
      && Used(full) == BUFFER_SIZE
      && Add(full, 512) == (full, Err(BufferFullError(512)))
      && Consume(full).1 == Some(seq(BUFFER_SIZE, i => i))
      && var (again, r) := Add(Consume(full).0, 34);
        && r.Ok?
        && Used(again) == 1
        && Consume(again).1 == Some([34])
  {
    var xs := seq(BUFFER_SIZE, i => i);
    AddAllWithinCapacity(New<int>(0), xs);
    var full := AddAll(New<int>(0), xs).0;
    assert Contents(full) == [] + xs == xs;
    assert Consume(full).1 == Some(xs);
    var again := Add(Consume(full).0, 34).0;
    assert Contents(again) == [] + [34] == [34];
    assert Used(again) == 1;
  }

  /** The fill-drain-refill scenario driven against the mutable object, adding
      0..511 in a loop as the test does. */
  method AddUntilFullOnObject() returns (rejected: Buffer.AddResult<int>, first: Option<seq<int>>,
                                         refill: Buffer.AddResult<int>, second: Option<seq<int>>)
    ensures rejected == Err(BufferFullError(BUFFER_SIZE as int))
    ensures first == Some(seq(BUFFER_SIZE, i => i))
    ensures refill.Ok?
    ensures second == Some([34])
  {
    var buffer := new Impl.StaticBuffer<int>(0);
    var value := 0;
    while value < BUFFER_SIZE
      invariant 0 <= value <= BUFFER_SIZE
      invariant buffer.Valid() && fresh(buffer.elements)
      invariant buffer.contents == seq(value, i => i)
    {
      var r := buffer.Add(value);
      assert r.Ok?;
      value := value + 1;
    }
    rejected := buffer.Add(BUFFER_SIZE);
    assert buffer.Used() == BUFFER_SIZE;
    first := buffer.Consume();
    refill := buffer.Add(34);
    assert buffer.Used() == 1;
    second := buffer.Consume();
  }
}
