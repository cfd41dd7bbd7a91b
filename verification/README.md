# Fixed-capacity staging buffer, modelled in Dafny

The repository has one component: `StaticBuffer<T>`, which implements the
`Buffer<T>` trait. Its backing array has `BUFFER_SIZE = 512` slots and a
cursor `next`.

- `add` stores one element at `next` and advances the cursor. When the
  buffer is full it refuses and hands the element back in
  `BufferFullError`.
- `consume` returns the occupied prefix in insertion order as a newly
  allocated vector, then resets the cursor to 0. It returns `None` when
  nothing is held.
- `used` and `capacity` only observe the buffer.

The project has five modules.

- `Wrappers` (`wrappers.dfy`): the `Option` and `Result` return types.
- `Buffer` (`buffer.dfy`): the buffer as a value. `elements` is a
  sequence of 512 slots and `next` is the cursor. `Valid` is the
  representation invariant. `Contents` (the first `next` slots) is the
  abstraction the contracts are stated in. `add` and `consume` take the
  buffer and return the new buffer paired with the call's result. That is
  how a `&mut self` call on a single-owner value is written functionally.
- `BufferTraces` (`traces.dfy`): sequences of calls. This module gives the
  buffer's functional specification over its whole lifetime. Every
  accepted element comes out of exactly one consume, in add order. Every
  rejected element goes back to its caller. After a consume the buffer
  takes a full `capacity` of new adds, and none of the old data leaks out.
- `StaticBufferImpl` (`static_buffer.dfy`): the buffer as a mutable
  object. It has a backing `array<T>`, a cursor and a ghost `contents`.
  Each method is proved to do what the value model does. `consume` copies
  through a verified loop (`CopyPrefix`). It first fills a fresh array
  with the default value, then copies slot by slot, the way
  `vec![Default::default(); next]` followed by `copy_from_slice` does.
- `BufferScenarios` (`scenarios.dfy`): the three tests of the test module
  (empty buffer, add one, fill, refuse, drain and refill) written as
  lemmas. The fill-drain-refill test is also written as a method that
  drives the mutable object in a loop.

Capacity is the single constant `BUFFER_SIZE = 512` shared by every buffer
(src/buffer.rs:29).

## Model

| member | source | states |
|---|---|---|
| Buffer.New | src/buffer.rs:44-50 | a new buffer satisfies the invariant, holds nothing (used 0, empty contents), has capacity 512, and every slot holds the default value |
| Buffer.Add | src/buffer.rs:57-64 | the add succeeds exactly when used < capacity; on success used grows by one, the contents become the old contents followed by the element, and the slots before the old cursor are unchanged; on failure the error carries the very element passed in and the buffer is unchanged; the invariant and the capacity are kept either way |
| Buffer.Consume | src/buffer.rs:66-74 | returns None exactly when the buffer is empty, and then the buffer is unchanged; otherwise returns the contents in insertion order, with length equal to the old used count; afterwards used is 0, the capacity is the same, and the backing store is left as it was (not zeroed) |
| Buffer.Used | src/buffer.rs:76-78 | the used count is the length of the abstract contents and never exceeds the capacity |
| Buffer.Capacity | src/buffer.rs:80-82 | the capacity equals the number of backing slots |
| Buffer.ConsumeTwiceIsNone | src/buffer.rs:66-72 | a second consume with no add in between returns None and changes nothing |
| Buffer.AddThenConsume | src/buffer.rs:57-74 | after an accepted add, the next consume returns the previous contents followed by the new element |
| BufferTraces.Run | src/buffer.rs:53-83 | any sequence of add and consume calls keeps the representation invariant and the capacity, and yields one outcome per call |
| BufferTraces.AddAllOutcome | src/buffer.rs:57-64 | across repeated adds, the i-th add is accepted exactly when used + i < capacity; every refused add returns its own element; the contents grow by exactly the accepted prefix of the added elements |
| BufferTraces.AddAllWithinCapacity | src/buffer.rs:113-117 | when the elements fit in the free space, every add succeeds, the contents grow by all of them in order, and used grows by their number |
| BufferTraces.ReusableAfterConsume | src/buffer.rs:133-138 | after any consume, up to capacity adds all succeed, the next consume returns exactly those elements (or None if there were none) with nothing stale, and once capacity adds have been made, one more is refused with its element |
| BufferTraces.RunConserves | src/buffer.rs:12-20 | over any interleaving of calls, the starting contents followed by the accepted elements equal everything the consumes returned followed by what the buffer still holds: no element is lost, duplicated or reordered |
| BufferTraces.RunOutcomesMatchOps | src/buffer.rs:1-10 | every add returns either success or a BufferFullError holding its own element, and every consume returns a consume outcome |
| BufferTraces.LifetimeFromNew | src/buffer.rs:45-74 | starting from a new buffer, the accepted elements, in add order, are exactly what the consumes returned followed by what is still held |
| StaticBufferImpl.CopyPrefix | src/buffer.rs:70-71 | the copy has length n and holds the first n slots of the backing array, in order |
| BufferScenarios.EmptyBuffer | src/buffer.rs:89-95 | a new buffer has used 0, capacity 512, and consume returns None |
| BufferScenarios.AddOne | src/buffer.rs:97-107 | adding 123 to a new buffer succeeds, used becomes 1, and consume returns [123] |
| BufferScenarios.AddUntilFull | src/buffer.rs:109-139 | adding 0..511 all succeeds and used becomes 512; adding 512 is refused with 512 returned and the buffer unchanged; consume returns 0..511 in order; adding 34 then succeeds, used is 1, and consume returns [34] |
| BufferScenarios.AddUntilFullOnObject | src/buffer.rs:109-139 | the same fill, refuse, drain and refill, stated for the mutable object driven in a loop: 512 refused and handed back, 0..511 drained, 34 accepted and drained alone |
| StaticBufferImpl.StaticBuffer.constructor | src/buffer.rs:44-50 | the new object satisfies its invariant, owns a freshly allocated backing array, holds no element, and its state equals `Buffer.New` of the default value |
| StaticBufferImpl.StaticBuffer.Add | src/buffer.rs:57-64 | the new state and the result equal `Buffer.Add` applied to the old state; below capacity the add is Ok and the ghost contents gain the element at the end; at capacity the error carries the element and the contents are unchanged |
| StaticBufferImpl.StaticBuffer.Consume | src/buffer.rs:66-74 | the new state and the result equal `Buffer.Consume` applied to the old state; an empty buffer returns None, otherwise the old contents come back; the contents are empty afterwards |
| StaticBufferImpl.StaticBuffer.Used | src/buffer.rs:76-78 | the used count is the length of the ghost contents and never exceeds the capacity |
| StaticBufferImpl.StaticBuffer.Capacity | src/buffer.rs:80-82 | the capacity equals the length of the backing array |

## Left out

- `src/main.rs` is a demonstration driver (create, add once, consume
  once) that ignores the error result. It has no logic of its own.
- The stale slots `[next, BUFFER_SIZE)` are not constrained after adds.
  Nothing is stated about zeroing memory. The model records only that
  `consume` does not touch the backing store.
- Rust ownership and moves, and the `Copy + Default + Sized` bounds, are
  not modelled. `Default::default()` becomes a `fill` value given to the
  constructor.
- `#[derive(Debug)]` formatting is not modelled.
- `usize` width is not modelled. The cursor never exceeds 512, so
  `next += 1` cannot overflow. The counts are modelled as `nat`.
- The tests use `i32` elements (src/buffer.rs:91) and `usize` elements
  (src/buffer.rs:99, 111), all modelled as `int`. The default value of
  both is 0, which the scenarios use as the fill value. Every value the
  tests add (0 to 512, 34 and 123) fits either type.
- The `Buffer<T>` trait has one implementor. The model states its contract
  through that implementor and does not model the trait as a separate
  abstraction.
