# double-ended-peekable, modelled in Dafny

`DoubleEndedPeekable` wraps a double-ended iterator and adds lookahead at
both ends. It keeps the iterator and two slots, `front` and `back`. A slot is
either empty (nothing pulled ahead) or holds the outcome of one pull: an item,
or the end of the sequence. Consuming from one end first looks at that end's
slot. When that end turns out to be exhausted, it falls back to the item cached
in the other slot, because that item is then the last one left.

The project has four modules:

- `Model` (model.dfy) holds the adapter state as a value: `Slot`, `State`,
  and `Remaining`, the items still to come (front item, then the iterator's
  items, then back item). It also holds the invariant `Valid`: a cached end
  marker means the iterator is empty. Every operation is a function from the
  old state to the new state and the result. Each function's contract gives
  the concrete slot transitions of the Rust code. Under `Valid`, it also says
  that the operation acts on `Remaining` like a deque: pop front, pop back,
  or no change for peeks and rejected conditional consumes.
- `Adapter` (adapter.dfy) holds the class `DoubleEndedPeekable` with the
  fields `iter`, `front` and `back`. The methods update these fields in place
  the way the Rust methods do: `take()`, `get_or_insert_with`, a pull from the
  iterator, an assignment to a slot. The `debug_assert!`s become `assert`
  statements that are proved. Each operation method, `Next` through
  `NextFrontBackIfEq`, has an `ensures` that equates its new fields and result
  with the matching `Model` function, and states the deque effect on
  `Remaining()`. The helpers `PullFront`, `PullBack`, `TakeFront` and
  `TakeBack` have no `Model` counterpart: each states what it returns and
  what it leaves in the one field it may change. `Clone` states that the copy
  is a fresh object with the same fields. The `_eq` methods are equated with the predicate forms of
  `Model` applied to `EqualTo(expected)` (or `EqualToPair`), the predicate
  they pass on.
- `Traces` (traces.dfy) covers any sequence of calls. The items consumed from
  the front, then what is left, then the items consumed from the back in
  reverse order, always make up the original items. So no item is lost or
  handed out twice.
- `Examples` (examples.dfy) holds properties that relate several calls, and
  the call sequences of the repository's tests, stated on the model.

The underlying iterator is a `seq<T>`. `next` pops the head, `next_back` pops
the last item, and an empty sequence keeps yielding `None`. Its size hint is
`(|iter|, Some(|iter|))`. The predicates of the conditional consumes are
Dafny functions passed as parameters.

The class methods require `Valid()`. Rust states no such precondition: there
the fields are private, so only the crate's own methods can change them. The
Dafny class's fields can be assigned by any caller, so here `Valid()` is the
object invariant that callers rely on through the contracts: the constructor
establishes it, and every method requires it and ensures it again.

Two points where the code is checked against the rules it has to keep:

- The `Iterator::size_hint` contract requires the lower bound never to exceed
  the number of items left. The code adds one to both bounds for every pulled
  slot, end markers included (src/lib.rs:162-166), so the bound can exceed
  the count. `Model.SizeHint` follows the code. See "Findings".
- `next_if` reaches `debug_assert!(self.front.is_none())` (src/lib.rs:55)
  only after its own call to `next()`, and `next()` always leaves the front
  slot empty, whatever it held before. So the assertion holds without any
  precondition on the caller. The model proves it as an `assert` in
  `Adapter.DoubleEndedPeekable.NextIf`, and the same for `next_back_if` and
  `next_front_back_if`.

## Model

| member | source | states |
|---|---|---|
| `Model.Init` | src/lib.rs:17-24 | a freshly wrapped iterator has both slots empty, satisfies the invariant, and has exactly the iterator's items remaining |
| `Model.Next` | src/lib.rs:147-157 | a cached front item is returned, only `front` is reset, and `back` and the iterator are unchanged; on a cached end marker or an exhausted iterator, the back slot's item (or `None`) is returned and both slots end up empty; under the invariant the result is the first remaining item, the remaining items lose their head, and the invariant is kept |
| `Model.NextBack` | src/lib.rs:176-186 | the mirror image of `next`: back slot first, then the iterator's last item, then a fallback to the front slot's item with both slots emptied; under the invariant it returns and removes the last remaining item |
| `Model.FillFront` | src/lib.rs:36-37 | `get_or_insert_with(iter.next())` pulls only when the front slot is empty, and then puts the iterator's first item (or the end marker) into it and drops that item from the iterator; the slot is pulled afterwards, the back slot is untouched, and the remaining items never change |
| `Model.FillBack` | src/lib.rs:75-76 | the same for the back slot and `iter.next_back()`, with the iterator's last item; the front slot is untouched |
| `Model.Peek` | src/lib.rs:34-40 | after `peek` the front slot is pulled; a state whose front slot was already pulled is unchanged; otherwise exactly one item moves from the iterator into the slot; the result is the first remaining item, which falls back to the back slot's item; the remaining items are unchanged |
| `Model.PeekBack` | src/lib.rs:73-79 | mirror of `peek`: the result is the last remaining item, which falls back to the front slot's item; the remaining items are unchanged |
| `Model.PeekMut` | src/lib.rs:42-48 | after filling the front slot as `peek` does, writing through the reference `peek_mut` returns replaces the first remaining item and nothing else; a cached front item takes the write and the back slot is untouched; no slot gains or loses a pull or an end marker, so the later `size_hint` is that of the filled state; the result is the item before the write |
| `Model.WriteFirst` | src/lib.rs:44-47 | once the front slot is filled, the write lands on the front slot's item, else on the back slot's; it replaces the first remaining item and no slot changes its shape |
| `Model.WriteLast` | src/lib.rs:83-86 | once the back slot is filled, the write lands on the back slot's item, else on the front slot's; it replaces the last remaining item and no slot changes its shape |
| `Model.PeekBackMut` | src/lib.rs:81-87 | the mirror image: writing through the reference `peek_back_mut` returns replaces the last remaining item; a cached back item takes the write and the front slot is untouched; no slot changes its shape |
| `Model.NextIf` | src/lib.rs:50-60 | an accepted item makes the call identical to `next`; on rejection or exhaustion it returns `None` and the front slot holds exactly the outcome `next` produced; the remaining items lose their head exactly when one exists and is accepted |
| `Model.NextBackIf` | src/lib.rs:89-99 | the mirror image of `next_if` at the back |
| `Model.NextFrontBackIf` | src/lib.rs:110-125 | with at least two items left and the pair accepted, returns the first and last items and removes both; otherwise returns `None`, puts both outcomes back into their slots, and leaves the remaining items unchanged; with one item left the state becomes item-at-front, end-at-back; an accepted pair leaves exactly the state of `next` followed by `next_back`, with both slots empty |
| `Model.SizeHint` | src/lib.rs:159-169 | both bounds equal the number of remaining items plus the number of cached end markers; the upper bound is never below the true count; the bounds are exact when no end marker is cached |
| `Model.SizeHintIntended` | src/lib.rs:159-169 | the estimate with one added only per cached item gives exactly the number of remaining items |
| `Adapter.DoubleEndedPeekable.constructor` | src/lib.rs:17-24 | the new adapter is `Model.Init` of its items: both slots empty, invariant holds, remaining items are the iterator's |
| `Adapter.DoubleEndedPeekable.PullFront` | src/lib.rs:37 | `iter.next()` returns the iterator's first item, if any, and removes it |
| `Adapter.DoubleEndedPeekable.PullBack` | src/lib.rs:76 | `iter.next_back()` returns the iterator's last item, if any, and removes it |
| `Adapter.DoubleEndedPeekable.TakeFront` | src/lib.rs:180 | `front.take().flatten()` returns the front slot's cached item, if any, and empties it |
| `Adapter.DoubleEndedPeekable.TakeBack` | src/lib.rs:151 | `back.take().flatten()` returns the back slot's cached item, if any, and empties it |
| `Adapter.DoubleEndedPeekable.Next` | src/lib.rs:147-157 | the in-place `next` leaves the fields and result of `Model.Next`; it returns and removes the first remaining item and keeps the invariant |
| `Adapter.DoubleEndedPeekable.NextBack` | src/lib.rs:176-186 | the in-place `next_back` matches `Model.NextBack`; it returns and removes the last remaining item |
| `Adapter.DoubleEndedPeekable.Peek` | src/lib.rs:34-40 | the in-place `peek` matches `Model.Peek`; it reports the first remaining item and changes no remaining item |
| `Adapter.DoubleEndedPeekable.PeekBack` | src/lib.rs:73-79 | the in-place `peek_back` matches `Model.PeekBack`; it reports the last remaining item |
| `Adapter.DoubleEndedPeekable.PeekMut` | src/lib.rs:42-48 | matches `Model.PeekMut`: the first remaining item is replaced in its slot by the caller's write |
| `Adapter.DoubleEndedPeekable.PeekBackMut` | src/lib.rs:81-87 | matches `Model.PeekBackMut`: the last remaining item is replaced in its slot |
| `Adapter.DoubleEndedPeekable.NextIf` | src/lib.rs:50-60 | matches `Model.NextIf`; the `debug_assert!` that the front slot is empty is proved; the head is consumed exactly when it exists and is accepted, else nothing remaining changes |
| `Adapter.DoubleEndedPeekable.NextIfEq` | src/lib.rs:62-69 | matches `Model.NextIf` with the predicate `EqualTo(expected)`; consumes the head exactly when it equals `expected`; otherwise returns `None`, changes no remaining item, and holds the pulled outcome in the front slot |
| `Adapter.DoubleEndedPeekable.NextBackIf` | src/lib.rs:89-99 | matches `Model.NextBackIf`; its `debug_assert!` is proved; the last item is consumed exactly when it exists and is accepted |
| `Adapter.DoubleEndedPeekable.NextBackIfEq` | src/lib.rs:101-108 | matches `Model.NextBackIf` with `EqualTo(expected)`; consumes the last item exactly when it equals `expected`; otherwise holds the pulled outcome in the back slot |
| `Adapter.DoubleEndedPeekable.NextFrontBackIf` | src/lib.rs:110-125 | matches `Model.NextFrontBackIf`; both `debug_assert!`s are proved; consumes first and last together exactly when two items remain and the pair is accepted |
| `Adapter.DoubleEndedPeekable.NextFrontBackIfEq` | src/lib.rs:127-138 | matches `Model.NextFrontBackIf` with `EqualToPair(expectedFront, expectedBack)`; consumes first and last exactly when two items remain and they equal the two expected values; otherwise nothing remaining changes |
| `Adapter.DoubleEndedPeekable.SizeHint` | src/lib.rs:159-169 | both bounds are the remaining count plus the cached end markers, and exact without end markers |
| `Adapter.DoubleEndedPeekable.Eq` | src/lib.rs:230-233 | equal exactly when iterator and both slots are equal; equal adapters have the same remaining items and size hint |
| `Adapter.DoubleEndedPeekable.Clone` | src/lib.rs:208-215 | the clone is a fresh object in the same state |
| `Traces.StepAccounts` | src/lib.rs:147-186 | every single call keeps the invariant; the items it hands out from the front, then the remaining items, then the items it hands out from the back make up the remaining items before the call |
| `Traces.RunAccounts` | src/lib.rs:147-186 | the same for any sequence of calls: front-consumed items, then remaining items, then back-consumed items reversed, are the items remaining at the start |
| `Traces.NoItemLostOrDuplicated` | src/lib.rs:147-186 | from a freshly wrapped iterator, once nothing is left, front-consumed items followed by back-consumed items reversed are exactly the original items, and the two multisets together are the original multiset |
| `Examples.PeekIdempotent` | src/lib.rs:34-40 | a second `peek` (or `peek_back`) without a consume in between returns the same result and leaves the same state |
| `Examples.NextIfRejectedThenNext` | src/lib.rs:50-60 | after a rejected `next_if`, `next` returns what the rejected call pulled; under the invariant it behaves exactly like `next` without the rejected call |
| `Examples.NextBackIfRejectedThenNextBack` | src/lib.rs:89-99 | the mirror image for `next_back_if` and `next_back` |
| `Examples.PairRejectedWithOneItemLeft` | src/lib.rs:110-125 | with one item left, a rejected pair call leaves item-at-front, end-at-back; a repeated call changes nothing; one consume from either end then returns the item and both ends report the end |
| `Examples.SingleItemPeekedFromBothEnds` | src/lib.rs:147-157 | for a one-item sequence, `peek` and `peek_back` both see the item, `next` returns it, and both ends then report the end |
| `Examples.PeekBothEndsThenConsumeForward` | src/tests.rs:163-201 | the test's sequence of results and slot states, peeking at both ends of `[0, 1, 2]` and consuming forward |
| `Examples.PeekBothEndsThenConsumeBackward` | src/tests.rs:203-241 | the same, consuming backward |
| `Examples.NextIfTrace` | src/tests.rs:243-275 | the test's `next_if` results and slot states over `[0, 1, 2, 3]`, including a rejected item put back at the front after being taken from the back slot |
| `Examples.PairTraceEven` | src/tests.rs:401-422 | an accepted pair empties both slots; a rejected pair over `[1, 2, 3, 4]` restores 1 at the front and 4 at the back |
| `Examples.PairTraceOdd` | src/tests.rs:437-454 | over `[0, 1, 2]`, after the outer pair, a pair call leaves 1 at the front and the end at the back, and repeating it changes nothing |
| `Examples.SizeHintTrace` | src/tests.rs:478-490 | the test's size hints: 4 before and after peeking both ends of four items, 3 after one `next` |
| `Examples.SizeHintOvercountsEndMarker` | src/lib.rs:162-168 | over `[0]`, after `peek_back` then `peek`, one item is left but `size_hint` reports `(2, Some(2))`; the intended estimate reports `(1, Some(1))` |
| `Examples.EqualityIsStructural` | src/lib.rs:230-233 | a wrapped iterator and the same iterator after one `peek` have the same remaining items but are not equal states |

## Left out

- The extension trait `DoubleEndedPeekableExt` and the split between the `Iterator`-only and the `DoubleEndedIterator` methods (src/lib.rs:9-25, 72) are not modelled separately. There is one double-ended adapter, because the `seq` iterator supports both ends.
- General underlying iterators are not modelled. This covers iterators that yield again after `None`, and adapters like `filter` whose own size hint is inexact. The `seq` iterator is fused and reports its exact length, so the `filter` half of the size-hint test (src/tests.rs:492-508) is not modelled.
- `Model.SizeHint`: the sums `lower + additional` and `upper + additional` use unbounded `nat`. What `usize` overflow does near `usize::MAX` is not modelled.
- `Debug` (src/lib.rs:189-201) is left out because it formats through the foreign `fmt::Formatter`.
- `Hash` (src/lib.rs:243-254) is left out because it feeds an opaque foreign `Hasher`.
- `Copy` (src/lib.rs:218-223) adds nothing over `Clone`, whose copy already evolves independently.
- `Model.PeekMut` and `Model.PeekBackMut` do not model the mutable reference itself. The caller's use of it is a function `write`, applied once right away. A reference that is kept and written several times is not modelled.
- The predicates of `next_if`, `next_back_if` and `next_front_back_if` are pure functions. Side effects of a Rust `FnOnce` closure are not modelled.
- `Traces.Op` does not include `peek_mut` and `peek_back_mut`, because they change items rather than hand them out.
- `Adapter.DoubleEndedPeekable.NextIfEq`, `NextBackIfEq` and `NextFrontBackIfEq` take the expected values as items of type `T`. In Rust they are references to any type `T: ?Sized` with `I::Item: PartialEq<T>` (src/lib.rs:63-67, 102-106, 128-135), so an item can be compared with a value of another type. Dafny's built-in equality on one type stands in for that `PartialEq` implementation.
- `Adapter.DoubleEndedPeekable` needs `T(==)` for the whole class. Rust requires `PartialEq` only for the `_eq` methods and `eq`.

## Findings

| source | as written | input that shows it | evidently intended | confidence | as-written member | corrected member |
|---|---|---|---|---|---|---|
| src/lib.rs:162-166 | `size_hint` adds 1 for every pulled slot, including one that caches the end marker | `[0]`: `peek_back()` caches 0 at the back, then `peek()` caches the end at the front; one item is left but `size_hint()` is `(2, Some(2))` | add 1 only for a slot caching an item, so both bounds are exactly 1; the `Iterator` contract forbids a lower bound above the true count | not executed; high | `Model.SizeHint`, `Examples.SizeHintOvercountsEndMarker` | `Model.SizeHintIntended` |

`Adapter.DoubleEndedPeekable.SizeHint` keeps the formula as written, because
it models the code. `Model.SizeHintIntended` is the estimate the `Iterator::size_hint`
contract asks for, and it is proved exact in every state.
