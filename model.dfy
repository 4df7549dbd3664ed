/** The lookahead state of a double-ended peekable iterator, as values.

    The adapter owns an underlying double-ended iterator and two lookahead
    slots. The iterator is modelled as the sequence of items it has still to
    yield (`next` pops the head, `next_back` pops the last item; once empty it
    keeps yielding `None`). Every operation of the adapter is a function from
    the old state to the new state and what the call returns; the class in
    module Adapter runs the same steps in place. */
module Model {

  datatype Option<T> = None | Some(value: T)

  /** One lookahead slot. `Empty`: nothing was pulled ahead from this end.
      `Pulled(o)`: one pull was made and its outcome is cached, either an item
      (`Pulled(Some(x))`) or the end of the sequence (`Pulled(None)`). */
  datatype Slot<T> = Empty | Pulled(outcome: Option<T>)

  /** The adapter: the underlying iterator and its front and back slots. */
  datatype State<T> = State(iter: seq<T>, front: Slot<T>, back: Slot<T>)

  /** What a call returns together with the state it leaves behind. */
  datatype Pull<T> = Pull(after: State<T>, item: Option<T>)

  /** The same for the call that consumes from both ends at once. */
  datatype PairPull<T> = PairPull(after: State<T>, pair: Option<(T, T)>)

  /** The slot caches the end of the sequence. */
  predicate IsEnd<T>(slot: Slot<T>) {
    slot.Pulled? && slot.outcome.None?
  }

  /** `slot.take().flatten()`: the item the slot caches, if any. */
  function Flatten<T>(slot: Slot<T>): Option<T> {
    if slot.Pulled? then slot.outcome else None
  }

  /** The item a slot holds, as a sequence of length at most one. */
  function Cached<T>(slot: Slot<T>): (c: seq<T>)
    ensures |c| <= 1
    ensures c == [] <==> Flatten(slot).None?
    ensures c != [] ==> c[0] == Flatten(slot).value
  {
    match Flatten(slot)
    case None => []
    case Some(x) => [x]
  }

  function OptionToSeq<T>(o: Option<T>): seq<T> {
    match o
    case None => []
    case Some(x) => [x]
  }

  function First<T>(xs: seq<T>): Option<T> {
    if xs == [] then None else Some(xs[0])
  }

  function Last<T>(xs: seq<T>): Option<T> {
    if xs == [] then None else Some(xs[|xs| - 1])
  }

  function DropFirst<T>(xs: seq<T>): seq<T> {
    if xs == [] then [] else xs[1..]
  }

  function DropLast<T>(xs: seq<T>): seq<T> {
    if xs == [] then [] else xs[..|xs| - 1]
  }

  /** The items the adapter has still to hand out, in order: the item cached
      at the front, then what the underlying iterator still holds, then the
      item cached at the back. */
  function Remaining<T>(s: State<T>): seq<T> {
    Cached(s.front) + s.iter + Cached(s.back)
  }

  /** The invariant every reachable state keeps: a slot caches the end of the
      sequence only once the underlying iterator is exhausted. */
  predicate Valid<T>(s: State<T>) {
    (IsEnd(s.front) || IsEnd(s.back)) ==> s.iter == []
  }

  /** `iter.double_ended_peekable()`: both slots start empty. */
  function Init<T>(items: seq<T>): (s: State<T>)
    ensures Valid(s)
    ensures Remaining(s) == items
    ensures s.front.Empty? && s.back.Empty?
  {
    State(items, Empty, Empty)
  }

  /** `Iterator::next`. A cached front item is handed out; when the front end
      is exhausted (cached end marker, or the iterator yields `None`), the item
      cached at the back, if any, is the last one and is handed out instead. */
  function Next<T>(s: State<T>): (r: Pull<T>)
    ensures r.after.front.Empty?
    ensures s.front.Pulled? && s.front.outcome.Some? ==>
              r.item == s.front.outcome && r.after == s.(front := Empty)
    ensures IsEnd(s.front) || (s.front.Empty? && s.iter == []) ==>
              r.item == Flatten(s.back) && r.after == State(s.iter, Empty, Empty)
    ensures s.front.Empty? && s.iter != [] ==>
              r.item == Some(s.iter[0]) && r.after == State(s.iter[1..], Empty, s.back)
    ensures Valid(s) ==> Valid(r.after)
    ensures Valid(s) ==> r.item == First(Remaining(s)) && Remaining(r.after) == DropFirst(Remaining(s))
  {
    match s.front
    case Pulled(Some(_)) => Pull(s.(front := Empty), s.front.outcome)
    case Pulled(None) => Pull(State(s.iter, Empty, Empty), Flatten(s.back))
    case Empty =>
      if s.iter != [] then Pull(State(s.iter[1..], Empty, s.back), Some(s.iter[0]))
      else Pull(State(s.iter, Empty, Empty), Flatten(s.back))
  }

  /** `DoubleEndedIterator::next_back`, the mirror image of `Next`: the back
      slot first, then the iterator's last item, then the item cached at the
      front. */
  function NextBack<T>(s: State<T>): (r: Pull<T>)
    ensures r.after.back.Empty?
    ensures r.after.front == s.front || r.after.front.Empty?
    ensures s.back.Pulled? && s.back.outcome.Some? ==>
              r.item == s.back.outcome && r.after == s.(back := Empty)
    ensures IsEnd(s.back) || (s.back.Empty? && s.iter == []) ==>
              r.item == Flatten(s.front) && r.after == State(s.iter, Empty, Empty)
    ensures s.back.Empty? && s.iter != [] ==>
              r.item == Some(s.iter[|s.iter| - 1]) && r.after == State(s.iter[..|s.iter| - 1], s.front, Empty)
    ensures Valid(s) ==> Valid(r.after)
    ensures Valid(s) ==> r.item == Last(Remaining(s)) && Remaining(r.after) == DropLast(Remaining(s))
  {
    match s.back
    case Pulled(Some(_)) => Pull(s.(back := Empty), s.back.outcome)
    case Pulled(None) => Pull(State(s.iter, Empty, Empty), Flatten(s.front))
    case Empty =>
      if s.iter != [] then Pull(State(s.iter[..|s.iter| - 1], s.front, Empty), Some(s.iter[|s.iter| - 1]))
      else Pull(State(s.iter, Empty, Empty), Flatten(s.front))
  }

  /** The state after `front.get_or_insert_with(|| iter.next())`: the front
      slot is filled by one pull only if it was empty. */
  function FillFront<T>(s: State<T>): (t: State<T>)
    ensures t.front.Pulled? && t.back == s.back
    ensures s.front.Pulled? ==> t == s
    ensures s.front.Empty? ==> t.front == Pulled(First(s.iter)) && t.iter == DropFirst(s.iter)
    ensures Valid(s) ==> Valid(t) && Remaining(t) == Remaining(s)
  {
    if s.front.Empty? then State(DropFirst(s.iter), Pulled(First(s.iter)), s.back) else s
  }

  /** The mirror of `FillFront`, with `iter.next_back()`. */
  function FillBack<T>(s: State<T>): (t: State<T>)
    ensures t.back.Pulled? && t.front == s.front
    ensures s.back.Pulled? ==> t == s
    ensures s.back.Empty? ==> t.back == Pulled(Last(s.iter)) && t.iter == DropLast(s.iter)
    ensures Valid(s) ==> Valid(t) && Remaining(t) == Remaining(s)
  {
    if s.back.Empty? then State(DropLast(s.iter), s.front, Pulled(Last(s.iter))) else s
  }

  /** `peek`: fill the front slot, then report its item, or, when it holds the
      end marker, the item cached at the back. */
  function Peek<T>(s: State<T>): (r: Pull<T>)
    ensures r.after.front.Pulled?
    ensures s.front.Pulled? ==> r.after == s
    ensures s.front.Empty? ==> r.after == State(DropFirst(s.iter), Pulled(First(s.iter)), s.back)
    ensures Valid(s) ==> Valid(r.after)
    ensures Valid(s) ==> r.item == First(Remaining(s)) && Remaining(r.after) == Remaining(s)
  {
    var after := FillFront(s);
    Pull(after, if after.front.outcome.Some? then after.front.outcome else Flatten(after.back))
  }

  /** `peek_back`, the mirror image of `Peek`. */
  function PeekBack<T>(s: State<T>): (r: Pull<T>)
    ensures r.after.back.Pulled?
    ensures s.back.Pulled? ==> r.after == s
    ensures s.back.Empty? ==> r.after == State(DropLast(s.iter), s.front, Pulled(Last(s.iter)))
    ensures Valid(s) ==> Valid(r.after)
    ensures Valid(s) ==> r.item == Last(Remaining(s)) && Remaining(r.after) == Remaining(s)
  {
    var after := FillBack(s);
    Pull(after, if after.back.outcome.Some? then after.back.outcome else Flatten(after.front))
  }

  /** `peek_mut`, with the caller's use of the mutable reference given as
      `write`: the item the reference points to (the front slot's item, else
      the back slot's) is replaced by `write` of it. The result is the item as
      it was before the write. */
  function PeekMut<T>(s: State<T>, write: T -> T): (r: Pull<T>)
    ensures r.after.front.Pulled?
    ensures r.after.iter == FillFront(s).iter
    // the write replaces an item in place: no slot gains or loses an end marker
    ensures r.after.back.Pulled? == FillFront(s).back.Pulled?
    ensures IsEnd(r.after.front) == IsEnd(FillFront(s).front) && IsEnd(r.after.back) == IsEnd(FillFront(s).back)
    // a cached front item takes the write, and then the back slot is untouched
    ensures FillFront(s).front.outcome.Some? ==> r.after.back == FillFront(s).back
    ensures Valid(s) ==> Valid(r.after)
    ensures Valid(s) ==> r.item == First(Remaining(s))
    ensures Valid(s) ==>
              Remaining(r.after) == if Remaining(s) == [] then [] else [write(Remaining(s)[0])] + Remaining(s)[1..]
  {
    WriteFirst(FillFront(s), write)
  }

  /** The write through the reference `peek_mut` returns, once the front slot
      is filled: it lands on the front slot's item, else on the back slot's. */
  function WriteFirst<T>(t: State<T>, write: T -> T): (r: Pull<T>)
    requires t.front.Pulled?
    ensures r.after.front.Pulled? && r.after.iter == t.iter
    ensures r.after.back.Pulled? == t.back.Pulled?
    ensures IsEnd(r.after.front) == IsEnd(t.front) && IsEnd(r.after.back) == IsEnd(t.back)
    ensures t.front.outcome.Some? ==> r.after.back == t.back
    ensures Valid(t) ==> Valid(r.after)
    ensures Valid(t) ==> r.item == First(Remaining(t))
    ensures Valid(t) ==>
              Remaining(r.after) == if Remaining(t) == [] then [] else [write(Remaining(t)[0])] + Remaining(t)[1..]
  {
    if t.front.outcome.Some? then
      Pull(t.(front := Pulled(Some(write(t.front.outcome.value)))), t.front.outcome)
    else if t.back.Pulled? && t.back.outcome.Some? then
      Pull(t.(back := Pulled(Some(write(t.back.outcome.value)))), t.back.outcome)
    else
      Pull(t, None)
  }

  /** `peek_back_mut`, the mirror image of `PeekMut`. */
  function PeekBackMut<T>(s: State<T>, write: T -> T): (r: Pull<T>)
    ensures r.after.back.Pulled?
    ensures r.after.iter == FillBack(s).iter
    ensures r.after.front.Pulled? == FillBack(s).front.Pulled?
    ensures IsEnd(r.after.front) == IsEnd(FillBack(s).front) && IsEnd(r.after.back) == IsEnd(FillBack(s).back)
    ensures FillBack(s).back.outcome.Some? ==> r.after.front == FillBack(s).front
    ensures Valid(s) ==> Valid(r.after)
    ensures Valid(s) ==> r.item == Last(Remaining(s))
    ensures Valid(s) ==>
              Remaining(r.after) == if Remaining(s) == [] then []
                                    else Remaining(s)[..|Remaining(s)| - 1] + [write(Remaining(s)[|Remaining(s)| - 1])]
  {
    WriteLast(FillBack(s), write)
  }

  /** The mirror image of `WriteFirst`, once the back slot is filled. */
  function WriteLast<T>(t: State<T>, write: T -> T): (r: Pull<T>)
    requires t.back.Pulled?
    ensures r.after.back.Pulled? && r.after.iter == t.iter
    ensures r.after.front.Pulled? == t.front.Pulled?
    ensures IsEnd(r.after.front) == IsEnd(t.front) && IsEnd(r.after.back) == IsEnd(t.back)
    ensures t.back.outcome.Some? ==> r.after.front == t.front
    ensures Valid(t) ==> Valid(r.after)
    ensures Valid(t) ==> r.item == Last(Remaining(t))
    ensures Valid(t) ==>
              Remaining(r.after) == if Remaining(t) == [] then []
                                    else Remaining(t)[..|Remaining(t)| - 1] + [write(Remaining(t)[|Remaining(t)| - 1])]
  {
    if t.back.outcome.Some? then
      Pull(t.(back := Pulled(Some(write(t.back.outcome.value)))), t.back.outcome)
    else if t.front.Pulled? && t.front.outcome.Some? then
      Pull(t.(front := Pulled(Some(write(t.front.outcome.value)))), t.front.outcome)
    else
      Pull(t, None)
  }

  /** `next_if`: consume as `Next` does; keep the item when `accept` holds of
      it, and otherwise put the outcome of `Next` back into the front slot. */
  function NextIf<T>(s: State<T>, accept: T -> bool): (r: Pull<T>)
    ensures r.item.Some? ==> accept(r.item.value) && r == Next(s)
    ensures r.item.None? ==> r.after == Next(s).after.(front := Pulled(Next(s).item))
    ensures Valid(s) ==> Valid(r.after)
    ensures Valid(s) && Remaining(s) != [] && accept(Remaining(s)[0]) ==>
              r.item == Some(Remaining(s)[0]) && Remaining(r.after) == Remaining(s)[1..]
    ensures Valid(s) && (Remaining(s) == [] || !accept(Remaining(s)[0])) ==>
              r.item == None && Remaining(r.after) == Remaining(s)
  {
    var n := Next(s);
    if n.item.Some? && accept(n.item.value) then n
    else
      // the front slot is free to take the outcome back
      assert n.after.front.Empty?;
      Pull(n.after.(front := Pulled(n.item)), None)
  }

  /** `next_back_if`, the mirror image of `NextIf`. */
  function NextBackIf<T>(s: State<T>, accept: T -> bool): (r: Pull<T>)
    ensures r.item.Some? ==> accept(r.item.value) && r == NextBack(s)
    ensures r.item.None? ==> r.after == NextBack(s).after.(back := Pulled(NextBack(s).item))
    ensures Valid(s) ==> Valid(r.after)
    ensures Valid(s) && Remaining(s) != [] && accept(Remaining(s)[|Remaining(s)| - 1]) ==>
              r.item == Some(Remaining(s)[|Remaining(s)| - 1]) &&
              Remaining(r.after) == Remaining(s)[..|Remaining(s)| - 1]
    ensures Valid(s) && (Remaining(s) == [] || !accept(Remaining(s)[|Remaining(s)| - 1])) ==>
              r.item == None && Remaining(r.after) == Remaining(s)
  {
    var n := NextBack(s);
    if n.item.Some? && accept(n.item.value) then n
    else
      assert n.after.back.Empty?;
      Pull(n.after.(back := Pulled(n.item)), None)
  }

  /** `next_front_back_if`: consume from the front, then from the back; keep
      the pair when both ends yielded an item and `accept` holds of them, and
      otherwise put both outcomes back into their slots. */
  function NextFrontBackIf<T>(s: State<T>, accept: (T, T) -> bool): (r: PairPull<T>)
    ensures r.pair.None? ==>
              r.after.front == Pulled(Next(s).item) &&
              r.after.back == Pulled(NextBack(Next(s).after).item)
    // an accepted pair is exactly `next` followed by `next_back`
    ensures r.pair.Some? ==>
              && Next(s).item.Some? && NextBack(Next(s).after).item.Some?
              && r.pair.value == (Next(s).item.value, NextBack(Next(s).after).item.value)
              && r.after == NextBack(Next(s).after).after
              && r.after.front.Empty? && r.after.back.Empty?
    ensures Valid(s) ==> Valid(r.after)
    ensures Valid(s) && |Remaining(s)| >= 2 && accept(Remaining(s)[0], Remaining(s)[|Remaining(s)| - 1]) ==>
              r.pair == Some((Remaining(s)[0], Remaining(s)[|Remaining(s)| - 1])) &&
              Remaining(r.after) == Remaining(s)[1..|Remaining(s)| - 1]
    ensures Valid(s) && (|Remaining(s)| < 2 || !accept(Remaining(s)[0], Remaining(s)[|Remaining(s)| - 1])) ==>
              r.pair == None && Remaining(r.after) == Remaining(s)
    ensures Valid(s) && |Remaining(s)| == 1 ==>
              r.after == State([], Pulled(Some(Remaining(s)[0])), Pulled(None))
  {
    var f := Next(s);
    var b := NextBack(f.after);
    ConsumeBothEnds(s, f, b);
    SplitEnds(Remaining(s));
    if f.item.Some? && b.item.Some? && accept(f.item.value, b.item.value) then
      PairPull(b.after, Some((f.item.value, b.item.value)))
    else
      // neither slot holds anything after the two consumes
      assert b.after.front.Empty? && b.after.back.Empty?;
      PairPull(State(b.after.iter, Pulled(f.item), Pulled(b.item)), None)
  }

  /** What `next()` followed by `next_back()` takes from the remaining items:
      the first of them, then the last of the rest, leaving the middle in the
      iterator with both slots empty. */
  lemma ConsumeBothEnds<T>(s: State<T>, f: Pull<T>, b: Pull<T>)
    requires f == Next(s) && b == NextBack(f.after)
    ensures b.after.front.Empty? && b.after.back.Empty?
    ensures Valid(s) ==>
              && Valid(b.after)
              && f.item == First(Remaining(s))
              && b.item == Last(DropFirst(Remaining(s)))
              && b.after.iter == DropLast(DropFirst(Remaining(s)))
  {
    if Valid(s) {
      assert Remaining(f.after) == DropFirst(Remaining(s));
      assert Remaining(b.after) == DropLast(DropFirst(Remaining(s)));
      assert Remaining(b.after) == b.after.iter;
    }
  }

  /** The first item, the middle and the last item of `xs`, taken as the
      front and back consumes of `NextFrontBackIf` take them, put `xs` back
      together again. */
  lemma SplitEnds<T>(xs: seq<T>)
    ensures OptionToSeq(First(xs)) + DropLast(DropFirst(xs)) + OptionToSeq(Last(DropFirst(xs))) == xs
    ensures |xs| >= 2 ==>
              First(xs) == Some(xs[0]) && Last(DropFirst(xs)) == Some(xs[|xs| - 1]) &&
              DropLast(DropFirst(xs)) == xs[1..|xs| - 1]
    ensures |xs| < 2 ==> First(xs).None? || Last(DropFirst(xs)).None?
  {
    if |xs| >= 2 {
      assert xs == [xs[0]] + xs[1..|xs| - 1] + [xs[|xs| - 1]];
    }
  }

  /** Number of slots holding something, an end marker included. */
  function PulledSlots<T>(s: State<T>): nat {
    (if s.front.Pulled? then 1 else 0) + (if s.back.Pulled? then 1 else 0)
  }

  /** Number of slots caching the end marker. */
  function EndMarkers<T>(s: State<T>): nat {
    (if IsEnd(s.front) then 1 else 0) + (if IsEnd(s.back) then 1 else 0)
  }

  /** `size_hint` as written: the underlying bounds, here exactly `|iter|`,
      plus one for every pulled slot, an end marker included. Both bounds
      exceed the number of items left by the number of cached end markers. */
  function SizeHint<T>(s: State<T>): (r: (nat, Option<nat>))
    ensures r.1.Some? && r.1.value == r.0
    ensures r.0 == |Remaining(s)| + EndMarkers(s)
    ensures |Remaining(s)| <= r.1.value
    ensures !IsEnd(s.front) && !IsEnd(s.back) ==> r.0 == |Remaining(s)| && r.1.value == |Remaining(s)|
  {
    var (lower, upper) := (|s.iter|, Some(|s.iter|));
    var additional := PulledSlots(s);
    (lower + additional, match upper case None => None case Some(u) => Some(u + additional))
  }

  /** `size_hint` as the length-bound correction was meant: one more only for
      every slot caching a real item. Both bounds are then the exact number of
      items left. */
  function SizeHintIntended<T>(s: State<T>): (r: (nat, Option<nat>))
    ensures r.0 == |Remaining(s)| && r.1.Some? && r.1.value == |Remaining(s)|
  {
    var additional := |Cached(s.front)| + |Cached(s.back)|;
    (|s.iter| + additional, Some(|s.iter| + additional))
  }
}
