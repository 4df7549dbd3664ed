/** The double-ended peekable adapter as an object whose three fields its
    methods update in place. Each method does what the corresponding Rust
    method does (`take()` of a slot, `get_or_insert_with`, a pull from the
    underlying iterator, an assignment to a slot). The contract of each
    operation ties the new fields and the result to the matching function of
    module Model, and so to what happens to the items still to come; the
    helpers that pull from the iterator or take a slot state what they do to
    their one field. */
module Adapter {
  import opened Model

  /** The predicate `next_if_eq` and `next_back_if_eq` hand to the predicate
      forms: equality with `expected`. */
  function EqualTo<T(==)>(expected: T): T -> bool {
    x => x == expected
  }

  /** The predicate `next_front_back_if_eq` hands to `next_front_back_if`. */
  function EqualToPair<T(==)>(expectedFront: T, expectedBack: T): (T, T) -> bool {
    (f, b) => f == expectedFront && b == expectedBack
  }

  class DoubleEndedPeekable<T(==)> {
    var iter: seq<T>
    var front: Slot<T>
    var back: Slot<T>

    /** The fields, as a value of the model. */
    function Snapshot(): Model.State<T>
      reads this
    {
      State(iter, front, back)
    }

    ghost predicate Valid()
      reads this
    {
      Model.Valid(Snapshot())
    }

    /** The items the adapter has still to hand out, in order. */
    ghost function Remaining(): seq<T>
      reads this
    {
      Model.Remaining(Snapshot())
    }

    /** `double_ended_peekable`: wrap an iterator holding `items`. */
    constructor (items: seq<T>)
      ensures Snapshot() == Init(items)
      ensures Valid() && Remaining() == items
    {
      iter := items;
      front := Empty;
      back := Empty;
    }

    /** `self.iter.next()` on the underlying iterator. */
    method PullFront() returns (o: Option<T>)
      modifies this`iter
      ensures o == First(old(iter)) && iter == DropFirst(old(iter))
    {
      if iter == [] {
        o := None;
      } else {
        o := Some(iter[0]);
        iter := iter[1..];
      }
    }

    /** `self.iter.next_back()` on the underlying iterator. */
    method PullBack() returns (o: Option<T>)
      modifies this`iter
      ensures o == Last(old(iter)) && iter == DropLast(old(iter))
    {
      if iter == [] {
        o := None;
      } else {
        o := Some(iter[|iter| - 1]);
        iter := iter[..|iter| - 1];
      }
    }

    /** `self.front.take().flatten()`. */
    method TakeFront() returns (o: Option<T>)
      modifies this`front
      ensures o == Flatten(old(front)) && front == Empty
    {
      o := Flatten(front);
      front := Empty;
    }

    /** `self.back.take().flatten()`. */
    method TakeBack() returns (o: Option<T>)
      modifies this`back
      ensures o == Flatten(old(back)) && back == Empty
    {
      o := Flatten(back);
      back := Empty;
    }

    /** `Iterator::next`: hands out the first of the remaining items. */
    method Next() returns (r: Option<T>)
      requires Valid()
      modifies this
      ensures Valid()
      ensures Pull(Snapshot(), r) == Model.Next(old(Snapshot()))
      ensures r == First(old(Remaining())) && Remaining() == DropFirst(old(Remaining()))
    {
      var taken := front;
      front := Empty;
      match taken
      case Pulled(Some(_)) =>
        r := taken.outcome;
      case Pulled(None) =>
        r := TakeBack();
      case Empty =>
        var pulled := PullFront();
        if pulled.Some? {
          r := pulled;
        } else {
          r := TakeBack();
        }
    }

    /** `DoubleEndedIterator::next_back`: hands out the last of the remaining
        items. */
    method NextBack() returns (r: Option<T>)
      requires Valid()
      modifies this
      ensures Valid()
      ensures Pull(Snapshot(), r) == Model.NextBack(old(Snapshot()))
      ensures r == Last(old(Remaining())) && Remaining() == DropLast(old(Remaining()))
    {
      var taken := back;
      back := Empty;
      match taken
      case Pulled(Some(_)) =>
        r := taken.outcome;
      case Pulled(None) =>
        r := TakeFront();
      case Empty =>
        var pulled := PullBack();
        if pulled.Some? {
          r := pulled;
        } else {
          r := TakeFront();
        }
    }

    /** `peek`: reports the first remaining item without consuming it. */
    method Peek() returns (r: Option<T>)
      requires Valid()
      modifies this
      ensures Valid()
      ensures Pull(Snapshot(), r) == Model.Peek(old(Snapshot()))
      ensures r == First(Remaining()) && Remaining() == old(Remaining())
    {
      if front.Empty? {
        var pulled := PullFront();
        front := Pulled(pulled);
      }
      r := if front.outcome.Some? then front.outcome else Flatten(back);
    }

    /** `peek_back`: reports the last remaining item without consuming it. */
    method PeekBack() returns (r: Option<T>)
      requires Valid()
      modifies this
      ensures Valid()
      ensures Pull(Snapshot(), r) == Model.PeekBack(old(Snapshot()))
      ensures r == Last(Remaining()) && Remaining() == old(Remaining())
    {
      if back.Empty? {
        var pulled := PullBack();
        back := Pulled(pulled);
      }
      r := if back.outcome.Some? then back.outcome else Flatten(front);
    }

    /** `peek_mut`, followed by the caller's `write` through the reference:
        the first remaining item is replaced in its slot. */
    method PeekMut(write: T -> T) returns (r: Option<T>)
      requires Valid()
      modifies this
      ensures Valid()
      ensures Pull(Snapshot(), r) == Model.PeekMut(old(Snapshot()), write)
      ensures r == First(old(Remaining()))
      ensures Remaining() == if r.None? then [] else [write(r.value)] + old(Remaining())[1..]
    {
      if front.Empty? {
        var pulled := PullFront();
        front := Pulled(pulled);
      }
      ghost var filled := Snapshot();
      assert filled == FillFront(old(Snapshot()));
      if front.outcome.Some? {
        r := front.outcome;
        front := Pulled(Some(write(r.value)));
      } else if back.Pulled? && back.outcome.Some? {
        r := back.outcome;
        back := Pulled(Some(write(r.value)));
      } else {
        r := None;
      }
    }

    /** `peek_back_mut`, followed by the caller's `write` through the
        reference: the last remaining item is replaced in its slot. */
    method PeekBackMut(write: T -> T) returns (r: Option<T>)
      requires Valid()
      modifies this
      ensures Valid()
      ensures Pull(Snapshot(), r) == Model.PeekBackMut(old(Snapshot()), write)
      ensures r == Last(old(Remaining()))
      ensures Remaining() == if r.None? then [] else old(Remaining())[..|old(Remaining())| - 1] + [write(r.value)]
    {
      if back.Empty? {
        var pulled := PullBack();
        back := Pulled(pulled);
      }
      ghost var filled := Snapshot();
      assert filled == FillBack(old(Snapshot()));
      if back.outcome.Some? {
        r := back.outcome;
        back := Pulled(Some(write(r.value)));
      } else if front.Pulled? && front.outcome.Some? {
        r := front.outcome;
        front := Pulled(Some(write(r.value)));
      } else {
        r := None;
      }
    }

    /** `next_if`: consumes the first remaining item only if `accept` holds of
        it; otherwise what was pulled goes back into the front slot. */
    method NextIf(accept: T -> bool) returns (r: Option<T>)
      requires Valid()
      modifies this
      ensures Valid()
      ensures Pull(Snapshot(), r) == Model.NextIf(old(Snapshot()), accept)
      ensures old(Remaining()) != [] && accept(old(Remaining())[0]) ==>
                r == Some(old(Remaining())[0]) && Remaining() == old(Remaining())[1..]
      ensures old(Remaining()) == [] || !accept(old(Remaining())[0]) ==>
                r == None && Remaining() == old(Remaining())
    {
      var item := Next();
      if item.Some? && accept(item.value) {
        r := item;
      } else {
        assert front == Empty;
        front := Pulled(item);
        r := None;
      }
    }

    /** `next_if_eq`: `NextIf` with equality to `expected`. */
    method NextIfEq(expected: T) returns (r: Option<T>)
      requires Valid()
      modifies this
      ensures Valid()
      ensures Pull(Snapshot(), r) == Model.NextIf(old(Snapshot()), EqualTo(expected))
      ensures old(Remaining()) != [] && old(Remaining())[0] == expected ==>
                r == Some(expected) && Remaining() == old(Remaining())[1..]
      ensures old(Remaining()) == [] || old(Remaining())[0] != expected ==>
                r == None && Remaining() == old(Remaining()) && front == Pulled(First(old(Remaining())))
    {
      r := NextIf(EqualTo(expected));
    }

    /** `next_back_if`: consumes the last remaining item only if `accept`
        holds of it; otherwise what was pulled goes back into the back slot. */
    method NextBackIf(accept: T -> bool) returns (r: Option<T>)
      requires Valid()
      modifies this
      ensures Valid()
      ensures Pull(Snapshot(), r) == Model.NextBackIf(old(Snapshot()), accept)
      ensures old(Remaining()) != [] && accept(old(Remaining())[|old(Remaining())| - 1]) ==>
                r == Some(old(Remaining())[|old(Remaining())| - 1]) &&
                Remaining() == old(Remaining())[..|old(Remaining())| - 1]
      ensures old(Remaining()) == [] || !accept(old(Remaining())[|old(Remaining())| - 1]) ==>
                r == None && Remaining() == old(Remaining())
    {
      var item := NextBack();
      if item.Some? && accept(item.value) {
        r := item;
      } else {
        assert back == Empty;
        back := Pulled(item);
        r := None;
      }
    }

    /** `next_back_if_eq`: `NextBackIf` with equality to `expected`. */
    method NextBackIfEq(expected: T) returns (r: Option<T>)
      requires Valid()
      modifies this
      ensures Valid()
      ensures Pull(Snapshot(), r) == Model.NextBackIf(old(Snapshot()), EqualTo(expected))
      ensures old(Remaining()) != [] && old(Remaining())[|old(Remaining())| - 1] == expected ==>
                r == Some(expected) && Remaining() == old(Remaining())[..|old(Remaining())| - 1]
      ensures old(Remaining()) == [] || old(Remaining())[|old(Remaining())| - 1] != expected ==>
                r == None && Remaining() == old(Remaining()) && back == Pulled(Last(old(Remaining())))
    {
      r := NextBackIf(EqualTo(expected));
    }

    /** `next_front_back_if`: consumes the first and the last remaining items
        together only if there are two of them and `accept` holds of them;
        otherwise both outcomes go back into their slots. */
    method NextFrontBackIf(accept: (T, T) -> bool) returns (r: Option<(T, T)>)
      requires Valid()
      modifies this
      ensures Valid()
      ensures PairPull(Snapshot(), r) == Model.NextFrontBackIf(old(Snapshot()), accept)
      ensures |old(Remaining())| >= 2 && accept(old(Remaining())[0], old(Remaining())[|old(Remaining())| - 1]) ==>
                r == Some((old(Remaining())[0], old(Remaining())[|old(Remaining())| - 1])) &&
                Remaining() == old(Remaining())[1..|old(Remaining())| - 1]
      ensures |old(Remaining())| < 2 || !accept(old(Remaining())[0], old(Remaining())[|old(Remaining())| - 1]) ==>
                r == None && Remaining() == old(Remaining())
    {
      var f := Next();
      var b := NextBack();
      if f.Some? && b.Some? && accept(f.value, b.value) {
        r := Some((f.value, b.value));
      } else {
        assert front == Empty;
        assert back == Empty;
        front := Pulled(f);
        back := Pulled(b);
        r := None;
      }
    }

    /** `next_front_back_if_eq`: `NextFrontBackIf` with equality to the two
        expected items. */
    method NextFrontBackIfEq(expectedFront: T, expectedBack: T) returns (r: Option<(T, T)>)
      requires Valid()
      modifies this
      ensures Valid()
      ensures PairPull(Snapshot(), r) == Model.NextFrontBackIf(old(Snapshot()), EqualToPair(expectedFront, expectedBack))
      ensures |old(Remaining())| >= 2 && old(Remaining())[0] == expectedFront &&
              old(Remaining())[|old(Remaining())| - 1] == expectedBack ==>
                r == Some((expectedFront, expectedBack)) &&
                Remaining() == old(Remaining())[1..|old(Remaining())| - 1]
      ensures |old(Remaining())| < 2 || old(Remaining())[0] != expectedFront ||
              old(Remaining())[|old(Remaining())| - 1] != expectedBack ==>
                r == None && Remaining() == old(Remaining())
    {
      r := NextFrontBackIf(EqualToPair(expectedFront, expectedBack));
    }

    /** `size_hint`, as written: both bounds exceed the number of remaining
        items by the number of slots caching the end marker. */
    function SizeHint(): (r: (nat, Option<nat>))
      reads this
      ensures r.1.Some? && r.1.value == r.0
      ensures r.0 == |Model.Remaining(Snapshot())| + EndMarkers(Snapshot())
      ensures !IsEnd(front) && !IsEnd(back) ==> r.0 == |Model.Remaining(Snapshot())|
    {
      Model.SizeHint(Snapshot())
    }

    /** `PartialEq::eq`: structural equality of the three fields, which
        implies, but is stronger than, agreeing on the items still to come. */
    function Eq(other: DoubleEndedPeekable<T>): (b: bool)
      reads this, other
      ensures b <==> Snapshot() == other.Snapshot()
      ensures b ==> Model.Remaining(Snapshot()) == Model.Remaining(other.Snapshot())
      ensures b ==> SizeHint() == other.SizeHint()
    {
      iter == other.iter && front == other.front && back == other.back
    }

    /** `Clone::clone`: a fresh adapter in the same state, which then evolves
        independently of this one. */
    method Clone() returns (c: DoubleEndedPeekable<T>)
      ensures fresh(c)
      ensures c.Snapshot() == Snapshot()
    {
      c := new DoubleEndedPeekable(iter);
      c.front := front;
      c.back := back;
    }
  }
}
