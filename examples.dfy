/** Properties relating several calls, and the call sequences of the
    repository's tests, stated on the model. */
module Examples {
  import opened Model

  /** Peeking pulls at most once: a second `peek` without a consume in between
      changes nothing and reports the same item. */
  lemma PeekIdempotent<T>(s: State<T>)
    ensures Peek(Peek(s).after) == Peek(s)
    ensures PeekBack(PeekBack(s).after) == PeekBack(s)
  {
  }

  /** After a rejected `next_if`, the next `next` hands out what the rejected
      call pulled. */
  lemma NextIfRejectedThenNext<T>(s: State<T>, accept: T -> bool)
    requires NextIf(s, accept).item.None?
    ensures Next(NextIf(s, accept).after).item == Next(s).item
    ensures Valid(s) ==> Next(NextIf(s, accept).after) == Next(s)
  {
  }

  /** The mirror image for `next_back_if` and `next_back`. */
  lemma NextBackIfRejectedThenNextBack<T>(s: State<T>, accept: T -> bool)
    requires NextBackIf(s, accept).item.None?
    ensures NextBack(NextBackIf(s, accept).after).item == NextBack(s).item
    ensures Valid(s) ==> NextBack(NextBackIf(s, accept).after) == NextBack(s)
  {
  }

  /** With one item left, a rejected `next_front_back_if` leaves that item at
      the front and the end marker at the back; a second such call changes
      nothing, and the item is then handed out exactly once from either end. */
  lemma PairRejectedWithOneItemLeft<T>(s: State<T>, accept: (T, T) -> bool, again: (T, T) -> bool)
    requires Valid(s) && |Remaining(s)| == 1
    ensures
      var t := NextFrontBackIf(s, accept).after;
      && t == State([], Pulled(Some(Remaining(s)[0])), Pulled(None))
      && NextFrontBackIf(t, again) == PairPull(t, None)
      && Next(t).item == Some(Remaining(s)[0])
      && Next(Next(t).after).item == None && NextBack(Next(t).after).item == None
      && NextBack(t).item == Some(Remaining(s)[0])
      && Next(NextBack(t).after).item == None && NextBack(NextBack(t).after).item == None
  {
    var t := NextFrontBackIf(s, accept).after;
    assert Remaining(t) == Remaining(s);
  }

  /** A sequence of one item, peeked at from both ends: both peeks see it,
      `next` hands it out, and then both ends are exhausted. */
  lemma SingleItemPeekedFromBothEnds<T>(x: T)
    ensures
      var p := Peek(Init([x]));
      var q := PeekBack(p.after);
      var n := Next(q.after);
      && p.item == Some(x) && q.item == Some(x)
      && q.after == State([], Pulled(Some(x)), Pulled(None))
      && n.item == Some(x) && n.after == State([], Empty, Pulled(None)) && Remaining(n.after) == []
      && NextBack(n.after).item == None && Next(n.after).item == None
  {
    var p := Peek(Init([x]));
    assert DropFirst([x]) == [];
    assert p.after == State([], Pulled(Some(x)), Empty);
  }

  /** Both peeks, then consuming forward over `[0, 1, 2]`. */
  lemma PeekBothEndsThenConsumeForward()
    ensures
      var p1 := Peek(Init([0, 1, 2]));
      var p2 := PeekBack(p1.after);
      var n1 := Next(p2.after);
      var p3 := Peek(n1.after);
      var n2 := Next(p3.after);
      var p4 := Peek(n2.after);
      var n3 := Next(p4.after);
      var p5 := Peek(n3.after);
      var p6 := PeekBack(p5.after);
      && p1.item == Some(0) && p1.after.front == Pulled(Some(0)) && p1.after.back == Empty
      && p2.item == Some(2) && p2.after.front == Pulled(Some(0)) && p2.after.back == Pulled(Some(2))
      && n1.item == Some(0) && n1.after.front == Empty && n1.after.back == Pulled(Some(2))
      && p3.item == Some(1) && p3.after.front == Pulled(Some(1)) && p3.after.back == Pulled(Some(2))
      && n2.item == Some(1) && n2.after.front == Empty && n2.after.back == Pulled(Some(2))
      && p4.item == Some(2) && p4.after.front == Pulled(None) && p4.after.back == Pulled(Some(2))
      && n3.item == Some(2) && n3.after.front == Empty && n3.after.back == Empty
      && p5.item == None && p5.after.front == Pulled(None) && p5.after.back == Empty
      && p6.item == None && p6.after.front == Pulled(None) && p6.after.back == Pulled(None)
  {
  }

  /** Both peeks, then consuming backward over `[0, 1, 2]`. */
  lemma PeekBothEndsThenConsumeBackward()
    ensures
      var p1 := Peek(Init([0, 1, 2]));
      var p2 := PeekBack(p1.after);
      var n1 := NextBack(p2.after);
      var p3 := PeekBack(n1.after);
      var n2 := NextBack(p3.after);
      var p4 := PeekBack(n2.after);
      var n3 := NextBack(p4.after);
      var p5 := Peek(n3.after);
      var p6 := PeekBack(p5.after);
      && p1.item == Some(0) && p1.after.front == Pulled(Some(0)) && p1.after.back == Empty
      && p2.item == Some(2) && p2.after.front == Pulled(Some(0)) && p2.after.back == Pulled(Some(2))
      && n1.item == Some(2) && n1.after.front == Pulled(Some(0)) && n1.after.back == Empty
      && p3.item == Some(1) && p3.after.front == Pulled(Some(0)) && p3.after.back == Pulled(Some(1))
      && n2.item == Some(1) && n2.after.front == Pulled(Some(0)) && n2.after.back == Empty
      && p4.item == Some(0) && p4.after.front == Pulled(Some(0)) && p4.after.back == Pulled(None)
      && n3.item == Some(0) && n3.after.front == Empty && n3.after.back == Empty
      && p5.item == None && p5.after.front == Pulled(None) && p5.after.back == Empty
      && p6.item == None && p6.after.front == Pulled(None) && p6.after.back == Pulled(None)
  {
  }

  /** `next_if` over `[0, 1, 2, 3]`: accepted calls consume, rejected ones put
      the item back at the front, also when it came from the back slot. */
  lemma NextIfTrace()
    ensures
      var a1 := NextIf(Init([0, 1, 2, 3]), x => x == 0);
      var p1 := Peek(a1.after);
      var r1 := NextIf(p1.after, x => x == 42);
      var a2 := NextIf(r1.after, x => x == 1);
      var p2 := PeekBack(a2.after);
      var r2 := NextIf(p2.after, x => x == 42);
      var a3 := NextIf(r2.after, x => x == 2);
      var r3 := NextIf(a3.after, x => x == 42);
      var a4 := NextIf(r3.after, x => x == 3);
      && a1.item == Some(0) && a1.after.front == Empty && a1.after.back == Empty
      && p1.item == Some(1)
      && r1.item == None && r1.after.front == Pulled(Some(1)) && r1.after.back == Empty
      && a2.item == Some(1) && a2.after.front == Empty && a2.after.back == Empty
      && p2.item == Some(3)
      && r2.item == None && r2.after.front == Pulled(Some(2)) && r2.after.back == Pulled(Some(3))
      && a3.item == Some(2) && a3.after.front == Empty && a3.after.back == Pulled(Some(3))
      && r3.item == None && r3.after.front == Pulled(Some(3)) && r3.after.back == Empty
      && a4.item == Some(3) && a4.after.front == Empty && a4.after.back == Empty
  {
  }

  /** Rejecting the pair over `[0, 1, 2, 3, 4, 5]` puts both ends back. */
  lemma PairTraceEven()
    ensures
      var a1 := NextFrontBackIf(Init([0, 1, 2, 3, 4, 5]), (a, b) => a == 0 && b == 5);
      var r1 := NextFrontBackIf(a1.after, (a, b) => a == 1 && b == 42);
      var a2 := NextFrontBackIf(r1.after, (a, b) => a == 1 && b == 4);
      && a1.pair == Some((0, 5)) && a1.after.front == Empty && a1.after.back == Empty
      && r1.pair == None && r1.after.front == Pulled(Some(1)) && r1.after.back == Pulled(Some(4))
      && a2.pair == Some((1, 4)) && a2.after.front == Empty && a2.after.back == Empty
  {
    var s := Init([0, 1, 2, 3, 4, 5]);
    assert Remaining(s) == [0, 1, 2, 3, 4, 5];
    var a1 := NextFrontBackIf(s, (a, b) => a == 0 && b == 5);
    assert a1.after == State([1, 2, 3, 4], Empty, Empty);
    var r1 := NextFrontBackIf(a1.after, (a, b) => a == 1 && b == 42);
    assert r1.after == State([2, 3], Pulled(Some(1)), Pulled(Some(4)));
  }

  /** With three items, after the outer pair only the middle one is left; the
      pair call then keeps failing in the same state. */
  lemma PairTraceOdd(never: (int, int) -> bool)
    ensures
      var a1 := NextFrontBackIf(Init([0, 1, 2]), (a, b) => a == 0 && b == 2);
      var r1 := NextFrontBackIf(a1.after, never);
      var r2 := NextFrontBackIf(r1.after, never);
      && a1.pair == Some((0, 2)) && a1.after.front == Empty && a1.after.back == Empty
      && r1.pair == None && r1.after.front == Pulled(Some(1)) && r1.after.back == Pulled(None)
      && r2.pair == None && r2.after == r1.after
  {
    var a1 := NextFrontBackIf(Init([0, 1, 2]), (a, b) => a == 0 && b == 2);
    assert a1.after == State([1], Empty, Empty);
  }

  /** Peeking at both ends of four items leaves the length bound at four. */
  lemma SizeHintTrace()
    ensures
      var s := Init([0, 1, 2, 3]);
      var p1 := Peek(s);
      var p2 := PeekBack(p1.after);
      var n := Next(p2.after);
      && SizeHint(s) == (4, Some(4))
      && SizeHint(p1.after) == (4, Some(4))
      && SizeHint(p2.after) == (4, Some(4))
      && SizeHint(n.after) == (3, Some(3))
  {
  }

  /** `size_hint` as written over-counts once an end marker is cached: one item
      left, held at the back, and the front has found the end, yet both
      bounds say two. The intended estimate says one. */
  lemma SizeHintOvercountsEndMarker()
    ensures
      var s := Peek(PeekBack(Init([0])).after).after;
      && s == State([], Pulled(None), Pulled(Some(0)))
      && Remaining(s) == [0]
      && SizeHint(s) == (2, Some(2))
      && SizeHintIntended(s) == (1, Some(1))
  {
  }

  /** Equality of adapters is structural: two states with the same items to
      come are different once one has pulled ahead. */
  lemma EqualityIsStructural()
    ensures
      var wrapped := Init([1]);
      var peeked := Peek(wrapped).after;
      && Remaining(wrapped) == Remaining(peeked)
      && wrapped != peeked
  {
  }
}
