/** Any interleaving of consumes and peeks from either end hands out every
    item exactly once: the items consumed from the front, in order, followed
    by what is left, followed by the items consumed from the back, in the
    reverse of the order they were consumed in, are always the items the
    adapter was created with. */
module Traces {
  import opened Model

  /** One call on the adapter. The mutable peeks are left out here: they
      change items rather than hand them out. */
  datatype Op<!T> =
    | CallNext
    | CallNextBack
    | CallPeek
    | CallPeekBack
    | CallNextIf(accept: T -> bool)
    | CallNextBackIf(accept: T -> bool)
    | CallNextFrontBackIf(acceptPair: (T, T) -> bool)

  /** The state after some calls, with the items they handed out from the
      front (in the order handed out) and from the back (likewise). */
  datatype Trace<T> = Trace(after: State<T>, taken: seq<T>, takenBack: seq<T>)

  function Reversed<T>(xs: seq<T>): (r: seq<T>)
    ensures |r| == |xs|
  {
    if xs == [] then [] else Reversed(xs[1..]) + [xs[0]]
  }

  lemma {:induction false} ReversedAppend<T>(xs: seq<T>, ys: seq<T>)
    ensures Reversed(xs + ys) == Reversed(ys) + Reversed(xs)
  {
    if xs == [] {
      assert xs + ys == ys;
    } else {
      assert (xs + ys)[1..] == xs[1..] + ys;
      ReversedAppend(xs[1..], ys);
    }
  }

  /** One call, and what it hands out. */
  function Step<T>(s: State<T>, op: Op<T>): Trace<T> {
    match op
    case CallNext =>
      var r := Next(s); Trace(r.after, OptionToSeq(r.item), [])
    case CallNextBack =>
      var r := NextBack(s); Trace(r.after, [], OptionToSeq(r.item))
    case CallPeek =>
      Trace(Peek(s).after, [], [])
    case CallPeekBack =>
      Trace(PeekBack(s).after, [], [])
    case CallNextIf(accept) =>
      var r := NextIf(s, accept); Trace(r.after, OptionToSeq(r.item), [])
    case CallNextBackIf(accept) =>
      var r := NextBackIf(s, accept); Trace(r.after, [], OptionToSeq(r.item))
    case CallNextFrontBackIf(acceptPair) =>
      var r := NextFrontBackIf(s, acceptPair); PairTrace(r)
  }

  /** What `next_front_back_if` hands out: both items of an accepted pair, or
      nothing. */
  function PairTrace<T>(r: PairPull<T>): Trace<T> {
    match r.pair
    case None => Trace(r.after, [], [])
    case Some(p) => Trace(r.after, [p.0], [p.1])
  }

  /** The calls `ops` one after the other. */
  function Run<T>(s: State<T>, ops: seq<Op<T>>): Trace<T>
    decreases |ops|
  {
    if ops == [] then Trace(s, [], [])
    else
      var first := Step(s, ops[0]);
      var rest := Run(first.after, ops[1..]);
      Trace(rest.after, first.taken + rest.taken, first.takenBack + rest.takenBack)
  }

  /** Handing out the first item loses nothing. */
  lemma FrontAccounts<T>(before: seq<T>, item: Option<T>, after: seq<T>)
    requires item == First(before) && after == DropFirst(before)
    ensures before == OptionToSeq(item) + after
  {
    if before != [] { assert before == [before[0]] + before[1..]; }
  }

  /** Handing out the last item loses nothing. */
  lemma BackAccounts<T>(before: seq<T>, item: Option<T>, after: seq<T>)
    requires item == Last(before) && after == DropLast(before)
    ensures before == after + OptionToSeq(item)
  {
    if before != [] {
      assert before == before[..|before| - 1] + [before[|before| - 1]];
    }
  }

  /** Handing out the first and the last item together, or nothing, loses
      nothing. */
  lemma PairAccounts<T>(before: seq<T>, pair: Option<(T, T)>, after: seq<T>)
    requires pair.Some? ==>
               |before| >= 2 && pair.value == (before[0], before[|before| - 1]) &&
               after == before[1..|before| - 1]
    requires pair.None? ==> after == before
    ensures pair.Some? ==> before == [pair.value.0] + after + [pair.value.1]
  {
    if pair.Some? {
      assert before == [before[0]] + before[1..|before| - 1] + [before[|before| - 1]];
    }
  }

  /** Every single call keeps the invariant and loses or duplicates nothing. */
  lemma StepAccounts<T>(s: State<T>, op: Op<T>)
    requires Valid(s)
    ensures Valid(Step(s, op).after)
    ensures Remaining(s) ==
              Step(s, op).taken + Remaining(Step(s, op).after) + Reversed(Step(s, op).takenBack)
  {
    StepKeepsValid(s, op);
    StepHandsOutWhatLeaves(s, op);
  }

  /** The two halves of `StepAccounts`, and then one lemma per kind of call,
      each putting the deque fact of that call into the shape of `Step`. */
  lemma StepKeepsValid<T>(s: State<T>, op: Op<T>)
    requires Valid(s)
    ensures Valid(Step(s, op).after)
  {
  }

  lemma StepHandsOutWhatLeaves<T>(s: State<T>, op: Op<T>)
    requires Valid(s)
    ensures Remaining(s) ==
              Step(s, op).taken + Remaining(Step(s, op).after) + Reversed(Step(s, op).takenBack)
  {
    match op
    case CallNext => StepNextAccounts(s);
    case CallNextBack => StepNextBackAccounts(s);
    case CallPeek => assert Remaining(Peek(s).after) == Remaining(s);
    case CallPeekBack => assert Remaining(PeekBack(s).after) == Remaining(s);
    case CallNextIf(accept) => StepNextIfAccounts(s, accept);
    case CallNextBackIf(accept) => StepNextBackIfAccounts(s, accept);
    case CallNextFrontBackIf(acceptPair) => StepNextFrontBackIfAccounts(s, acceptPair);
  }

  lemma StepNextAccounts<T>(s: State<T>)
    requires Valid(s)
    ensures var t := Step(s, CallNext); Remaining(s) == t.taken + Remaining(t.after) + Reversed(t.takenBack)
  {
    var r := Next(s);
    assert Step(s, CallNext) == Trace(r.after, OptionToSeq(r.item), []);
    NextAccounts(s);
    Assemble(Remaining(s), OptionToSeq(r.item), Remaining(r.after), []);
  }

  lemma StepNextBackAccounts<T>(s: State<T>)
    requires Valid(s)
    ensures var t := Step(s, CallNextBack); Remaining(s) == t.taken + Remaining(t.after) + Reversed(t.takenBack)
  {
    var r := NextBack(s);
    assert Step(s, CallNextBack) == Trace(r.after, [], OptionToSeq(r.item));
    NextBackAccounts(s);
    BackTrace(Remaining(s), Step(s, CallNextBack), r.after, r.item);
  }

  lemma StepNextIfAccounts<T>(s: State<T>, accept: T -> bool)
    requires Valid(s)
    ensures var t := Step(s, CallNextIf(accept)); Remaining(s) == t.taken + Remaining(t.after) + Reversed(t.takenBack)
  {
    var r := NextIf(s, accept);
    assert Step(s, CallNextIf(accept)) == Trace(r.after, OptionToSeq(r.item), []);
    NextIfAccounts(s, accept);
    Assemble(Remaining(s), OptionToSeq(r.item), Remaining(r.after), []);
  }

  lemma StepNextBackIfAccounts<T>(s: State<T>, accept: T -> bool)
    requires Valid(s)
    ensures var t := Step(s, CallNextBackIf(accept)); Remaining(s) == t.taken + Remaining(t.after) + Reversed(t.takenBack)
  {
    var r := NextBackIf(s, accept);
    assert Step(s, CallNextBackIf(accept)) == Trace(r.after, [], OptionToSeq(r.item));
    NextBackIfAccounts(s, accept);
    BackTrace(Remaining(s), Step(s, CallNextBackIf(accept)), r.after, r.item);
  }

  lemma StepNextFrontBackIfAccounts<T>(s: State<T>, acceptPair: (T, T) -> bool)
    requires Valid(s)
    ensures var t := Step(s, CallNextFrontBackIf(acceptPair));
            Remaining(s) == t.taken + Remaining(t.after) + Reversed(t.takenBack)
  {
    var r := NextFrontBackIf(s, acceptPair);
    assert Step(s, CallNextFrontBackIf(acceptPair)) == PairTrace(r);
    NextFrontBackIfAccounts(s, acceptPair);
    PairTraceAccounts(Remaining(s), r);
  }

  lemma PairTraceAccounts<T>(before: seq<T>, r: PairPull<T>)
    requires r.pair.None? ==> before == Remaining(r.after)
    requires r.pair.Some? ==> before == [r.pair.value.0] + Remaining(r.after) + [r.pair.value.1]
    ensures before == PairTrace(r).taken + Remaining(PairTrace(r).after) + Reversed(PairTrace(r).takenBack)
  {
    match r.pair
    case None => Assemble(before, [], Remaining(r.after), []);
    case Some(p) => Assemble(before, [p.0], Remaining(r.after), [p.1]);
  }

  /** A single call hands out at most one item at the back, which reversing
      leaves in place. */
  lemma Assemble<T>(before: seq<T>, taken: seq<T>, middle: seq<T>, takenBack: seq<T>)
    requires |takenBack| <= 1 && before == taken + middle + takenBack
    ensures before == taken + middle + Reversed(takenBack)
  {
    if takenBack != [] {
      assert takenBack[1..] == [];
    }
  }

  /** The same for a call that hands out at most one item, at the back only. */
  lemma BackTrace<T>(before: seq<T>, t: Trace<T>, after: State<T>, item: Option<T>)
    requires t == Trace(after, [], OptionToSeq(item))
    requires before == Remaining(after) + OptionToSeq(item)
    ensures before == t.taken + Remaining(t.after) + Reversed(t.takenBack)
  {
    Assemble(before, [], Remaining(after), OptionToSeq(item));
  }

  lemma NextAccounts<T>(s: State<T>)
    requires Valid(s)
    ensures Remaining(s) == OptionToSeq(Next(s).item) + Remaining(Next(s).after)
  {
    FrontAccounts(Remaining(s), Next(s).item, Remaining(Next(s).after));
  }

  lemma NextBackAccounts<T>(s: State<T>)
    requires Valid(s)
    ensures Remaining(s) == Remaining(NextBack(s).after) + OptionToSeq(NextBack(s).item)
  {
    BackAccounts(Remaining(s), NextBack(s).item, Remaining(NextBack(s).after));
  }

  lemma NextIfAccounts<T>(s: State<T>, accept: T -> bool)
    requires Valid(s)
    ensures Remaining(s) == OptionToSeq(NextIf(s, accept).item) + Remaining(NextIf(s, accept).after)
  {
    var r := NextIf(s, accept);
    if r.item.Some? {
      FrontAccounts(Remaining(s), r.item, Remaining(r.after));
    } else {
      assert Remaining(r.after) == Remaining(s);
    }
  }

  lemma NextBackIfAccounts<T>(s: State<T>, accept: T -> bool)
    requires Valid(s)
    ensures Remaining(s) == Remaining(NextBackIf(s, accept).after) + OptionToSeq(NextBackIf(s, accept).item)
  {
    var r := NextBackIf(s, accept);
    if r.item.Some? {
      BackAccounts(Remaining(s), r.item, Remaining(r.after));
    } else {
      assert Remaining(r.after) == Remaining(s);
    }
  }

  lemma NextFrontBackIfAccounts<T>(s: State<T>, acceptPair: (T, T) -> bool)
    requires Valid(s)
    ensures NextFrontBackIf(s, acceptPair).pair.None? ==>
              Remaining(s) == Remaining(NextFrontBackIf(s, acceptPair).after)
    ensures NextFrontBackIf(s, acceptPair).pair.Some? ==>
              var p := NextFrontBackIf(s, acceptPair).pair.value;
              Remaining(s) == [p.0] + Remaining(NextFrontBackIf(s, acceptPair).after) + [p.1]
  {
    var r := NextFrontBackIf(s, acceptPair);
    var R := Remaining(s);
    if r.pair.Some? {
      assert |R| >= 2 && r.pair.value == (R[0], R[|R| - 1]) && Remaining(r.after) == R[1..|R| - 1];
    }
    PairAccounts(R, r.pair, Remaining(r.after));
  }

  /** The same for any sequence of calls. */
  lemma {:induction false} RunAccounts<T>(s: State<T>, ops: seq<Op<T>>)
    requires Valid(s)
    ensures Valid(Run(s, ops).after)
    ensures Remaining(s) ==
              Run(s, ops).taken + Remaining(Run(s, ops).after) + Reversed(Run(s, ops).takenBack)
    decreases |ops|
  {
    if ops != [] {
      var first := Step(s, ops[0]);
      var rest := Run(first.after, ops[1..]);
      StepAccounts(s, ops[0]);
      RunAccounts(first.after, ops[1..]);
      ReversedAppend(first.takenBack, rest.takenBack);
      Regroup(first.taken, rest.taken, Remaining(rest.after), Reversed(rest.takenBack), Reversed(first.takenBack));
    }
  }

  lemma Regroup<T>(a: seq<T>, b: seq<T>, m: seq<T>, c: seq<T>, d: seq<T>)
    ensures a + (b + m + c) + d == (a + b) + m + (c + d)
  {
  }

  /** Starting from a freshly wrapped iterator, once nothing is left, the items
      consumed from the front followed by those consumed from the back,
      reversed, are exactly the original items: none lost, none handed out
      twice. */
  lemma NoItemLostOrDuplicated<T>(items: seq<T>, ops: seq<Op<T>>)
    requires Remaining(Run(Init(items), ops).after) == []
    ensures Run(Init(items), ops).taken + Reversed(Run(Init(items), ops).takenBack) == items
    ensures multiset(Run(Init(items), ops).taken) + multiset(Run(Init(items), ops).takenBack) == multiset(items)
  {
    var t := Run(Init(items), ops);
    RunAccounts(Init(items), ops);
    assert t.taken + [] == t.taken;
    ReversedSameItems(t.takenBack);
  }

  lemma {:induction false} ReversedSameItems<T>(xs: seq<T>)
    ensures multiset(Reversed(xs)) == multiset(xs)
  {
    if xs != [] {
      ReversedSameItems(xs[1..]);
      assert xs == [xs[0]] + xs[1..];
    }
  }
}
