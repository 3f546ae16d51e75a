/**
 * `Chained`: an iterator over a first iterator and an optional fallback one,
 * with the inner iterators modelled as cursors into sequences.
 */
module Iter {
  import opened Options

  /** The state of an inner iterator: the items it walks and its position. */
  datatype Cursor<T> = Cursor(items: seq<T>, pos: nat)

  /** The items an inner iterator has yet to yield. */
  function Remaining<T>(c: Cursor<T>): seq<T>
  {
    if c.pos < |c.items| then c.items[c.pos..] else []
  }

  /**
   * One `next` of an inner iterator: the first remaining item, which is then
   * consumed; `None` and no change once it is exhausted.
   */
  function CursorNext<T>(c: Cursor<T>): (r: (Option<T>, Cursor<T>))
    ensures r.1.items == c.items
    ensures Remaining(c) == [] ==> r.0 == None && r.1 == c
    ensures Remaining(c) != [] ==>
      r.0 == Some(Remaining(c)[0]) && Remaining(r.1) == Remaining(c)[1..]
  {
    if c.pos < |c.items| then (Some(c.items[c.pos]), c.(pos := c.pos + 1)) else (None, c)
  }

  /** The fields of a `Chained`: the first iterator, the optional second one, and `curr_a`. */
  datatype ChainState<T> = ChainState(a: Cursor<T>, b: Option<Cursor<T>>, currA: bool)

  /**
   * `Chained::next` on the state: while `curr_a` it advances `a` alone; otherwise
   * it advances `b` when present, or returns `None`. It never changes `curr_a`.
   */
  function ChainNext<T>(s: ChainState<T>): (r: (Option<T>, ChainState<T>))
    ensures r.1.currA == s.currA
    ensures s.currA ==> r.1.b == s.b && (r.0, r.1.a) == CursorNext(s.a)
    ensures !s.currA && s.b.Some? ==> r.1.a == s.a && r.1.b.Some? && (r.0, r.1.b.value) == CursorNext(s.b.value)
    ensures !s.currA && s.b.None? ==> r.0 == None && r.1 == s
  {
    if s.currA then
      var (x, a') := CursorNext(s.a);
      (x, s.(a := a'))
    else if s.b.Some? then
      var (x, b') := CursorNext(s.b.value);
      (x, s.(b := Some(b')))
    else
      (None, s)
  }

  /** What the chain yields from state `s` on: the remaining items of the iterator `curr_a` selects. */
  function Pending<T>(s: ChainState<T>): seq<T>
  {
    if s.currA then Remaining(s.a)
    else if s.b.Some? then Remaining(s.b.value)
    else []
  }

  /** Each `next` yields the first pending item and consumes it, or `None` once nothing is pending. */
  lemma ChainNextPending<T>(s: ChainState<T>)
    ensures Pending(s) == [] ==> ChainNext(s).0 == None && Pending(ChainNext(s).1) == []
    ensures Pending(s) != [] ==>
      ChainNext(s).0 == Some(Pending(s)[0]) && Pending(ChainNext(s).1) == Pending(s)[1..]
  {
  }

  /** The results of `n` successive `next` calls from state `s`. */
  function Run<T>(s: ChainState<T>, n: nat): (r: seq<Option<T>>)
    ensures |r| == n
    decreases n
  {
    if n == 0 then [] else [ChainNext(s).0] + Run(ChainNext(s).1, n - 1)
  }

  /** The state after `n` successive `next` calls from state `s`. */
  function RunState<T>(s: ChainState<T>, n: nat): ChainState<T>
    decreases n
  {
    if n == 0 then s else RunState(ChainNext(s).1, n - 1)
  }

  /** `n` calls yield the pending items in order, then `None` for every further call. */
  lemma {:induction false} RunYieldsPending<T>(s: ChainState<T>, n: nat)
    ensures forall k :: 0 <= k < n ==>
      Run(s, n)[k] == if k < |Pending(s)| then Some(Pending(s)[k]) else None
    decreases n
  {
    if n > 0 {
      var s' := ChainNext(s).1;
      ChainNextPending(s);
      RunYieldsPending(s', n - 1);
      forall k | 0 <= k < n
        ensures Run(s, n)[k] == if k < |Pending(s)| then Some(Pending(s)[k]) else None
      {
        if k > 0 {
          assert Run(s, n)[k] == Run(s', n - 1)[k - 1];
        }
      }
    }
  }

  /** No call ever changes `curr_a`, and while it is true the second iterator is never advanced. */
  lemma {:induction false} RunKeepsFlag<T>(s: ChainState<T>, n: nat)
    ensures RunState(s, n).currA == s.currA
    ensures s.currA ==> RunState(s, n).b == s.b
    decreases n
  {
    if n > 0 {
      RunKeepsFlag(ChainNext(s).1, n - 1);
    }
  }

  /**
   * A chain built by `Chained::new(a, b)` yields exactly the remaining items of
   * `a`, then `None` forever: never an item of `b`, which stays as it was.
   */
  lemma NewChainYieldsOnlyFirst<T>(a: Cursor<T>, b: Option<Cursor<T>>, n: nat)
    ensures forall k :: 0 <= k < n ==>
      Run(ChainState(a, b, true), n)[k] == if k < |Remaining(a)| then Some(Remaining(a)[k]) else None
    ensures RunState(ChainState(a, b, true), n).b == b
    ensures RunState(ChainState(a, b, true), n).currA
  {
    RunYieldsPending(ChainState(a, b, true), n);
    RunKeepsFlag(ChainState(a, b, true), n);
  }

  /** An inner iterator: a fixed sequence of items and a cursor into it. */
  class SeqIter<T> {
    const items: seq<T>
    var pos: nat

    constructor (items: seq<T>)
      ensures this.items == items && pos == 0
    {
      this.items := items;
      pos := 0;
    }

    ghost function State(): Cursor<T>
      reads this
    {
      Cursor(items, pos)
    }

    /** `Iterator::next` of the inner iterator. */
    method Next() returns (r: Option<T>)
      modifies this`pos
      ensures (r, State()) == CursorNext(old(State()))
    {
      if pos < |items| {
        r := Some(items[pos]);
        pos := pos + 1;
      } else {
        r := None;
      }
    }
  }

  /** The chained iterator. The two inner iterators are distinct objects, as each is owned by the chain. */
  class Chained<T> {
    const a: SeqIter<T>
    const b: Option<SeqIter<T>>
    var currA: bool

    ghost predicate Valid()
    {
      b.Some? ==> b.value != a
    }

    /** The inner iterators a call may advance. */
    ghost function Inner(): set<object>
    {
      {a} + if b.Some? then {b.value} else {}
    }

    ghost function State(): ChainState<T>
      reads this, Inner()
    {
      ChainState(a.State(), if b.Some? then Some(b.value.State()) else None, currA)
    }

    /** `Chained::new`: stores both iterators and starts on the first. */
    constructor (a: SeqIter<T>, b: Option<SeqIter<T>>)
      requires b.Some? ==> b.value != a
      ensures Valid() && this.a == a && this.b == b && currA
      ensures State() == ChainState(a.State(), if b.Some? then Some(b.value.State()) else None, true)
      ensures Pending(State()) == Remaining(a.State())
    {
      this.a := a;
      this.b := b;
      currA := true;
    }

    /** `Chained::next`. */
    method Next() returns (r: Option<T>)
      requires Valid()
      modifies Inner()
      ensures (r, State()) == ChainNext(old(State()))
    {
      if currA {
        r := a.Next();
      } else if b.Some? {
        r := b.value.Next();
      } else {
        r := None;
      }
    }
  }
}
