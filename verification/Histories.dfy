/** Runs of `n` steps a round, for any step relation. */
module Histories {
  import Bits

  /** The steps so far, last one outermost: what each has left and what it has reported. */
  datatype History<T, R> = Empty(start: T) | Ran(before: History<T, R>, left: T, row: R)

  function Left<T, R>(h: History<T, R>): T {
    if h.Empty? then h.start else h.left
  }

  function RowsOf<T, R>(h: History<T, R>): seq<R> {
    if h.Empty? then [] else RowsOf(h.before) + [h.row]
  }

  /** The whole rounds, and the steps of the round under way. */
  function Rounds<T, R>(h: History<T, R>, n: nat): nat {
    if h.Empty? then 0 else if Index(h.before, n) + 1 == n then Rounds(h.before, n) + 1 else Rounds(h.before, n)
  }

  function Index<T, R>(h: History<T, R>, n: nat): nat {
    if h.Empty? || Index(h.before, n) + 1 == n then 0 else Index(h.before, n) + 1
  }

  /** A step of round `done + 1` at index `i`, from one value to the next, with its row. */
  type Relation<!T, !R> = (T, nat, nat, T, R) -> bool

  /** The steps are taken in order, round after round. */
  ghost predicate RunOf<T, R>(h: History<T, R>, start: T, n: nat, step: Relation<T, R>) {
    match h
    case Empty(first) => first == start
    case Ran(before, left, row) =>
      && RunOf(before, start, n, step)
      && step(Left(before), Rounds(before, n), Index(before, n), left, row)
  }

  lemma {:induction false} Position<T, R>(h: History<T, R>, n: nat)
    requires 0 < n
    ensures Index(h, n) < n && |RowsOf(h)| == n * Rounds(h, n) + Index(h, n)
  {
    if h.Ran? {
      Position(h.before, n);
      var done := Rounds(h.before, n);
      assert n * (done + 1) == n * done + n;
    }
  }

  lemma {:induction false} PositionIs<T, R>(h: History<T, R>, n: nat)
    requires 0 < n
    ensures Rounds(h, n) == |RowsOf(h)| / n && Index(h, n) == |RowsOf(h)| % n
  {
    Position(h, n);
    Bits.DivModUnique(|RowsOf(h)|, n, Rounds(h, n), Index(h, n));
  }

  // ----- invariants --------------------------------------------------------------------------------------------

  /** `reached` holds after a step at index `i`. */
  predicate ReachedNext<T>(left: T, n: nat, done: nat, i: nat, reached: (T, nat, nat) -> bool) {
    if i + 1 == n then reached(left, done + 1, 0) else reached(left, done, i + 1)
  }

  /** Every step keeps `reached` and reports a right row. */
  ghost predicate Keeps<T(!new), R(!new)>(n: nat, step: Relation<T, R>, reached: (T, nat, nat) -> bool,
                                          right: (R, nat, nat) -> bool) {
    forall x: T, done: nat, i: nat, y: T, row: R {:trigger step(x, done, i, y, row)} ::
      i < n && reached(x, done, i) && step(x, done, i, y, row) ==>
        ReachedNext(y, n, done, i, reached) && right(row, done, i)
  }

  lemma {:induction false} RunReaches<T(!new), R(!new)>(
    h: History<T, R>, start: T, n: nat, step: Relation<T, R>, reached: (T, nat, nat) -> bool,
    right: (R, nat, nat) -> bool)
    requires 0 < n && RunOf(h, start, n, step) && reached(start, 0, 0) && Keeps(n, step, reached, right)
    ensures reached(Left(h), Rounds(h, n), Index(h, n))
  {
    if h.Ran? {
      RunReaches(h.before, start, n, step, reached, right);
      Position(h.before, n);
      assert ReachedNext(h.left, n, Rounds(h.before, n), Index(h.before, n), reached);
    }
  }

  lemma {:induction false} RowsAreRight<T(!new), R(!new)>(
    h: History<T, R>, start: T, n: nat, step: Relation<T, R>, reached: (T, nat, nat) -> bool,
    right: (R, nat, nat) -> bool, k: nat)
    requires 0 < n && RunOf(h, start, n, step) && reached(start, 0, 0) && Keeps(n, step, reached, right)
    requires k < |RowsOf(h)|
    ensures right(RowsOf(h)[k], k / n, k % n)
  {
    if k < |RowsOf(h.before)| {
      RowsAreRight(h.before, start, n, step, reached, right, k);
    } else {
      RunReaches(h.before, start, n, step, reached, right);
      Position(h.before, n);
      PositionIs(h.before, n);
    }
  }

  /** Wherever `reached` holds, a step is possible. */
  ghost predicate CanStep<T(!new), R(!new)>(n: nat, step: Relation<T, R>, reached: (T, nat, nat) -> bool) {
    forall x: T, done: nat, i: nat {:trigger Possible(step, x, done, i)} ::
      i < n && reached(x, done, i) ==> Possible(step, x, done, i)
  }

  ghost predicate Possible<T(!new), R(!new)>(step: Relation<T, R>, x: T, done: nat, i: nat) {
    exists y: T, row: R :: step(x, done, i, y, row)
  }

  /** Whatever has been run so far, one more step can be. */
  lemma {:induction false} Continues<T(!new), R(!new)>(
    h: History<T, R>, start: T, n: nat, step: Relation<T, R>, reached: (T, nat, nat) -> bool,
    right: (R, nat, nat) -> bool)
    returns (next: History<T, R>)
    requires 0 < n && RunOf(h, start, n, step) && reached(start, 0, 0) && Keeps(n, step, reached, right)
    requires CanStep(n, step, reached)
    ensures next.Ran? && next.before == h && RunOf(next, start, n, step)
  {
    RunReaches(h, start, n, step, reached, right);
    Position(h, n);
    assert Possible(step, Left(h), Rounds(h, n), Index(h, n));
    var y: T, row: R :| step(Left(h), Rounds(h, n), Index(h, n), y, row);
    next := Ran(h, y, row);
  }

  /** There are runs of every length. */
  lemma {:induction false} SomeRun<T(!new), R(!new)>(
    start: T, n: nat, step: Relation<T, R>, reached: (T, nat, nat) -> bool, right: (R, nat, nat) -> bool, k: nat)
    returns (h: History<T, R>)
    requires 0 < n && reached(start, 0, 0) && Keeps(n, step, reached, right) && CanStep(n, step, reached)
    ensures RunOf(h, start, n, step) && |RowsOf(h)| == k
  {
    if k == 0 {
      h := Empty(start);
    } else {
      h := SomeRun(start, n, step, reached, right, k - 1);
      h := Continues(h, start, n, step, reached, right);
    }
  }
}
