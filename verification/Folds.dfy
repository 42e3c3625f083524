/** Left folds over event logs, and how a FIFO between producer and consumer splits a log. */
module Folds {
  function Fold<S, E>(step: (S, E) -> S, s: S, log: seq<E>): S {
    if |log| == 0 then s else step(Fold(step, s, log[..|log| - 1]), log[|log| - 1])
  }

  lemma FoldPush<S, E>(step: (S, E) -> S, s: S, log: seq<E>, e: E)
    ensures Fold(step, s, log + [e]) == step(Fold(step, s, log), e)
  {
    assert (log + [e])[..|log|] == log;
  }

  lemma {:induction false} FoldConcat<S, E>(step: (S, E) -> S, s: S, a: seq<E>, b: seq<E>)
    ensures Fold(step, s, a + b) == Fold(step, Fold(step, s, a), b)
    decreases |b|
  {
    if |b| == 0 {
      assert a + b == a;
    } else {
      var front, e := b[..|b| - 1], b[|b| - 1];
      assert a + b == (a + front) + [e];
      FoldPush(step, s, a + front, e);
      FoldConcat(step, s, a, front);
    }
  }

  /** Consuming the head of a queue first, or folding the whole queue, is the same. */
  lemma FoldPop<S, E>(step: (S, E) -> S, s: S, q: seq<E>)
    requires |q| > 0
    ensures Fold(step, step(s, q[0]), q[1..]) == Fold(step, s, q)
  {
    assert [q[0]][..0] == [];
    assert Fold(step, s, [q[0]]) == step(s, q[0]);
    FoldConcat(step, s, [q[0]], q[1..]);
    assert [q[0]] + q[1..] == q;
  }

  /** `queue` is the tail of `log` that the consumer has not seen yet. */
  ghost predicate Tail<E>(log: seq<E>, queue: seq<E>) {
    |queue| <= |log| && log[|log| - |queue|..] == queue
  }

  /** The part of `log` the consumer has already taken. */
  ghost function Consumed<E>(log: seq<E>, queue: seq<E>): seq<E>
    requires |queue| <= |log|
  {
    log[..|log| - |queue|]
  }

  lemma PushKeepsTail<E>(log: seq<E>, queue: seq<E>, more: seq<E>)
    requires Tail(log, queue)
    ensures Tail(log + more, queue + more)
    ensures Consumed(log + more, queue + more) == Consumed(log, queue)
  {
    assert log == Consumed(log, queue) + queue;
    assert log + more == Consumed(log, queue) + (queue + more);
  }

  lemma PopKeepsTail<E>(log: seq<E>, queue: seq<E>)
    requires Tail(log, queue) && |queue| > 0
    ensures Tail(log, queue[1..])
    ensures Consumed(log, queue[1..]) == Consumed(log, queue) + [queue[0]]
  {
    var n := |log| - |queue|;
    assert log[n..][0] == queue[0];
    assert log[n..][1..] == log[n + 1..];
  }
}
