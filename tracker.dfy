/** The generation statistics every fitness wrapper keeps (projekt.py:405-415, repeated
    at 471-481, 558-568 and 662-672) and `reset_history` (126-129). The genetic
    algorithm calls the wrapper once per individual; every `gen_pop` calls the best
    (value, distance) pair of the generation is appended to the history. */
module Tracker {
  import opened Wrappers

  /** `(f_value, f_distance)`. */
  datatype Best = Best(value: int, distance: int)

  /** `__gen_counter`, `__gen_current_best` and `__gen_best`. The constructor's `0` and
      the `None` that `reset_history` leaves are both "no best yet". */
  datatype Tracker = Tracker(counter: int, best: Option<Best>, history: seq<Best>)

  /** A best pair is held whenever a generation is under way. */
  predicate Valid(t: Tracker)
  {
    t.counter != 0 ==> t.best.Some?
  }

  /** `reset_history`. */
  function Reset(): (t: Tracker)
    ensures Valid(t) && t.counter == 0 && t.history == []
  {
    Tracker(0, None, [])
  }

  /** One wrapper call with population size `pop` scoring `b`. The first call of a
      generation takes `b`; later calls take it only when strictly better. */
  function Observe(t: Tracker, pop: int, b: Best): (r: Tracker)
    requires Valid(t)
    ensures Valid(r) && r.best.Some?
  {
    var best := if t.counter == 0 || t.best.value.value < b.value then b else t.best.value;
    if t.counter + 1 == pop then Tracker(0, Some(best), t.history + [best])
    else Tracker(t.counter + 1, Some(best), t.history)
  }

  /** The wrapper called on `calls` in order. */
  function ObserveAll(t: Tracker, pop: int, calls: seq<Best>): (r: Tracker)
    requires Valid(t)
    ensures Valid(r)
  {
    if |calls| == 0 then t
    else Observe(ObserveAll(t, pop, calls[..|calls| - 1]), pop, calls[|calls| - 1])
  }

  /** The position of the first call with the greatest value. */
  function FirstMax(calls: seq<Best>): (i: nat)
    requires |calls| > 0
    ensures i < |calls|
    ensures forall j :: 0 <= j < |calls| ==> calls[j].value <= calls[i].value
    ensures forall j :: 0 <= j < i ==> calls[j].value < calls[i].value
  {
    if |calls| == 1 then 0
    else
      var i := FirstMax(calls[..|calls| - 1]);
      if calls[i].value < calls[|calls| - 1].value then |calls| - 1 else i
  }

  /** Within a generation: after `n` calls from its start the counter is `n`, the best
      pair is the first of the greatest value among them and the history is untouched.
      With `pop <= 0` the counter never meets `pop` and every call is of this kind. */
  lemma {:induction false} Partial(t: Tracker, pop: int, calls: seq<Best>)
    requires Valid(t) && t.counter == 0 && 0 < |calls| && (pop <= 0 || |calls| < pop)
    ensures var r := ObserveAll(t, pop, calls);
      r.counter == |calls| && r.best == Some(calls[FirstMax(calls)]) && r.history == t.history
    decreases |calls|
  {
    var n := |calls| - 1;
    if n > 0 {
      Partial(t, pop, calls[..n]);
      assert calls[..n][..n - 1] == calls[..n - 1];
    }
  }

  /** A whole generation of `pop` calls appends the first best of its calls to the
      history and starts the next generation. */
  lemma Generation(t: Tracker, pop: int, calls: seq<Best>)
    requires Valid(t) && t.counter == 0 && |calls| == pop > 0
    ensures var r := ObserveAll(t, pop, calls);
      r.counter == 0 && r.history == t.history + [calls[FirstMax(calls)]]
  {
    var n := |calls| - 1;
    if n > 0 {
      Partial(t, pop, calls[..n]);
      assert calls[..n][..n - 1] == calls[..n - 1];
    }
  }

  /** Calling the wrapper on `a` then on `b` is calling it on `a + b`. */
  lemma {:induction false} ObserveConcat(t: Tracker, pop: int, a: seq<Best>, b: seq<Best>)
    requires Valid(t)
    ensures ObserveAll(t, pop, a + b) == ObserveAll(ObserveAll(t, pop, a), pop, b)
    decreases |b|
  {
    if |b| > 0 {
      var n := |b| - 1;
      assert (a + b)[..|a + b| - 1] == a + b[..n];
      assert (a + b)[|a + b| - 1] == b[n];
      ObserveConcat(t, pop, a, b[..n]);
    } else {
      assert a + b == a;
    }
  }

  /** The calls of several generations, one after another. */
  function Flatten(gens: seq<seq<Best>>): seq<Best>
  {
    if |gens| == 0 then [] else Flatten(gens[..|gens| - 1]) + gens[|gens| - 1]
  }

  /** The best of each generation, in order: what `gen_best_history` should hold. */
  function Bests(gens: seq<seq<Best>>): (r: seq<Best>)
    requires forall g :: 0 <= g < |gens| ==> |gens[g]| > 0
    ensures |r| == |gens|
    ensures forall g :: 0 <= g < |gens| ==> r[g] == gens[g][FirstMax(gens[g])]
  {
    if |gens| == 0 then []
    else Bests(gens[..|gens| - 1]) + [gens[|gens| - 1][FirstMax(gens[|gens| - 1])]]
  }

  /** Whole generations of `pop` calls each, from a reset tracker, leave the history
      holding exactly the first best of each generation, in order. */
  lemma {:induction false} History(pop: int, gens: seq<seq<Best>>)
    requires pop > 0 && forall g :: 0 <= g < |gens| ==> |gens[g]| == pop
    ensures var r := ObserveAll(Reset(), pop, Flatten(gens));
      r.counter == 0 && r.history == Bests(gens)
    decreases |gens|
  {
    if |gens| > 0 {
      var n := |gens| - 1;
      var before := ObserveAll(Reset(), pop, Flatten(gens[..n]));
      History(pop, gens[..n]);
      ObserveConcat(Reset(), pop, Flatten(gens[..n]), gens[n]);
      Generation(before, pop, gens[n]);
    }
  }
}
