/** Histories, sequential models, and what it means for a history to be linearizable.
    Times are the monotonic timestamps of porcupine's Operation record. */
module Linearizability {

  datatype Operation<+I, +O> = Operation(clientId: int, input: I, call: int, output: O, ret: int)

  /** The part of porcupine's Model that decides the answer: Init and Step. States are compared
      with ShallowEqual, that is, with plain equality. */
  datatype Model<!S, !I, !O> = Model(init: S, step: (S, I, O) -> (bool, S))

  /** The state reached by running a sequence of operations from Init. */
  function StateAfter<S, I, O>(m: Model<S, I, O>, order: seq<Operation<I, O>>): S {
    if order == [] then m.init
    else
      var last := order[|order| - 1];
      m.step(StateAfter(m, order[..|order| - 1]), last.input, last.output).1
  }

  /** Every operation of the sequence is accepted by Step. */
  predicate Legal<S, I, O>(m: Model<S, I, O>, order: seq<Operation<I, O>>) {
    order == [] ||
    var front, last := order[..|order| - 1], order[|order| - 1];
    Legal(m, front) && m.step(StateAfter(m, front), last.input, last.output).0
  }

  /** No operation is placed before one that returned before it was called. */
  predicate RespectsRealTime<I, O>(order: seq<Operation<I, O>>) {
    forall i, j :: 0 <= i < j < |order| ==> !(order[j].ret < order[i].call)
  }

  /** The order is a permutation of the history that is legal and respects real time. */
  ghost predicate IsLinearization<S, I, O>(m: Model<S, I, O>, history: seq<Operation<I, O>>,
                                           order: seq<Operation<I, O>>) {
    multiset(order) == multiset(history) && RespectsRealTime(order) && Legal(m, order)
  }

  ghost predicate Linearizable<S, I(!new), O(!new)>(m: Model<S, I, O>, history: seq<Operation<I, O>>) {
    exists order :: IsLinearization(m, history, order)
  }

  /** Every operation returns no earlier than it was called. */
  predicate WellTimed<I, O>(history: seq<Operation<I, O>>) {
    forall i :: 0 <= i < |history| ==> history[i].call <= history[i].ret
  }
}
