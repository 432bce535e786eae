/** `whilst(predicate, promiseFactory)`: call the predicate; while its value
    is truthy, run the body and call the predicate again; settle with the
    first falsy predicate value. The predicate and the body are observed as
    the sequences of settlements of their successive calls: `preds[i]` is
    how the i-th predicate call settles, `bodies[i]` how the i-th body call
    settles. A call beyond the end of its sequence never settles. */
module Whilst {
  import opened Js

  /** How a run of `whilst` ends, and how many calls it made. */
  datatype Trace<V, E> = Trace(result: Settled<V, E>, predicateCalls: nat, bodyCalls: nat)

  function BodyAt<B, E>(bodies: seq<Settled<B, E>>, i: nat): Settled<B, E>
  {
    if i < |bodies| then bodies[i] else Pending
  }

  /** The run of `whilst` from its i-th predicate call on (calls are counted from 0). */
  function RunFrom<V, B, E>(preds: seq<Settled<V, E>>, bodies: seq<Settled<B, E>>, truthy: V -> bool, i: nat): (r: Trace<V, E>)
    requires i <= |preds|
    ensures i < r.predicateCalls <= |preds| + 1
    ensures r.predicateCalls - 1 <= r.bodyCalls <= r.predicateCalls
    decreases |preds| - i
  {
    if i == |preds| then Trace(Pending, i + 1, i)
    else match preds[i]
      case Pending => Trace(Pending, i + 1, i)
      case Rejected(e) => Trace(Rejected(e), i + 1, i)
      case Resolved(v) =>
        if !truthy(v) then Trace(Resolved(v), i + 1, i)
        else match BodyAt(bodies, i)
          case Pending => Trace(Pending, i + 1, i + 1)
          case Rejected(e) => Trace(Rejected(e), i + 1, i + 1)
          case Resolved(_) => RunFrom(preds, bodies, truthy, i + 1)
  }

  /** The whole run of `whilst`. */
  function Evaluate<V, B, E>(preds: seq<Settled<V, E>>, bodies: seq<Settled<B, E>>, truthy: V -> bool): Trace<V, E>
  {
    RunFrom(preds, bodies, truthy, 0)
  }

  /** The first k predicate calls were truthy and each was followed by a body
      call that resolved: the loop went round k times. */
  predicate Continued<V, B, E>(preds: seq<Settled<V, E>>, bodies: seq<Settled<B, E>>, truthy: V -> bool, k: nat)
  {
    k <= |preds| &&
    forall j :: 0 <= j < k ==>
      preds[j].Resolved? && truthy(preds[j].value) && BodyAt(bodies, j).Resolved?
  }

  /** After k full rounds, the run is the run from the k-th predicate call. */
  lemma {:induction false} SkipContinued<V, B, E>(preds: seq<Settled<V, E>>, bodies: seq<Settled<B, E>>, truthy: V -> bool, k: nat)
    requires Continued(preds, bodies, truthy, k)
    ensures Evaluate(preds, bodies, truthy) == RunFrom(preds, bodies, truthy, k)
    decreases k
  {
    if k > 0 {
      assert Continued(preds, bodies, truthy, k - 1);
      SkipContinued(preds, bodies, truthy, k - 1);
    }
  }

  /** After k full rounds, a predicate call that does not return a truthy
      value ends the run with its own settlement, the body having run k times. */
  lemma StopsAt<V, B, E>(preds: seq<Settled<V, E>>, bodies: seq<Settled<B, E>>, truthy: V -> bool, k: nat)
    requires Continued(preds, bodies, truthy, k) && k < |preds|
    requires !(preds[k].Resolved? && truthy(preds[k].value))
    ensures Evaluate(preds, bodies, truthy) == Trace(preds[k], k + 1, k)
  {
    SkipContinued(preds, bodies, truthy, k);
  }

  lemma {:induction false} StopsFrom<V, B, E>(preds: seq<Settled<V, E>>, bodies: seq<Settled<B, E>>, truthy: V -> bool, i: nat)
    requires Continued(preds, bodies, truthy, i)
    ensures var r := RunFrom(preds, bodies, truthy, i);
      Continued(preds, bodies, truthy, r.predicateCalls - 1) &&
      RunFrom(preds, bodies, truthy, r.predicateCalls - 1) == r
    decreases |preds| - i
  {
    var r := RunFrom(preds, bodies, truthy, i);
    if r.predicateCalls - 1 != i {
      assert Continued(preds, bodies, truthy, i + 1);
      StopsFrom(preds, bodies, truthy, i + 1);
    }
  }

  /** Every run ends at its last predicate call: all earlier rounds were
      complete, and the last call (or the body after it) decided the result. */
  lemma StopsAtLastCall<V, B, E>(preds: seq<Settled<V, E>>, bodies: seq<Settled<B, E>>, truthy: V -> bool)
    ensures var r := Evaluate(preds, bodies, truthy);
      Continued(preds, bodies, truthy, r.predicateCalls - 1) &&
      RunFrom(preds, bodies, truthy, r.predicateCalls - 1) == r
  {
    StopsFrom(preds, bodies, truthy, 0);
  }

  /** A falsy first predicate value: the body never runs and that value is the result. */
  lemma FalsyFirst<V, B, E>(preds: seq<Settled<V, E>>, bodies: seq<Settled<B, E>>, truthy: V -> bool)
    requires |preds| > 0 && preds[0].Resolved? && !truthy(preds[0].value)
    ensures Evaluate(preds, bodies, truthy) == Trace(preds[0], 1, 0)
  {
  }

  /** The result is a value exactly when some predicate call returned it as
      the first falsy value after complete rounds; that call is the last one,
      and the body ran once for each earlier call. */
  lemma ResolvesToFirstFalsy<V, B, E>(preds: seq<Settled<V, E>>, bodies: seq<Settled<B, E>>, truthy: V -> bool, v: V)
    ensures Evaluate(preds, bodies, truthy).result == Resolved(v) <==>
      exists n :: 0 <= n < |preds| && Continued(preds, bodies, truthy, n) && preds[n] == Resolved(v) && !truthy(v)
    ensures var r := Evaluate(preds, bodies, truthy);
      r.result == Resolved(v) ==>
        r.predicateCalls - 1 < |preds| && preds[r.predicateCalls - 1] == Resolved(v) &&
        !truthy(v) && r.bodyCalls == r.predicateCalls - 1
  {
    var r := Evaluate(preds, bodies, truthy);
    StopsAtLastCall(preds, bodies, truthy);
    if exists n :: 0 <= n < |preds| && Continued(preds, bodies, truthy, n) && preds[n] == Resolved(v) && !truthy(v) {
      var n :| 0 <= n < |preds| && Continued(preds, bodies, truthy, n) && preds[n] == Resolved(v) && !truthy(v);
      SkipContinued(preds, bodies, truthy, n);
    }
  }

  /** The body runs once for each truthy predicate value and for nothing
      else, and the predicate is called again only after the previous body
      call has resolved. */
  lemma BodyOncePerTruthy<V, B, E>(preds: seq<Settled<V, E>>, bodies: seq<Settled<B, E>>, truthy: V -> bool)
    ensures var r := Evaluate(preds, bodies, truthy);
      forall j :: 0 <= j < r.predicateCalls && j < |preds| ==>
        (j < r.bodyCalls <==> preds[j].Resolved? && truthy(preds[j].value))
    ensures var r := Evaluate(preds, bodies, truthy);
      forall j :: 0 <= j < r.predicateCalls - 1 ==> BodyAt(bodies, j).Resolved?
  {
    StopsAtLastCall(preds, bodies, truthy);
  }

  /** A rejection of the predicate or of the body ends the loop with that
      reason; no further call is made. Conversely, a rejection after complete
      rounds is the result. */
  lemma RejectionPropagates<V, B, E>(preds: seq<Settled<V, E>>, bodies: seq<Settled<B, E>>, truthy: V -> bool, e: E)
    ensures var r := Evaluate(preds, bodies, truthy); var n := r.predicateCalls - 1;
      r.result == Rejected(e) ==>
        n < |preds| && Continued(preds, bodies, truthy, n) &&
        ((preds[n] == Rejected(e) && r.bodyCalls == n) ||
         (preds[n].Resolved? && truthy(preds[n].value) && BodyAt(bodies, n) == Rejected(e) && r.bodyCalls == n + 1))
    ensures forall n :: 0 <= n < |preds| && Continued(preds, bodies, truthy, n) && preds[n] == Rejected(e) ==>
      Evaluate(preds, bodies, truthy) == Trace(Rejected(e), n + 1, n)
    ensures forall n ::
      (0 <= n < |preds| && Continued(preds, bodies, truthy, n) && preds[n].Resolved? &&
       truthy(preds[n].value) && BodyAt(bodies, n) == Rejected(e)) ==>
      Evaluate(preds, bodies, truthy) == Trace(Rejected(e), n + 1, n + 1)
  {
    StopsAtLastCall(preds, bodies, truthy);
    forall n | 0 <= n < |preds| && Continued(preds, bodies, truthy, n)
      ensures Evaluate(preds, bodies, truthy) == RunFrom(preds, bodies, truthy, n)
    {
      SkipContinued(preds, bodies, truthy, n);
    }
  }

  /** `whilst` as a loop: the predicate first, the body once per truthy value. */
  method Whilst<V, B, E>(preds: seq<Settled<V, E>>, bodies: seq<Settled<B, E>>, truthy: V -> bool)
    returns (r: Trace<V, E>)
    ensures r == Evaluate(preds, bodies, truthy)
  {
    var i := 0;
    while i < |preds|
      invariant i <= |preds|
      invariant Evaluate(preds, bodies, truthy) == RunFrom(preds, bodies, truthy, i)
      decreases |preds| - i
    {
      match preds[i]
      case Pending =>
        return Trace(Pending, i + 1, i);
      case Rejected(e) =>
        return Trace(Rejected(e), i + 1, i);
      case Resolved(v) =>
        if !truthy(v) {
          return Trace(Resolved(v), i + 1, i);
        }
        match BodyAt(bodies, i)
        case Pending =>
          return Trace(Pending, i + 1, i + 1);
        case Rejected(e) =>
          return Trace(Rejected(e), i + 1, i + 1);
        case Resolved(_) =>
      i := i + 1;
    }
    return Trace(Pending, i + 1, i);
  }
}
