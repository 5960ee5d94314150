/** No lookahead: what a run has done after `k` candles depends on nothing beyond those candles. */
module Causality {
  import opened Wrappers
  import opened Domain
  import opened Engine

  /** The inputs of an experiment apart from its candles and segment boundaries. */
  ghost predicate SameTerms(a: Env, b: Env) {
    && a.config == b.config && a.initialCash == b.initialCash && a.instrument == b.instrument
    && a.timeframe == b.timeframe && a.digest == b.digest
  }

  /** Two experiments that cannot be told apart from their first `k` candles. */
  ghost predicate SameBefore(a: Env, b: Env, k: nat) {
    && SameTerms(a, b)
    && k <= |a.candles| && k <= |b.candles| && a.candles[..k] == b.candles[..k]
    && forall i :: i < k ==> (i in a.boundaries <==> i in b.boundaries)
  }

  /** Two strategies that answer alike as long as they have been shown no more than `k` candles. */
  ghost predicate AnswerAlike(x: Strategy, y: Strategy, k: nat) {
    forall shown :: |shown| <= k ==> x(shown) == y(shown)
  }

  lemma {:induction false} SameEvaluation(
    a: Env, b: Env, s: State, ids: seq<OrderId>, index: int, candle: Candle, consumed: real, reference: Option<real>)
    requires SameTerms(a, b)
    ensures EvaluateAll(a, s, ids, index, candle, consumed, reference)
            == EvaluateAll(b, s, ids, index, candle, consumed, reference)
    decreases |ids|
  {
    if ids != [] {
      assert EvaluateOne(a, s, ids[0], index, candle, consumed, reference)
          == EvaluateOne(b, s, ids[0], index, candle, consumed, reference);
      hide EvaluateOne;
      var first := EvaluateOne(a, s, ids[0], index, candle, consumed, reference);
      if first.failure.None? { SameEvaluation(a, b, first.state, ids[1..], index, candle, first.consumed, reference); }
    }
  }

  lemma {:induction false} SameAcceptance(
    a: Env, b: Env, s: State, intents: seq<ValidIntent>, index: int, decision: int, sequence: int,
    activeSides: set<Side>, accepted: seq<OrderId>)
    requires SameTerms(a, b)
    ensures AcceptFrom(a, s, intents, index, decision, sequence, activeSides, accepted)
            == AcceptFrom(b, s, intents, index, decision, sequence, activeSides, accepted)
    decreases |intents|
  {
    if intents != [] {
      var intent, rest := intents[0], intents[1..];
      assert RejectionFor(a, s, intent, activeSides) == RejectionFor(b, s, intent, activeSides);
      assert NewOrder(a, intent, index, decision, sequence) == NewOrder(b, intent, index, decision, sequence);
      var refused := RejectionFor(a, s, intent, activeSides);
      var order := NewOrder(a, intent, index, decision, sequence);
      hide RejectionFor, NewOrder;
      if refused.Some? {
        var rejected := Reject(s, index, decision, sequence, intent, refused.value);
        SameAcceptance(a, b, rejected, rest, index, decision, sequence + 1, activeSides, accepted);
      } else {
        SameAcceptance(a, b, AddOrder(s, order), rest, index, decision, sequence + 1, activeSides + {intent.side},
                       accepted + [order.orderId]);
      }
    }
  }

  lemma SameOpening(a: Env, b: Env, s: State, index: int, candle: Candle)
    requires SameTerms(a, b) && forall i :: i <= index ==> (i in a.boundaries <==> i in b.boundaries)
    ensures BeforeDecision(a, s, index, candle) == BeforeDecision(b, s, index, candle)
  {
    assert CrossedBoundaries(a, index) == CrossedBoundaries(b, index);
    var entered := EnterSegment(a, s, index);
    assert entered == EnterSegment(b, s, index);
    SameEvaluation(a, b, entered, SortIds(ActiveIds(entered)), index, candle, 0.0, None);
    hide EnterSegment, EvaluateAll, SortIds, ActiveIds, Mark;
  }

  lemma SameSettlement(
    a: Env, b: Env, s: State, index: int, candle: Candle, consumed: real, intents: seq<ValidIntent>)
    requires SameTerms(a, b)
    ensures AfterDecision(a, s, index, candle, consumed, intents)
            == AfterDecision(b, s, index, candle, consumed, intents)
  {
    var decided := Decide(s, index, candle, intents);
    var decision := |decided.decisions|;
    hide Decide, AcceptFrom, EvaluateAll, Conflict, RejectAll, ActiveSides, SortIds, KeepEligible, Mark;
    SameAcceptance(a, b, decided, intents, index, decision, 1, ActiveSides(decided), []);
    var acceptance := AcceptIntents(a, decided, intents, index, decision);
    var ids := SortIds(KeepEligible(acceptance.state.orders, acceptance.accepted, index));
    SameEvaluation(a, b, acceptance.state, ids, index, candle, consumed, Some(candle.close));
  }

  lemma SameCheck(a: Env, b: Env, s: State, index: nat)
    requires index < |a.candles| && SameBefore(a, b, index + 1)
    ensures index < |b.candles| && a.candles[index] == b.candles[index]
    ensures CheckCandle(a, s, index, a.candles[index]) == CheckCandle(b, s, index, a.candles[index])
  {
    assert a.candles[..index + 1][index] == b.candles[..index + 1][index];
    hide NonCash;
  }

  /**
   For all experiments, strategies and `k`: runs over candles that agree up to `k`, with strategies that agree on what
   they have been shown by then, are the same run. Nothing decided, filled or recorded in the first `k` candles can
   depend on a later candle, a later boundary or the length of the dataset.
   */
  lemma {:induction false} RunsReadThePast(a: Env, b: Env, x: Strategy, y: Strategy, k: nat)
    requires SameBefore(a, b, k) && AnswerAlike(x, y, k)
    ensures k <= |a.candles| && k <= |b.candles|
    ensures Run(a, x, k) == Run(b, y, k) && |Run(a, x, k).contexts| <= k
  {
    if k == 0 {
      assert SameTerms(a, b);
    } else {
      hide ProcessCandle, SameBefore, AnswerAlike;
      ShorterPast(a, b, x, y, k);
      RunsReadThePast(a, b, x, y, k - 1);
      var before := Run(a, x, k - 1);
      if before.outcome.failure.None? { SameProcess(a, b, x, y, before.outcome.state, before.contexts, k - 1); }
    }
  }

  lemma ShorterPast(a: Env, b: Env, x: Strategy, y: Strategy, k: nat)
    requires k > 0 && SameBefore(a, b, k) && AnswerAlike(x, y, k)
    ensures SameBefore(a, b, k - 1) && AnswerAlike(x, y, k - 1) && k <= |a.candles| && k <= |b.candles|
  {
    assert a.candles[..k][..k - 1] == a.candles[..k - 1] && b.candles[..k][..k - 1] == b.candles[..k - 1];
  }

  lemma SameProcess(a: Env, b: Env, x: Strategy, y: Strategy, s: State, contexts: seq<Context>, i: nat)
    requires i < |a.candles| && SameBefore(a, b, i + 1) && AnswerAlike(x, y, i + 1) && |contexts| <= i
    ensures i < |b.candles| && a.candles[i] == b.candles[i]
    ensures ProcessCandle(a, x, s, contexts, i, a.candles[i]) == ProcessCandle(b, y, s, contexts, i, b.candles[i])
    ensures |ProcessCandle(a, x, s, contexts, i, a.candles[i]).contexts| <= i + 1
  {
    var candle := a.candles[i];
    SameCheck(a, b, s, i);
    SameOpening(a, b, s, i, candle);
    var before := BeforeDecision(a, s, i, candle);
    var shown := contexts + [ContextOf(before.state, i, candle)];
    assert x(shown) == y(shown);
    if x(shown).Some? { SameSettlement(a, b, before.state, i, candle, before.consumed, x(shown).value); }
    hide BeforeDecision, AfterDecision, CheckCandle, ContextOf;
  }
}
