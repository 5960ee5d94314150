/** The last candle of a run taken apart: what it started from, what it before, accepted and closed. */
module CandleSteps {
  import opened Wrappers
  import opened Domain
  import opened Simulator
  import opened Accounting
  import opened Engine
  import opened EngineInvariant
  import opened EngineSteps
  import opened EngineTheorems

  datatype Parts = Parts(
    start: State,
    before: Pass,
    intents: seq<ValidIntent>,
    decided: State,
    accepted: Acceptance,
    closed: Outcome)

  ghost predicate IsCandle(env: Env, index: int, parts: Parts, s: State)
    requires 0 <= index < |env.candles|
  {
    var candle := env.candles[index];
    && CheckCandle(env, parts.start, index, candle).None?
    && parts.before == BeforeDecision(env, parts.start, index, candle) && parts.before.failure.None?
    && parts.decided == Decide(parts.before.state, index, candle, parts.intents)
    && parts.accepted == AcceptIntents(env, parts.decided, parts.intents, index, |parts.decided.decisions|)
    && parts.accepted.failure.None?
    && parts.closed
       == SameClose(env, parts.accepted.state, parts.accepted.accepted, index, candle, parts.before.consumed)
    && parts.closed.failure.None?
    && s == Advance(parts.closed.state, index, candle)
  }

  lemma LastCandle(env: Env, strategy: Strategy, k: nat, s: State) returns (parts: Parts)
    requires Reached(env, strategy, k, s) && k > 0
    ensures Reached(env, strategy, k - 1, parts.start) && IsCandle(env, k - 1, parts, s)
    ensures Run(env, strategy, k).contexts
            == Run(env, strategy, k - 1).contexts + [ContextOf(parts.before.state, k - 1, env.candles[k - 1])]
    ensures strategy(Run(env, strategy, k).contexts) == Some(parts.intents)
  {
    hide CheckCandle, BeforeDecision, AcceptIntents, SameClose, ContextOf, ValidEnv, Decide, Advance;
    var earlier := Run(env, strategy, k - 1);
    var candle := env.candles[k - 1];
    var start := earlier.outcome.state;
    var before := BeforeDecision(env, start, k - 1, candle);
    var shown := earlier.contexts + [ContextOf(before.state, k - 1, candle)];
    var intents := strategy(shown).value;
    var decided := Decide(before.state, k - 1, candle, intents);
    var accepted := AcceptIntents(env, decided, intents, k - 1, |decided.decisions|);
    var closed := SameClose(env, accepted.state, accepted.accepted, k - 1, candle, before.consumed);
    parts := Parts(start, before, intents, decided, accepted, closed);
  }

  /** The invariant between the steps of a candle. */
  lemma PartsKeep(env: Env, strategy: Strategy, k: nat, s: State, parts: Parts)
    requires Reached(env, strategy, k, s) && k > 0
    requires Reached(env, strategy, k - 1, parts.start) && IsCandle(env, k - 1, parts, s)
    ensures Current(env, parts.start, k - 2)
    ensures Inv(env, parts.before.state, k - 1, {}) && parts.before.consumed >= 0.0
    ensures Between(parts.start, parts.before.state)
    ensures Inv(env, parts.decided, k - 1, {}) && |parts.decided.decisions| == k
    ensures AcceptedInto(env, parts.decided, parts.accepted, k - 1)
    ensures forall id :: id in parts.decided.orders ==> parts.decided.orders[id].decisionSequence < k
    ensures Current(env, s, k - 1)
  {
    hide Run, BeforeDecision, AcceptIntents, SameClose, Inv, NonCash;
    ReachedKeeps(env, strategy, k - 1, parts.start);
    ReachedKeeps(env, strategy, k, s);
    var candle := env.candles[k - 1];
    BeforeDecisionKeeps(env, parts.start, k - 1, candle);
    var p := parts.before.state;
    BookkeepingKeeps(env, p, parts.decided, k - 1, {});
    DecisionsAreEarlier(env, p, k - 1);
    AcceptKeeps(env, parts.decided, parts.intents, k - 1);
  }

  lemma DecisionsAreEarlier(env: Env, s: State, now: int)
    requires Inv(env, s, now, {})
    ensures forall id :: id in s.orders ==> s.orders[id].decisionSequence <= |s.decisions|
  {
    hide Balanced, Ledgered, FillsInOrder, Clock, Derived;
    forall id | id in s.orders ensures s.orders[id].decisionSequence <= |s.decisions| {
      assert Known(env, s, id);
    }
  }

  // ---------------------------------------------------------------- what evaluation leaves alone

  /** Evaluating and marking change filled quantities and statuses of known orders, and no record of a decision. */
  ghost predicate TermsKept(s: State, s': State) {
    && s'.decisions == s.decisions && s'.rejections == s.rejections && s'.orderIds == s.orderIds
    && s'.orders.Keys == s.orders.Keys
    && forall id :: id in s.orders ==> SameTerms(s.orders[id], s'.orders[id])
  }

  lemma TermsCompose(s: State, t: State, u: State)
    requires TermsKept(s, t) && TermsKept(t, u)
    ensures TermsKept(s, u)
  {
    forall id | id in s.orders ensures SameTerms(s.orders[id], u.orders[id]) {
      assert SameTerms(s.orders[id], t.orders[id]) && SameTerms(t.orders[id], u.orders[id]);
    }
  }

  lemma EvaluateOneKeepsTerms(
    env: Env, s: State, id: OrderId, index: int, candle: Candle, consumed: real, reference: Option<real>)
    ensures TermsKept(s, EvaluateOne(env, s, id, index, candle, consumed, reference).state)
  {
    hide EvaluateOrder, ApplyFill;
    if id in s.orders && s.orders[id].Active() && s.orders[id].Valid() {
      FillIsBounded(s.orders[id], candle, s.account, env.config, index, consumed, reference);
    }
  }

  lemma {:induction false} EvaluateAllKeepsTerms(env: Env, s: State, ids: seq<OrderId>, index: int, candle: Candle,
                                                 consumed: real, reference: Option<real>)
    ensures TermsKept(s, EvaluateAll(env, s, ids, index, candle, consumed, reference).state)
    decreases |ids|
  {
    hide EvaluateOne;
    if ids != [] {
      EvaluateOneKeepsTerms(env, s, ids[0], index, candle, consumed, reference);
      var first := EvaluateOne(env, s, ids[0], index, candle, consumed, reference);
      if first.failure.None? {
        EvaluateAllKeepsTerms(env, first.state, ids[1..], index, candle, first.consumed, reference);
        TermsCompose(s, first.state, EvaluateAll(env, s, ids, index, candle, consumed, reference).state);
      }
    }
  }

  lemma BeforeDecisionKeepsTerms(env: Env, s: State, index: int, candle: Candle)
    ensures TermsKept(s, BeforeDecision(env, s, index, candle).state)
  {
    hide EvaluateAll, MarkToMarket, SortIds, ActiveIds;
    var entered := EnterSegment(env, s, index);
    EvaluateAllKeepsTerms(env, entered, SortIds(ActiveIds(entered)), index, candle, 0.0, None);
  }

  lemma SameCloseKeepsTerms(env: Env, s: State, accepted: seq<OrderId>, index: int, candle: Candle, consumed: real)
    ensures TermsKept(s, SameClose(env, s, accepted, index, candle, consumed).state)
  {
    hide EvaluateAll, MarkToMarket, SortIds, KeepEligible;
    var ids := SortIds(KeepEligible(s.orders, accepted, index));
    EvaluateAllKeepsTerms(env, s, ids, index, candle, consumed, Some(candle.close));
  }
}
