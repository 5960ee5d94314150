/** Which intents become orders, with what terms, and that every intent of a run is answered exactly once. */
module Intake {
  import opened Wrappers
  import opened Domain
  import opened Simulator
  import opened Engine
  import opened EngineInvariant
  import opened EngineSteps
  import opened EngineTheorems
  import opened CandleSteps

  // ---------------------------------------------------------------- the rule for one intent

  /** The whole acceptance rule of one intent, clause by clause and in no order. */
  ghost predicate Admits(env: Env, s: State, intent: ValidIntent) {
    && (forall id :: id in s.orders && s.orders[id].Active() ==> s.orders[id].side != intent.side)
    && (intent.side.SellToClose? ==> intent.quantity <= s.account.position)
    && intent.quantity >= env.config.minQuantity
    && (intent.orderType.Limit? ==>
          && IsMultiple(intent.limitPrice.value, env.config.priceTick)
          && intent.limitPrice.value * intent.quantity >= env.config.minNotional)
  }

  /** What a refusal of a lone intent claims. */
  ghost predicate Justified(env: Env, s: State, intent: ValidIntent, reason: RejectionReason) {
    match reason
    case ConflictingIntents => false
    case ActiveOrderSameSide =>
      exists id :: id in s.orders && s.orders[id].Active() && s.orders[id].side == intent.side
    case PositionTooSmall => intent.side.SellToClose? && intent.quantity > s.account.position
    case QuantityTooSmall => intent.quantity < env.config.minQuantity
    case BadLimitTick => intent.orderType.Limit? && !IsMultiple(intent.limitPrice.value, env.config.priceTick)
    case NotionalTooSmall =>
      intent.orderType.Limit? && intent.limitPrice.value * intent.quantity < env.config.minNotional
  }

  /** A lone intent is refused exactly when some clause fails, and then for a reason that holds. */
  lemma RefusedUnlessAdmitted(env: Env, s: State, intent: ValidIntent)
    ensures RejectionFor(env, s, intent, ActiveSides(s)).None? <==> Admits(env, s, intent)
    ensures RejectionFor(env, s, intent, ActiveSides(s)).Some? ==>
              Justified(env, s, intent, RejectionFor(env, s, intent, ActiveSides(s)).value)
  {
    if intent.orderType.Limit? { OnTickIffMultiple(intent.limitPrice.value, env.config.priceTick); }
    hide OnTick, IsMultiple;
    SidesAreActive(s, intent.side);
  }

  lemma SidesAreActive(s: State, side: Side)
    ensures side in ActiveSides(s) <==>
              exists id :: id in s.orders && s.orders[id].Active() && s.orders[id].side == side
  {
  }

  /** Two intents of one decision always conflict, a lone one never does. */
  lemma ConflictIffSeveral(intents: seq<ValidIntent>)
    ensures Conflict(intents) <==> |intents| >= 2
  {
    EveryIntentHasASide(intents);
    if |intents| == 1 { assert CountSide(intents[1..], Buy) == 0 && CountSide(intents[1..], SellToClose) == 0; }
  }

  // ---------------------------------------------------------------- one decision

  /** The order has exactly the terms its intent asked for, and the window the configuration gives them. */
  ghost predicate HasTerms(env: Env, o: Order, intent: ValidIntent, index: int, decision: int) {
    && o.decisionSequence == decision && o.intentSequence == 1 && o.created == index
    && o.side == intent.side && o.orderType == intent.orderType && o.limitPrice == intent.limitPrice
    && o.tif == intent.tif && o.requested == intent.quantity
    && o.eligible == index + env.config.latencyBars + (if env.config.timing.NextCandle? then 1 else 0)
    && o.expiresAfter - o.eligible == (if intent.tif.GTC? then env.config.maxActiveCandles - 1 else 0)
  }

  function RefusalOf(
    intent: ValidIntent, index: int, decision: int, sequence: int, reason: RejectionReason): Rejection
  {
    Rejection(index, decision, sequence, intent.side, intent.orderType, reason)
  }

  /** The answer to one decision: its lone admissible intent as an order, or a justified refusal of each intent. */
  ghost predicate Answers(env: Env, s: State, intents: seq<ValidIntent>, index: int, a: Acceptance) {
    var d := |s.decisions|;
    && a.state == s.(orders := a.state.orders, orderIds := a.state.orderIds, rejections := a.state.rejections)
    && (if |intents| == 1 && Admits(env, s, intents[0])
        then
          && a.state.rejections == s.rejections
          && exists o: Order ::
               && HasTerms(env, o, intents[0], index, d) && o.status.Accepted? && o.filled == 0.0
               && o.orderId == env.digest(d, 1) && o.orderId !in s.orders
               && a == Acceptance(AddOrder(s, o), [o.orderId], None)
        else
          && a.state.orders == s.orders && a.state.orderIds == s.orderIds && a.accepted == []
          && Refusals(env, s, intents, index, a.state.rejections))
  }

  ghost predicate Refusals(env: Env, s: State, intents: seq<ValidIntent>, index: int, rejections: seq<Rejection>) {
    && |rejections| == |s.rejections| + |intents|
    && s.rejections <= rejections
    && forall i :: 0 <= i < |intents| ==> RefusalAt(env, s, intents, index, rejections, i)
  }

  ghost predicate RefusalAt(
    env: Env, s: State, intents: seq<ValidIntent>, index: int, rejections: seq<Rejection>, i: int)
    requires 0 <= i < |intents| && |rejections| == |s.rejections| + |intents|
  {
    var r := rejections[|s.rejections| + i];
    && r == RefusalOf(intents[i], index, |s.decisions|, i + 1, r.reason)
    && if |intents| >= 2 then r.reason.ConflictingIntents? else Justified(env, s, intents[i], r.reason)
  }

  lemma {:induction false} RejectAllRecords(
    s: State, intents: seq<ValidIntent>, index: int, decision: int, sequence: int)
    ensures var r := RejectAll(s, intents, index, decision, sequence).rejections;
            && |r| == |s.rejections| + |intents| && s.rejections <= r
            && forall i :: 0 <= i < |intents| ==>
                 r[|s.rejections| + i] == RefusalOf(intents[i], index, decision, sequence + i, ConflictingIntents)
    decreases |intents|
  {
    if intents != [] {
      var rejected := Reject(s, index, decision, sequence, intents[0], ConflictingIntents);
      RejectAllRecords(rejected, intents[1..], index, decision, sequence + 1);
      var r := RejectAll(s, intents, index, decision, sequence).rejections;
      forall i | 0 <= i < |intents|
        ensures r[|s.rejections| + i] == RefusalOf(intents[i], index, decision, sequence + i, ConflictingIntents)
      {
        if i > 0 {
          assert intents[i] == intents[1..][i - 1];
        } else {
          assert r[|s.rejections|] == rejected.rejections[|s.rejections|];
        }
      }
    }
  }

  /** Acceptance answers every decision by that rule. */
  lemma AcceptanceAnswers(env: Env, s: State, intents: seq<ValidIntent>, index: int)
    requires AcceptIntents(env, s, intents, index, |s.decisions|).failure.None?
    ensures Answers(env, s, intents, index, AcceptIntents(env, s, intents, index, |s.decisions|))
  {
    ConflictIffSeveral(intents);
    var d := |s.decisions|;
    var a := AcceptIntents(env, s, intents, index, d);
    hide Admits, Justified, RejectionFor, Conflict;
    if |intents| >= 2 {
      RejectAllOnlyRecords(s, intents, index, d, 1);
      RejectAllRecords(s, intents, index, d, 1);
      forall i | 0 <= i < |intents| ensures RefusalAt(env, s, intents, index, a.state.rejections, i) {}
    } else if |intents| == 1 {
      var intent := intents[0];
      assert intents == [intent];
      AcceptFromOne(env, s, intent, index, d);
      RefusedUnlessAdmitted(env, s, intent);
      if Admits(env, s, intent) {
        assert HasTerms(env, NewOrder(env, intent, index, d, 1), intent, index, d);
      } else {
        assert RefusalAt(env, s, intents, index, a.state.rejections, 0);
      }
    }
  }

  // ---------------------------------------------------------------- every intent of a run

  /** A decision's order, if it has one, has its lone intent's terms; otherwise each of its intents was refused. */
  ghost predicate Answered(env: Env, s: State, d: nat)
    requires d < |s.decisions|
  {
    var intents := s.decisions[d].intents;
    if env.digest(d + 1, 1) in s.orders
    then |intents| == 1 && HasTerms(env, s.orders[env.digest(d + 1, 1)], intents[0], d, d + 1)
    else forall i :: 0 <= i < |intents| ==> WasRefused(s, intents[i], d, i)
  }

  ghost predicate WasRefused(s: State, intent: ValidIntent, d: nat, i: nat) {
    exists r :: r in s.rejections && r == RefusalOf(intent, d, d + 1, i + 1, r.reason)
  }

  function TotalIntents(decisions: seq<Decision>): nat {
    if decisions == [] then 0
    else TotalIntents(decisions[..|decisions| - 1]) + |decisions[|decisions| - 1].intents|
  }

  ghost predicate AllAnswered(env: Env, s: State) {
    && (forall d :: 0 <= d < |s.decisions| ==> s.decisions[d].sequence == d + 1 && s.decisions[d].candleIndex == d)
    && (forall d :: 0 <= d < |s.decisions| ==> Answered(env, s, d))
    && (forall id :: id in s.orders ==>
          && 1 <= s.orders[id].decisionSequence <= |s.decisions|
          && id == env.digest(s.orders[id].decisionSequence, 1))
    && |s.orderIds| + |s.rejections| == TotalIntents(s.decisions)
  }

  lemma TermsKeepAnswers(env: Env, s: State, s': State)
    requires AllAnswered(env, s) && TermsKept(s, s')
    ensures AllAnswered(env, s')
  {
    forall d | 0 <= d < |s'.decisions| ensures Answered(env, s', d) {
      assert Answered(env, s, d);
      forall i | 0 <= i < |s'.decisions[d].intents| && env.digest(d + 1, 1) !in s'.orders
        ensures WasRefused(s', s'.decisions[d].intents[i], d, i)
      {
        assert WasRefused(s, s.decisions[d].intents[i], d, i);
      }
    }
  }

  lemma NewDigestIsFree(env: Env, s: State)
    requires Injective(env.digest) && AllAnswered(env, s)
    ensures env.digest(|s.decisions| + 1, 1) !in s.orders
  {
    forall id | id in s.orders ensures id != env.digest(|s.decisions| + 1, 1) {
      assert s.orders[id].decisionSequence <= |s.decisions|;
    }
  }

  /** Earlier decisions keep their answers when one more decision is recorded and answered. */
  lemma EarlierStayAnswered(env: Env, s: State, t: State, d: nat)
    requires Injective(env.digest) && d < |s.decisions| && Answered(env, s, d)
    requires s.decisions <= t.decisions && s.rejections <= t.rejections
    requires t.orders == s.orders
             || exists o: Order ::
                  o.orderId == env.digest(|s.decisions| + 1, 1) && t.orders == s.orders[o.orderId := o]
    ensures Answered(env, t, d)
  {
    assert t.decisions[d] == s.decisions[d];
    assert env.digest(d + 1, 1) != env.digest(|s.decisions| + 1, 1);
    forall i | 0 <= i < |t.decisions[d].intents| && env.digest(d + 1, 1) !in t.orders
      ensures WasRefused(t, t.decisions[d].intents[i], d, i)
    {
      assert WasRefused(s, s.decisions[d].intents[i], d, i);
    }
  }

  lemma RefusalsAnswer(env: Env, s: State, intents: seq<ValidIntent>, index: int, rejections: seq<Rejection>, i: nat)
    requires Refusals(env, s, intents, index, rejections) && i < |intents| && |s.decisions| == index + 1 && index >= 0
    ensures WasRefused(s.(rejections := rejections), intents[i], index, i)
  {
    hide Justified;
    assert RefusalAt(env, s, intents, index, rejections, i);
    var r := rejections[|s.rejections| + i];
    assert r in rejections && r == RefusalOf(intents[i], index, index + 1, i + 1, r.reason);
  }

  lemma DecisionKeepsAnswers(
    env: Env, s: State, intents: seq<ValidIntent>, index: int, candle: Candle, a: Acceptance)
    requires Injective(env.digest) && AllAnswered(env, s) && |s.decisions| == index
    requires Answers(env, Decide(s, index, candle, intents), intents, index, a)
    ensures AllAnswered(env, a.state)
  {
    hide Admits, Justified;
    var decided := Decide(s, index, candle, intents);
    NewDigestIsFree(env, s);
    var t := a.state;
    assert t.decisions[..|s.decisions|] == s.decisions;
    forall d | 0 <= d < |t.decisions| ensures Answered(env, t, d) {
      if d < |s.decisions| {
        EarlierStayAnswered(env, s, t, d);
      } else if !(|intents| == 1 && Admits(env, decided, intents[0])) {
        forall i | 0 <= i < |intents| ensures WasRefused(t, intents[i], d, i) {
          RefusalsAnswer(env, decided, intents, index, t.rejections, i);
          assert WasRefused(decided.(rejections := t.rejections), intents[i], index, i);
        }
      }
    }
  }

  /**
   Every intent of every run is answered: by one order with exactly its terms or by a recorded refusal, never by
   both, and nothing else is ever ordered or refused.
   */
  lemma {:induction false} EveryIntentIsAnswered(env: Env, strategy: Strategy, k: nat, s: State)
    requires Reached(env, strategy, k, s)
    ensures |s.decisions| == k && AllAnswered(env, s)
  {
    hide Run, AllAnswered, Answers, BeforeDecision, AcceptIntents, SameClose, CheckCandle, Inv;
    ReachedKeeps(env, strategy, k, s);
    if k == 0 {
      StartIsAnswered(env, strategy, s);
    } else {
      var parts := LastCandle(env, strategy, k, s);
      PartsKeep(env, strategy, k, s, parts);
      EveryIntentIsAnswered(env, strategy, k - 1, parts.start);
      var candle := env.candles[k - 1];
      BeforeDecisionKeepsTerms(env, parts.start, k - 1, candle);
      TermsKeepAnswers(env, parts.start, parts.before.state);
      AcceptanceAnswers(env, parts.decided, parts.intents, k - 1);
      assert Injective(env.digest);
      DecisionKeepsAnswers(env, parts.before.state, parts.intents, k - 1, candle, parts.accepted);
      SameCloseKeepsTerms(env, parts.accepted.state, parts.accepted.accepted, k - 1, candle, parts.before.consumed);
      TermsKeepAnswers(env, parts.accepted.state, parts.closed.state);
      AdvanceKeepsAnswers(env, parts.closed.state, k - 1, candle);
    }
  }

  lemma AdvanceKeepsAnswers(env: Env, s: State, index: int, candle: Candle)
    requires AllAnswered(env, s)
    ensures AllAnswered(env, Advance(s, index, candle))
  {
    var t := Advance(s, index, candle);
    assert TermsKept(s, t);
    TermsKeepAnswers(env, s, t);
  }

  lemma StartIsAnswered(env: Env, strategy: Strategy, s: State)
    requires Reached(env, strategy, 0, s)
    ensures AllAnswered(env, s)
  {
  }
}
