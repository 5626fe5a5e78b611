/** The source-failover state machine of `getRandomQuote`, as pure functions:
    the state is the selected source and the lifetime failure count. */
module Failover {
  import opened Optional
  import opened JsText
  import opened Quotes
  import opened Share

  /** `apiOptions.length`. */
  const ApiCount: nat := 2

  /** `maxApiRetries`. */
  const MaxApiRetries: nat := 2

  /** A failure that takes the count above this shows a fallback quote. */
  const FallbackThreshold: nat := ApiCount * MaxApiRetries

  /** `currentApiIndex` and `apiFailures`. */
  datatype Machine = Machine(apiIndex: nat, failures: nat)

  /** The state when the page is loaded. */
  const Fresh: Machine := Machine(0, 0)

  predicate Valid(m: Machine) { m.apiIndex < ApiCount }

  /** What one attempt ends in: a quote from the selected source, the fallback
      quote at `index` of the built-in table, or a retry 1500 ms later at the
      newly selected source, announced by `StatusMessage(nextSource)`. */
  datatype Effect =
    | Shown(quote: Quote)
    | FellBack(index: nat)
    | RetryScheduled(nextSource: nat)

  datatype Step = Step(next: Machine, effect: Effect)

  const StatusPrefix: JsString := Lit("Trying alternative API source... (")

  /** `Trying alternative API source... (<apiIndex + 1>/<apiOptions.length>)`. */
  function StatusMessage(apiIndex: nat): (msg: JsString)
    ensures |msg| >= |StatusPrefix| + 4 && msg[..|StatusPrefix|] == StatusPrefix
    ensures apiIndex + 1 < 10 ==> msg == StatusPrefix + [Digit(apiIndex + 1)] + Lit("/2)")
  {
    var msg := StatusPrefix + DecimalString(apiIndex + 1) + Lit("/") + DecimalString(ApiCount) + Lit(")");
    assert Lit("/") + DecimalString(ApiCount) + Lit(")") == Lit("/2)");
    msg
  }

  /** The fallback effect for a given `Math.random()` value: an index into the
      table of `FallbackCount` quotes. */
  function FallbackPick(draw: RandomDraw): (e: Effect)
    ensures e.FellBack? && e.index < FallbackCount
  {
    FellBack(RandomIndex(draw, FallbackCount))
  }

  /** The quote an attempt at source `apiIndex` ends up showing, or None when
      the attempt fails: the reply must normalise, and the share payload built
      from it must encode, since `updateTweetButton` runs inside the same `try`. */
  function Fetched(apiIndex: nat, reply: Reply): (q: Option<Quote>)
    ensures q.Some? <==> Normalise(apiIndex, reply).Some? && Encodable(Normalise(apiIndex, reply).value.content, Normalise(apiIndex, reply).value.author)
    ensures q.Some? ==> q == Normalise(apiIndex, reply)
  {
    match Normalise(apiIndex, reply)
    case Some(q) => if Encodable(q.content, q.author) then Some(q) else None
    case None => None
  }

  /** Provider text that is well-formed UTF-16 never trips the encoder: the
      attempt then succeeds exactly when the reply normalises. */
  lemma FetchedWellFormed(apiIndex: nat, reply: Reply)
    requires Normalise(apiIndex, reply).Some? ==>
               WellFormed(Normalise(apiIndex, reply).value.content) && WellFormed(Normalise(apiIndex, reply).value.author)
    ensures Fetched(apiIndex, reply) == Normalise(apiIndex, reply)
  {
    if Normalise(apiIndex, reply).Some? {
      var q := Normalise(apiIndex, reply).value;
      WellFormedQuoteEncodable(q.content, q.author);
    }
  }

  /** One attempt of `getRandomQuote` from state `m`, given what the selected
      source replied and the `Math.random()` value the fallback pick would use. */
  function Transition(m: Machine, reply: Reply, fallbackDraw: RandomDraw): (s: Step)
    // a success shows the quote and changes nothing, the counter included
    ensures Fetched(m.apiIndex, reply).Some? ==>
              s.next == m && s.effect == Shown(Fetched(m.apiIndex, reply).value)
    // a failure counts exactly once
    ensures Fetched(m.apiIndex, reply).None? ==> s.next.failures == m.failures + 1
    // the fallback is used exactly when a failure takes the count above the threshold
    ensures s.effect.FellBack? <==>
              Fetched(m.apiIndex, reply).None? && m.failures + 1 > FallbackThreshold
    ensures s.effect.FellBack? ==>
              s.effect == FallbackPick(fallbackDraw) && s.effect.index < FallbackCount &&
              s.next.apiIndex == m.apiIndex
    // a failure at or below the threshold selects the other source and schedules a retry at it
    ensures Fetched(m.apiIndex, reply).None? && m.failures + 1 <= FallbackThreshold ==>
              s.next.apiIndex == (m.apiIndex + 1) % ApiCount && s.effect == RetryScheduled(s.next.apiIndex)
    ensures Valid(m) ==> Valid(s.next)
  {
    Outcome(m, Fetched(m.apiIndex, reply), fallbackDraw)
  }

  /** The `try` succeeding with `fetched`, or the `catch` when it is None. */
  function Outcome(m: Machine, fetched: Option<Quote>, fallbackDraw: RandomDraw): Step {
    match fetched
    case Some(quote) => Step(m, Shown(quote))
    case None =>
      var failures := m.failures + 1;
      if failures > FallbackThreshold then
        Step(Machine(m.apiIndex, failures), FallbackPick(fallbackDraw))
      else
        var next := (m.apiIndex + 1) % ApiCount;
        Step(Machine(next, failures), RetryScheduled(next))
  }

  /** `Fetched` with the payload of line 183 as written. */
  function FetchedAsWritten(apiIndex: nat, reply: Reply): (q: Option<Quote>)
    ensures q.Some? <==>
              Normalise(apiIndex, reply).Some? &&
              EncodableAsWritten(Normalise(apiIndex, reply).value.content, Normalise(apiIndex, reply).value.author)
    ensures q.Some? ==> q == Normalise(apiIndex, reply)
  {
    match Normalise(apiIndex, reply)
    case Some(q) => if EncodableAsWritten(q.content, q.author) then Some(q) else None
    case None => None
  }

  /** One attempt of `getRandomQuote` as written, with the truncation of line 178. */
  function TransitionAsWritten(m: Machine, reply: Reply, fallbackDraw: RandomDraw): Step {
    Outcome(m, FetchedAsWritten(m.apiIndex, reply), fallbackDraw)
  }

  /** The attempt as written and the corrected one differ only on a quote that
      the cut would split inside a surrogate pair; as written, such a quote is
      always counted as a failure. */
  lemma AsWrittenTransitionAgrees(m: Machine, reply: Reply, fallbackDraw: RandomDraw)
    ensures (Normalise(m.apiIndex, reply).None? || !SplitsPair(Normalise(m.apiIndex, reply).value.content)) ==>
              TransitionAsWritten(m, reply, fallbackDraw) == Transition(m, reply, fallbackDraw)
    ensures Normalise(m.apiIndex, reply).Some? && SplitsPair(Normalise(m.apiIndex, reply).value.content) ==>
              !TransitionAsWritten(m, reply, fallbackDraw).effect.Shown? &&
              TransitionAsWritten(m, reply, fallbackDraw).next.failures == m.failures + 1
  {
    if Normalise(m.apiIndex, reply).Some? {
      var q := Normalise(m.apiIndex, reply).value;
      EncodableAsWrittenAgrees(q.content, q.author);
    }
  }

  /** As written, the well-formed quote of the split pair is counted as a
      failure: from a fresh page the other source is selected and retried. */
  lemma AsWrittenSplitPairRetried(draw: RandomDraw)
    ensures Normalise(0, Quotable(SplitPairQuote, Lit("A"))) == Some(Quote(SplitPairQuote, Lit("A")))
    ensures TransitionAsWritten(Fresh, Quotable(SplitPairQuote, Lit("A")), draw) == Step(Machine(1, 1), RetryScheduled(1))
  {
    AsWrittenPayloadRejectsWellFormedQuote();
  }

  /** A quote whose text is a lone low surrogate reaches the page but cannot be
      encoded for the share link: from a fresh page the attempt is counted as
      a failure and the other source is tried. */
  lemma LoneSurrogateCountsAsFailure(author: JsString, draw: RandomDraw)
    ensures Normalise(0, Quotable([0xDC00], author)) == Some(Quote([0xDC00], author))
    ensures Transition(Fresh, Quotable([0xDC00], author), draw) == Step(Machine(1, 1), RetryScheduled(1))
  {
    var p := TweetPayload([0xDC00], author);
    assert p[1] == 0xDC00 && p[0] == Lit("\"")[0];
    assert !Encodable([0xDC00], author);
  }

  /** With the corrected truncation, the well-formed quote whose pair the
      as-written cut splits is shown, and nothing is counted as a failure. */
  lemma SplitPairQuoteShown(draw: RandomDraw)
    ensures Transition(Fresh, Quotable(SplitPairQuote, Lit("A")), draw) ==
              Step(Fresh, Shown(Quote(SplitPairQuote, Lit("A"))))
  {
    AsWrittenPayloadRejectsWellFormedQuote();
  }

  /** The environment's side of one attempt. */
  datatype Attempt = Attempt(reply: Reply, fallbackDraw: RandomDraw)

  function Apply(m: Machine, a: Attempt): Step {
    Transition(m, a.reply, a.fallbackDraw)
  }

  /** The state after a run of attempts, over the page's whole lifetime (across
      clicks as well as retries: nothing resets the state). */
  function After(m: Machine, attempts: seq<Attempt>): Machine
    decreases |attempts|
  {
    if |attempts| == 0 then m else After(Apply(m, attempts[0]).next, attempts[1..])
  }

  lemma {:induction false} AfterAppend(m: Machine, attempts: seq<Attempt>, a: Attempt)
    ensures After(m, attempts + [a]) == Apply(After(m, attempts), a).next
    decreases |attempts|
  {
    if |attempts| > 0 {
      assert (attempts + [a])[1..] == attempts[1..] + [a];
      AfterAppend(Apply(m, attempts[0]).next, attempts[1..], a);
    }
  }

  /** Over any run the failure count never goes down and the selected source
      stays one of the two. */
  lemma {:induction false} FailuresNeverDecrease(m: Machine, attempts: seq<Attempt>)
    ensures After(m, attempts).failures >= m.failures
    ensures Valid(m) ==> Valid(After(m, attempts))
    decreases |attempts|
  {
    if |attempts| > 0 {
      FailuresNeverDecrease(Apply(m, attempts[0]).next, attempts[1..]);
    }
  }

  /** Once the count has reached the threshold, every later failure, in this
      call chain or any later one, goes straight to a fallback quote. */
  lemma DegradedForever(m: Machine, attempts: seq<Attempt>, k: nat)
    requires m.failures >= FallbackThreshold && k < |attempts|
    requires Fetched(After(m, attempts[..k]).apiIndex, attempts[k].reply).None?
    ensures Apply(After(m, attempts[..k]), attempts[k]).effect.FellBack?
  {
    FailuresNeverDecrease(m, attempts[..k]);
  }

  /** The attempts of one `getRandomQuote` call chain: each attempt that
      schedules a retry is followed by the next, and the chain ends with the
      first attempt that shows a quote (or when the attempts run out). */
  function Chain(m: Machine, attempts: seq<Attempt>): (effects: seq<Effect>)
    ensures |effects| <= |attempts|
    ensures |attempts| > 0 ==> |effects| > 0
    ensures forall k | 0 <= k < |effects| - 1 :: effects[k].RetryScheduled?
    ensures 0 < |effects| < |attempts| ==> !effects[|effects| - 1].RetryScheduled?
    decreases |attempts|
  {
    if |attempts| == 0 then []
    else
      var s := Apply(m, attempts[0]);
      if s.effect.RetryScheduled? then [s.effect] + Chain(s.next, attempts[1..]) else [s.effect]
  }

  /** The first attempt of a chain, and what follows it. */
  lemma ChainUnfold(m: Machine, attempts: seq<Attempt>)
    requires |attempts| > 0
    ensures var s := Apply(m, attempts[0]);
            Chain(m, attempts) == if s.effect.RetryScheduled? then [s.effect] + Chain(s.next, attempts[1..]) else [s.effect]
  {
  }

  /** The effect a call chain ends on. */
  function FinalEffect(m: Machine, attempts: seq<Attempt>): Effect
    requires |attempts| > 0
    decreases |attempts|
  {
    var s := Apply(m, attempts[0]);
    if s.effect.RetryScheduled? && |attempts| > 1 then FinalEffect(s.next, attempts[1..]) else s.effect
  }

  /** `FinalEffect` is the last effect of the chain. */
  lemma {:induction false} FinalEffectEndsChain(m: Machine, attempts: seq<Attempt>)
    requires |attempts| > 0
    ensures var effects := Chain(m, attempts); effects[|effects| - 1] == FinalEffect(m, attempts)
    decreases |attempts|
  {
    var s := Apply(m, attempts[0]);
    if s.effect.RetryScheduled? && |attempts| > 1 {
      FinalEffectEndsChain(s.next, attempts[1..]);
      var rest := Chain(s.next, attempts[1..]);
      assert Chain(m, attempts) == [s.effect] + rest;
    }
  }

  lemma PrefixExtends(attempts: seq<Attempt>, i: nat)
    requires i < |attempts|
    ensures attempts[..i + 1] == attempts[..i] + [attempts[i]]
  {
  }

  /** One more attempt of a chain keeps the chain's loop invariant. */
  lemma ChainAdvance(start: Machine, attempts: seq<Attempt>, i: nat, effects: seq<Effect>, before: Machine, s: Step)
    requires i < |attempts| && before == After(start, attempts[..i])
    requires Chain(start, attempts) == effects + Chain(before, attempts[i..])
    requires s == Apply(before, attempts[i])
    ensures s.next == After(start, attempts[..i + 1])
    ensures s.effect.RetryScheduled? ==>
              Chain(start, attempts) == effects + [s.effect] + Chain(s.next, attempts[i + 1..])
    ensures !s.effect.RetryScheduled? ==> Chain(start, attempts) == effects + [s.effect]
  {
    PrefixExtends(attempts, i);
    AfterAppend(start, attempts[..i], attempts[i]);
    assert attempts[i..][0] == attempts[i] && attempts[i..][1..] == attempts[i + 1..];
    ChainUnfold(before, attempts[i..]);
  }

  /** How many attempts a chain may still take from `m` before it must stop. */
  function Budget(m: Machine): nat {
    if m.failures >= FallbackThreshold then 1 else FallbackThreshold + 1 - m.failures
  }

  /** No call chain makes more than `Budget(m)` attempts, whatever the sources
      reply: from a fresh page at most five. */
  lemma {:induction false} ChainWithinBudget(m: Machine, attempts: seq<Attempt>)
    ensures |Chain(m, attempts)| <= Budget(m)
    decreases |attempts|
  {
    if |attempts| > 0 {
      var s := Apply(m, attempts[0]);
      if s.effect.RetryScheduled? {
        ChainWithinBudget(s.next, attempts[1..]);
      }
    }
  }

  predicate AllFail(attempts: seq<Attempt>) {
    forall k | 0 <= k < |attempts| :: attempts[k].reply == Failed
  }

  /** A failed attempt, spelled out: below the threshold it selects the other
      source and schedules a retry, at the threshold it falls back. */
  lemma FailedAttempt(m: Machine, a: Attempt)
    requires Fetched(m.apiIndex, a.reply).None?
    ensures m.failures < FallbackThreshold ==>
              Apply(m, a) == Step(Machine((m.apiIndex + 1) % ApiCount, m.failures + 1),
                                  RetryScheduled((m.apiIndex + 1) % ApiCount))
    ensures m.failures >= FallbackThreshold ==>
              Apply(m, a) == Step(Machine(m.apiIndex, m.failures + 1), FallbackPick(a.fallbackDraw))
  {
  }

  /** With both sources down, a first attempt below the threshold retries at
      the other source, and the rest of the attempts still all fail. */
  lemma OutageRetry(m: Machine, attempts: seq<Attempt>)
    requires AllFail(attempts) && |attempts| > 0 && m.failures < FallbackThreshold
    ensures var next := Machine((m.apiIndex + 1) % ApiCount, m.failures + 1);
            Chain(m, attempts) == [RetryScheduled(next.apiIndex)] + Chain(next, attempts[1..]) &&
            AllFail(attempts[1..]) && Budget(next) + 1 == Budget(m)
  {
    FailedAttempt(m, attempts[0]);
    var tail := attempts[1..];
    forall k | 0 <= k < |tail| ensures tail[k].reply == Failed {
      assert tail[k] == attempts[k + 1];
    }
  }

  /** With both sources down, a first attempt at or above the threshold ends
      the chain with a fallback quote. */
  lemma OutageFallback(m: Machine, attempts: seq<Attempt>)
    requires AllFail(attempts) && |attempts| > 0 && m.failures >= FallbackThreshold
    ensures Chain(m, attempts) == [FallbackPick(attempts[0].fallbackDraw)]
  {
    FailedAttempt(m, attempts[0]);
  }

  lemma RotateThenShift(a: nat, k: nat)
    ensures ((a + 1) % ApiCount + k) % ApiCount == (a + k + 1) % ApiCount
  {
  }

  /** With both sources down, a chain takes exactly `Budget(m)` attempts: the
      ones before the last alternate the sources, and the last shows a fallback
      quote. */
  lemma {:induction false} PermanentOutage(m: Machine, attempts: seq<Attempt>)
    requires AllFail(attempts) && |attempts| >= Budget(m)
    ensures var effects := Chain(m, attempts);
            |effects| == Budget(m) &&
            (forall k | 0 <= k < |effects| - 1 ::
               effects[k] == RetryScheduled((m.apiIndex + k + 1) % ApiCount)) &&
            effects[|effects| - 1] == FallbackPick(attempts[|effects| - 1].fallbackDraw)
    decreases |attempts|
  {
    if m.failures < FallbackThreshold {
      var next := Machine((m.apiIndex + 1) % ApiCount, m.failures + 1);
      var tail := attempts[1..];
      OutageRetry(m, attempts);
      PermanentOutage(next, tail);
      var rest := Chain(next, tail);
      var effects := Chain(m, attempts);
      forall k | 0 < k < |effects| - 1
        ensures effects[k] == RetryScheduled((m.apiIndex + k + 1) % ApiCount)
      {
        assert effects[k] == rest[k - 1];
        RotateThenShift(m.apiIndex, k);
      }
      assert tail[|rest| - 1] == attempts[|effects| - 1];
    } else {
      OutageFallback(m, attempts);
    }
  }

  /** From a fresh page with both sources down: attempts 1 to 4 retry, naming
      source 2, 1, 2, 1, and the fifth shows a fallback quote from the table. */
  lemma FreshOutage(attempts: seq<Attempt>)
    requires AllFail(attempts) && |attempts| >= 5
    ensures var effects := Chain(Fresh, attempts);
            |effects| == 5 &&
            effects[..4] == [RetryScheduled(1), RetryScheduled(0), RetryScheduled(1), RetryScheduled(0)] &&
            effects[4] == FallbackPick(attempts[4].fallbackDraw)
  {
    PermanentOutage(Fresh, attempts);
  }
}
