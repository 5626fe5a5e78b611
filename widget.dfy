/** The page-level state of the widget: the two ambient variables of the
    failover logic and the text the page shows, updated in place by each
    attempt; and the copy button's handler, which reads that text. */
module Widget {
  import opened Optional
  import opened JsText
  import opened Quotes
  import opened Share
  import opened Failover

  /** What the page shows: the quote line and whether it carries the `loading`
      class, the author line, and the share link's text before it is
      percent-encoded (None until the first quote is shown). */
  datatype View = View(quoteText: JsString, loading: bool, authorText: JsString, tweet: Option<JsString>)

  const LoadingText: JsString := Lit("Loading")

  const AuthorPrefix: JsString := Lit("- ")

  /** The start of every attempt: "Loading", the loading class, no author. */
  function ShowingLoading(v: View): (w: View)
    ensures w.loading && w.quoteText == LoadingText && w.authorText == [] && w.tweet == v.tweet
  {
    v.(quoteText := LoadingText, loading := true, authorText := [])
  }

  /** The page once the reply is in: the loading class is removed and, when the
      reply normalised, its text and `- <author>` are written before the share
      link is built. If building the link throws, they stay on the page. */
  function Written(v: View, data: Option<Quote>): (w: View)
    ensures !w.loading && w.tweet == v.tweet
    ensures data.None? ==> w == v.(loading := false)
    ensures data.Some? ==> w.quoteText == data.value.content && w.authorText == AuthorPrefix + data.value.author
  {
    match data
    case Some(q) => v.(quoteText := q.content, loading := false, authorText := AuthorPrefix + q.author)
    case None => v.(loading := false)
  }

  /** A quote on the page: its text, `- <author>`, and the share text built from both. */
  function QuoteView(q: Quote): (w: View)
    ensures !w.loading && w.quoteText == q.content && w.tweet == Some(TweetPayload(q.content, q.author))
    ensures |w.authorText| == |AuthorPrefix| + |q.author| &&
            w.authorText[..|AuthorPrefix|] == AuthorPrefix && w.authorText[|AuthorPrefix|..] == q.author
  {
    View(q.content, false, AuthorPrefix + q.author, Some(TweetPayload(q.content, q.author)))
  }

  /** The page after an attempt ends in `e`, with `table` the fallback quotes:
      a shown or fallback quote replaces everything; a retry shows the status
      message and leaves the rest. */
  function Render(v: View, e: Effect, table: seq<Quote>): (w: View)
    requires e.FellBack? ==> e.index < |table|
    ensures e.Shown? ==> w == QuoteView(e.quote)
    ensures e.FellBack? ==> w == QuoteView(table[e.index])
    ensures e.RetryScheduled? ==>
              w.quoteText == StatusMessage(e.nextSource) && !w.loading &&
              w.authorText == v.authorText && w.tweet == v.tweet
  {
    match e
    case Shown(q) => QuoteView(q)
    case FellBack(k) => QuoteView(table[k])
    case RetryScheduled(next) => v.(quoteText := StatusMessage(next), loading := false)
  }

  /** The page at the end of a chain that started from `before` and whose last
      attempt ended in `e`: the quote it shows, or the status message with the
      share link left as it was, since no retry rebuilds it. */
  predicate Settled(w: View, before: View, e: Effect, table: seq<Quote>) {
    match e
    case Shown(q) => w == QuoteView(q)
    case FellBack(k) => k < |table| && w == QuoteView(table[k])
    case RetryScheduled(next) => w.quoteText == StatusMessage(next) && !w.loading && w.tweet == before.tweet
  }

  /** Any attempt leaves the page settled on its effect, as long as the share
      link it started from is the chain's original one. */
  lemma RenderSettles(v: View, before: View, data: Option<Quote>, e: Effect, table: seq<Quote>)
    requires v.tweet == before.tweet && (e.FellBack? ==> e.index < |table|)
    ensures Settled(Render(Written(ShowingLoading(v), data), e, table), before, e, table)
  {
  }

  /** The page after the call chain of `attempts` from state `m` and page
      `v`, with `table` the fallback quotes: each attempt renders its effect,
      and a scheduled retry runs the next attempt on the page it left. */
  function ChainView(v: View, m: Machine, attempts: seq<Attempt>, table: seq<Quote>): View
    requires |table| == FallbackCount
    decreases |attempts|
  {
    if |attempts| == 0 then v
    else
      var s := Apply(m, attempts[0]);
      var page := Render(Written(ShowingLoading(v), Normalise(m.apiIndex, attempts[0].reply)), s.effect, table);
      if s.effect.RetryScheduled? then ChainView(page, s.next, attempts[1..], table) else page
  }

  /** Whatever the sources reply, a chain leaves the page settled on its last
      effect: the shown or fallback quote, or the status message of the
      retry it ended on with the share link it started from. */
  lemma ChainSettles(v: View, before: View, m: Machine, attempts: seq<Attempt>, table: seq<Quote>)
    requires |table| == FallbackCount && |attempts| > 0 && v.tweet == before.tweet
    ensures var effects := Chain(m, attempts);
            Settled(ChainView(v, m, attempts, table), before, effects[|effects| - 1], table)
  {
    FinalEffectEndsChain(m, attempts);
    SettlesOnFinalEffect(v, before, m, attempts, table);
  }

  lemma {:induction false} SettlesOnFinalEffect(v: View, before: View, m: Machine, attempts: seq<Attempt>, table: seq<Quote>)
    requires |table| == FallbackCount && |attempts| > 0 && v.tweet == before.tweet
    ensures Settled(ChainView(v, m, attempts, table), before, FinalEffect(m, attempts), table)
    decreases |attempts|
  {
    var s := Apply(m, attempts[0]);
    var data := Normalise(m.apiIndex, attempts[0].reply);
    var page := Render(Written(ShowingLoading(v), data), s.effect, table);
    if s.effect.RetryScheduled? && |attempts| > 1 {
      SettlesOnFinalEffect(page, before, s.next, attempts[1..], table);
    } else {
      RenderSettles(v, before, data, s.effect, table);
    }
  }

  /** What the copy button puts on the clipboard for the page `v`. */
  function Copy(v: View): Option<JsString> {
    CopyText(v.quoteText, v.authorText, v.loading)
  }

  /** While an attempt is in flight nothing can be copied. */
  lemma NoCopyWhileLoading(v: View)
    ensures Copy(ShowingLoading(v)) == None
  {
  }

  /** Once a quote is on the page, copying yields `"<text>" - <author>`, the
      same attribution the share text uses; a quote with empty text cannot be
      copied. */
  lemma CopyShownQuote(v: View, e: Effect, table: seq<Quote>)
    requires e.Shown? || (e.FellBack? && e.index < |table|)
    ensures var q := if e.Shown? then e.quote else table[e.index];
            q.content != [] ==> Copy(Render(v, e, table)) == Some(Lit("\"") + q.content + Lit("\" - ") + q.author)
    ensures var q := if e.Shown? then e.quote else table[e.index];
            q.content == [] ==> Copy(Render(v, e, table)) == None
  {
    var q := if e.Shown? then e.quote else table[e.index];
    assert Lit("\" ") + AuthorPrefix == Lit("\" - ");
    assert Lit("\"") + q.content + Lit("\" ") + (AuthorPrefix + q.author) ==
           Lit("\"") + q.content + (Lit("\" ") + AuthorPrefix) + q.author;
  }

  /** A fallback quote can always be copied, as `"<text>" - <author>` of the
      table entry that was picked. */
  lemma CopyFallback(v: View, draw: RandomDraw)
    ensures var e := FallbackPick(draw);
            e.index < |FallbackQuotes| &&
            Copy(Render(v, e, FallbackQuotes)) ==
              Some(Lit("\"") + FallbackQuotes[e.index].content + Lit("\" - ") + FallbackQuotes[e.index].author)
  {
    FallbackQuotesNonEmpty();
    CopyShownQuote(v, FallbackPick(draw), FallbackQuotes);
  }

  /** While a retry is pending the guard lets the status message through.
      After a reply that did not normalise the author line is empty; after a
      quote whose share link could not be encoded it still reads `- <author>`. */
  lemma CopyDuringRetry(v: View, data: Option<Quote>, next: nat)
    ensures data.None? ==>
              Copy(Render(Written(ShowingLoading(v), data), RetryScheduled(next), [])) ==
                Some(Lit("\"") + StatusMessage(next) + Lit("\" "))
    ensures data.Some? ==>
              Copy(Render(Written(ShowingLoading(v), data), RetryScheduled(next), [])) ==
                Some(Lit("\"") + StatusMessage(next) + Lit("\" ") + AuthorPrefix + data.value.author)
  {
    var msg := StatusMessage(next);
    assert msg != [];
    assert Lit("\"") + msg + Lit("\" ") + [] == Lit("\"") + msg + Lit("\" ");
    if data.Some? {
      assert Lit("\"") + msg + Lit("\" ") + (AuthorPrefix + data.value.author) ==
             Lit("\"") + msg + Lit("\" ") + AuthorPrefix + data.value.author;
    }
  }

  class QuoteWidget {
    var currentApiIndex: nat
    var apiFailures: nat
    var view: View
    /** `fallbackQuotes`, fixed when the page is loaded. */
    const fallbackQuotes: seq<Quote>

    function State(): Machine
      reads this
    {
      Machine(currentApiIndex, apiFailures)
    }

    ghost predicate Valid()
      reads this
    {
      Failover.Valid(State()) && |fallbackQuotes| == FallbackCount
    }

    /** The page as loaded: source 0, no failures, the built-in fallback
        table, whatever the markup shows. */
    constructor (initial: View)
      ensures Valid() && State() == Fresh && view == initial && fallbackQuotes == FallbackQuotes
    {
      FallbackQuotesNonEmpty();
      fallbackQuotes := FallbackQuotes;
      currentApiIndex := 0;
      apiFailures := 0;
      view := initial;
    }

    /** One run of `getRandomQuote`: show the loading state, normalise the
        selected source's reply and write it to the page, build the share link,
        and on failure count it and either fall back or select the other
        source and schedule a retry. */
    method GetRandomQuote(reply: Reply, fallbackDraw: RandomDraw) returns (effect: Effect)
      requires Valid()
      modifies this
      ensures Valid()
      ensures Step(State(), effect) == Transition(old(State()), reply, fallbackDraw)
      ensures view == Render(Written(ShowingLoading(old(view)), Normalise(old(currentApiIndex), reply)), effect, fallbackQuotes)
    {
      view := view.(quoteText := LoadingText, loading := true, authorText := []);
      var data := Normalise(currentApiIndex, reply);
      view := view.(loading := false);
      var shown := false;
      if data.Some? {
        var quote := data.value;
        view := view.(quoteText := quote.content, authorText := AuthorPrefix + quote.author);
        // encodeURIComponent throws on a payload that is not well-formed
        if Encodable(quote.content, quote.author) {
          view := view.(tweet := Some(TweetPayload(quote.content, quote.author)));
          effect := Shown(quote);
          shown := true;
        }
      }
      if !shown {
        apiFailures := apiFailures + 1;
        if apiFailures > ApiCount * MaxApiRetries {
          var randomIndex := RandomIndex(fallbackDraw, |fallbackQuotes|);
          view := QuoteView(fallbackQuotes[randomIndex]);
          effect := FellBack(randomIndex);
        } else {
          currentApiIndex := (currentApiIndex + 1) % ApiCount;
          view := view.(quoteText := StatusMessage(currentApiIndex));
          effect := RetryScheduled(currentApiIndex);
        }
      }
    }

    /** The copy button: the clipboard text, when copying is allowed. */
    method CopyQuote() returns (copied: Option<JsString>)
      ensures copied == Copy(view)
    {
      copied := Copy(view);
    }

    /** One attempt of a call chain: `getRandomQuote` run from the state the
        earlier attempts left, which extends both the chain and the page. */
    method ChainStep(ghost start: Machine, ghost origin: View, attempts: seq<Attempt>, i: nat, ghost effects: seq<Effect>)
      returns (effect: Effect)
      requires Valid() && i < |attempts| && State() == After(start, attempts[..i])
      requires Chain(start, attempts) == effects + Chain(State(), attempts[i..])
      requires ChainView(origin, start, attempts, fallbackQuotes) == ChainView(view, State(), attempts[i..], fallbackQuotes)
      modifies this
      ensures Valid() && State() == After(start, attempts[..i + 1])
      ensures effect.RetryScheduled? ==>
                Chain(start, attempts) == effects + [effect] + Chain(State(), attempts[i + 1..]) &&
                ChainView(origin, start, attempts, fallbackQuotes) == ChainView(view, State(), attempts[i + 1..], fallbackQuotes)
      ensures !effect.RetryScheduled? ==>
                Chain(start, attempts) == effects + [effect] && view == ChainView(origin, start, attempts, fallbackQuotes)
    {
      ghost var before := State();
      assert attempts[i..][0] == attempts[i] && attempts[i..][1..] == attempts[i + 1..];
      effect := GetRandomQuote(attempts[i].reply, attempts[i].fallbackDraw);
      ChainAdvance(start, attempts, i, effects, before, Step(State(), effect));
    }

    /** One click's call chain: `getRandomQuote` re-run after each scheduled
        retry, one attempt per element of `attempts`, until an attempt shows a
        quote or the attempts run out. */
    method RunChain(attempts: seq<Attempt>) returns (effects: seq<Effect>)
      requires Valid()
      modifies this
      ensures Valid()
      ensures effects == Chain(old(State()), attempts)
      ensures State() == After(old(State()), attempts[..|effects|])
      ensures view == ChainView(old(view), old(State()), attempts, fallbackQuotes)
    {
      ghost var start := State();
      effects := [];
      var i := 0;
      var done := false;
      while i < |attempts| && !done
        invariant 0 <= i <= |attempts| && |effects| == i
        invariant Valid()
        invariant State() == After(start, attempts[..i])
        invariant done ==> effects == Chain(start, attempts) && view == ChainView(old(view), start, attempts, fallbackQuotes)
        invariant !done ==> Chain(start, attempts) == effects + Chain(State(), attempts[i..])
        invariant !done ==> ChainView(old(view), start, attempts, fallbackQuotes) == ChainView(view, State(), attempts[i..], fallbackQuotes)
      {
        var effect := ChainStep(start, old(view), attempts, i, effects);
        effects := effects + [effect];
        i := i + 1;
        done := !effect.RetryScheduled?;
      }
    }
  }
}
