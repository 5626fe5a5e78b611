# Random quote widget: failover state machine and quote text

This project models the logic of the random-quote widget in `js/script.js`
and proves properties about it.

Each click, and the page load, runs `getRandomQuote`. It asks one of two
remote quote sources (`currentApiIndex`, 0 or 1) for a quote. When an
attempt fails it increments `apiFailures`, a counter that nothing ever
resets. If the counter is then above `apiOptions.length * maxApiRetries`
(2 × 2 = 4), the widget shows a quote from the built-in `fallbackQuotes`
table. Otherwise it switches to the other source, shows a status message
and runs again 1500 ms later. A successful attempt, or a fallback,
displays the quote and its author and builds the share text: the quote,
cut to 240 UTF-16 code units with `...` if it is longer, followed by the
author. For a fetched quote that text is percent-encoded inside the
`try` block, so a quote or author that `encodeURIComponent` rejects (one
holding a lone surrogate) makes the attempt a failure, with the quote
already on the page. A fallback quote's share text is built in the
`catch` block; the fallback quotes hold no surrogates, so it always encodes. The copy
button copies `"<quote>" - <author>`, but only when a quote line is
present and no attempt is loading.

Modules:

- `JsText` (jstext.dfy): JavaScript strings as sequences of UTF-16 code
  units; well-formed UTF-16; decimal formatting as a template literal
  prints a number.
- `Quotes` (quotes.dfy): the quote record, the fallback table, the
  `Math.floor(Math.random() * n)` pick, the two providers' replies and
  how each is normalised.
- `Share` (share.dfy): the share-text truncation (as written and
  corrected), the share payload and the clipboard text.
- `Failover` (failover.dfy): the failover state machine as pure
  functions. `Transition` covers one attempt; `After` and `Chain` cover a
  lifetime of attempts and one click's retry chain. The lemmas about them
  are here too.
- `Widget` (widget.dfy): what the page shows. The class `QuoteWidget`
  holds `currentApiIndex`, `apiFailures`, the view and the fallback table,
  and gets updated in place. Its methods are proved against the `Failover`
  functions and against `ChainView`, the page after a call chain.
- `Optional` (optional.dfy): an option type.

How the environment is abstracted:

- **Network.** Each attempt's network result is a `Reply`: `Failed`, or
  the body of the first provider (`Quotable`), or the list of the second
  provider (`TypeFit`).
- **Randomness.** `Math.random()` is a `RandomDraw`, an exact real number
  in [0, 1). It arrives with the second provider's list, or as a separate
  argument for the fallback pick.
- **Retry timer.** The `setTimeout` retry becomes the next loop iteration
  in `QuoteWidget.RunChain`.

## Model

| member | source | states |
|---|---|---|
| `JsText.DecimalString` | js/script.js:161-163 | the number in the status message is printed as a non-empty run of decimal digits, and is one digit exactly when it is below 10 |
| `JsText.DecimalRoundTrip` | js/script.js:161-163 | reading the printed digits back gives the number that was printed |
| `Quotes.FallbackQuotesNonEmpty` | js/script.js:18-52 | the fallback table has 7 quotes; each has non-empty text and author |
| `Quotes.RandomIndex` | js/script.js:134 | `Math.floor(Math.random() * n)` lies in [0, n) for a non-empty list and is 0 for an empty one |
| `Quotes.AuthorOrUnknown` | js/script.js:100 | the author is `"Unknown"` exactly when the provider's author is missing, empty or literally `"Unknown"`; a non-empty author is kept |
| `Quotes.Normalise` | js/script.js:69-102 | source 0 succeeds exactly on its object reply and copies `content`/`author` unchanged; any other index succeeds exactly on a non-empty list and yields some entry's `text` with the defaulted author; everything else is a failure |
| `Quotes.TypeFitPick` | js/script.js:93-101 | on a non-empty list the second source returns the entry at `Math.floor(draw * length)` |
| `Share.TweetTextAsWritten` | js/script.js:172-179 | the share text has at most 240 units; a quote of at most 240 units is unchanged; a longer one becomes its first 237 units followed by `...`, 240 in total |
| `Share.AsWrittenKeepsWellFormedIff` | js/script.js:177-183 | for a well-formed quote over 240 units, the as-written share text is well-formed exactly when unit 236 is not a high surrogate |
| `Share.AsWrittenSplitsSurrogatePair` | js/script.js:177-183 | a concrete well-formed 248-unit quote whose as-written share text ends in a lone surrogate |
| `Share.TweetText` | js/script.js:172-179 | the corrected share text has at most 240 units; a short quote is unchanged; a long quote becomes a prefix of itself plus `...`, at least 239 units long; it equals the as-written text unless a surrogate pair would be split |
| `Share.TweetTextKeepsWellFormed` | js/script.js:177-183 | the corrected share text of well-formed text is well-formed, so percent-encoding it cannot fail |
| `Share.TweetPayload` | js/script.js:182-184 | the text that is encoded is `"` + share text + `" - ` + author, laid out position by position |
| `Share.EncodableIff` | js/script.js:182-183 | `encodeURIComponent` accepts the payload exactly when the share text and the author are both well-formed UTF-16 |
| `Share.WellFormedQuoteEncodable` | js/script.js:172-183 | with the corrected truncation, a well-formed quote and author always encode |
| `Share.TweetPayloadAsWritten` | js/script.js:172-184 | the payload of line 183 is `"` + as-written share text + `" - ` + author, position by position; it is well-formed exactly when that share text and the author are; for a quote of at most 240 units it is the corrected payload |
| `Share.EncodableAsWrittenAgrees` | js/script.js:172-183 | the as-written and corrected payloads encode alike unless line 178 would cut inside a surrogate pair; then the as-written payload never encodes |
| `Share.AsWrittenPayloadRejectsWellFormedQuote` | js/script.js:172-183 | for a well-formed 248-unit quote, the as-written payload is not well-formed, so `encodeURIComponent` throws, while the corrected payload encodes |
| `Share.CopyText` | js/script.js:189-193 | clipboard text is produced exactly when the quote line is non-empty and not loading; it is `"` + quote line + `" ` + author line |
| `Failover.StatusMessage` | js/script.js:161-163 | the status begins `Trying alternative API source... (`; for a source index below 9 it is followed by one digit, the index plus one, and then `/2)` |
| `Failover.Fetched` | js/script.js:119-125 | with the corrected truncation, an attempt yields a quote exactly when the reply normalises and the share payload built from it can be encoded (`updateTweetButton` runs inside the same `try`); the quote is then the normalised one |
| `Failover.FetchedWellFormed` | js/script.js:119-125 | with the corrected truncation, when the provider's text and author are well-formed UTF-16, the attempt succeeds exactly when the reply normalises |
| `Failover.FetchedAsWritten` | js/script.js:119-125 | as written, an attempt yields a quote exactly when the reply normalises and the payload of line 183 can be encoded; the quote is then the normalised one |
| `Failover.AsWrittenTransitionAgrees` | js/script.js:119-183 | the attempt as written equals the corrected `Transition` unless the normalised quote would be cut inside a surrogate pair; such a quote, as written, is never shown and counts as one failure |
| `Failover.AsWrittenSplitPairRetried` | js/script.js:119-166 | as written, the well-formed 248-unit quote of the Findings row normalises, yet from the initial state the attempt counts as a failure: counter 1, source 1, retry scheduled |
| `Failover.Transition` | js/script.js:125-167 | success (the reply normalises and its payload encodes) shows that quote and leaves index and counter unchanged; a failure increments the counter exactly once; the fallback is used exactly when a failure takes the counter above 4, and it is then the pick of the given `Math.random()` value, an index in [0, 7), with the source kept; any other failure sets the index to `(i + 1) % 2` and schedules a retry at it; the index stays in {0, 1} |
| `Failover.LoneSurrogateCountsAsFailure` | js/script.js:119-166 | a quote whose text is a lone low surrogate normalises, yet from the initial state the attempt is counted as a failure: counter 1, source 1, retry scheduled |
| `Failover.SplitPairQuoteShown` | js/script.js:119-125 | with the corrected truncation, the well-formed quote that the as-written cut breaks is shown from the initial state and nothing is counted |
| `Failover.FallbackPick` | js/script.js:134-135 | the fallback effect names an index of the 7-entry table |
| `Failover.AfterAppend` | js/script.js:166 | one more attempt at the end of a run is one more transition from the state the run reached |
| `Failover.FailuresNeverDecrease` | js/script.js:55-56 | over any run of attempts the counter never goes down, and the source index stays valid |
| `Failover.DegradedForever` | js/script.js:129-132 | once the counter has reached 4, every later failure in the page's lifetime goes straight to a fallback quote |
| `Failover.Chain` | js/script.js:166 | every attempt of a call chain except the last schedules a retry; a chain that stops before the attempts run out ends in a shown or fallback quote |
| `Failover.ChainAdvance` | js/script.js:166 | running one more attempt of a chain extends its effects and its end state consistently |
| `Failover.ChainWithinBudget` | js/script.js:129-166 | whatever the sources reply, a call chain makes at most `max(1, 5 - failures)` attempts, so at most five from a fresh page |
| `Failover.PermanentOutage` | js/script.js:125-166 | with both sources down, a chain makes exactly `max(1, 5 - failures)` attempts; the ones before the last alternate the sources, and the last shows a fallback quote from the table |
| `Failover.FreshOutage` | js/script.js:15-166 | from the initial state `(0, 0)`, with both sources down, attempts 1 to 4 retry at sources 1, 0, 1, 0 and the 5th shows a fallback quote |
| `Widget.ShowingLoading` | js/script.js:62-64 | an attempt starts with `Loading` in the quote line, the loading class set and an empty author line; the share text is kept |
| `Widget.Written` | js/script.js:104-121 | once the reply is in, the loading class is cleared; a normalised quote puts its text in the quote line and `- ` + author in the author line; the share text is not touched yet |
| `Widget.QuoteView` | js/script.js:119-124 | a displayed quote puts its text in the quote line and `- ` + author in the author line, clears the loading class and rebuilds the share text |
| `Widget.Render` | js/script.js:119-163 | a shown quote, or the fallback table's entry at the picked index, replaces the view; a retry shows the status message for the newly selected source and keeps the author line and share text |
| `Widget.ChainSettles` | js/script.js:119-166 | whatever the replies, after a call chain the page shows the quote of its last effect, or the status message of its last retry with the share link it had before the chain |
| `Widget.NoCopyWhileLoading` | js/script.js:191 | nothing can be copied while an attempt is in flight |
| `Widget.CopyShownQuote` | js/script.js:119-193 | after a shown or fallback quote, copying yields `"<text>" - <author>`, or nothing when the text is empty |
| `Widget.CopyFallback` | js/script.js:149-193 | after a fallback, the copy always succeeds and is `"<text>" - <author>` of the picked table entry |
| `Widget.CopyDuringRetry` | js/script.js:161-193 | while a retry is pending the guard lets the status message through; the author line is empty after a reply that did not normalise, and still `- <author>` after a quote whose payload could not be encoded |
| `Widget.QuoteWidget.constructor` | js/script.js:15-55 | the page starts at source 0 with no failures and the built-in fallback table |
| `Widget.QuoteWidget.GetRandomQuote` | js/script.js:59-169 | the new index and counter and the effect are exactly `Transition` of the old state; the view is that effect rendered over the page as the reply left it, so a quote that cannot be encoded stays in the author line under the status message |
| `Widget.QuoteWidget.CopyQuote` | js/script.js:189-194 | returns the clipboard text of the current view, or nothing when the guard refuses |
| `Widget.QuoteWidget.RunChain` | js/script.js:166 | repeated attempts produce exactly `Chain` of the initial state; the final state is `After` the attempts used; the page is `ChainView` of the initial page, which `ChainSettles` shows settled on the last effect |

## Left out

- DOM access, the `loading` and `quote-change` classes beyond the loading flag, and the reflow trick (lines 2-6, 105-117, 138-147): presentation only.
- `fetch` and `response.json()`: abstracted as `Reply`. A rejected fetch, a response that is not ok, or a body that does not decode is `Failed`.
- Provider fields are modelled as strings. The second provider's author is optional. An `undefined` quote text is not modelled.
- A body of the other provider's shape is modelled as a failed attempt, matching the TypeError the code then throws. Two effects of the code are not modelled: a list reaching source 0 first writes `- undefined` into the author line, and it is its `undefined.length` at line 177 that throws.
- `Math.random()`: modelled as an exact real in [0, 1). Floating-point rounding of `draw * n` is not modelled.
- The 1500 ms `setTimeout` delay: a retry is simply the next attempt. Chains started by overlapping clicks, which interleave in the browser, are not modelled. `RunChain` runs one chain alone.
- Event listeners (lines 216-220): the constructor followed by `RunChain` stands for the page load and for a click.
- `encodeURIComponent`: the percent-encoding itself is not modelled. The condition under which it throws, a payload that is not well-formed UTF-16, is modelled as `Share.Encodable`, and `Failover.Fetched` (corrected) and `Failover.FetchedAsWritten` count such an attempt as a failure. The payload built for a fallback quote at line 153 always encodes, since the table holds no surrogates, so no throw outside the `try` is modelled.
- `navigator.clipboard.writeText`, its success colour and reset timer, `alert` and `console.*`: browser calls outside the logic.
- `apiFailures` is an unbounded natural number. JavaScript's loss of integer precision above 2^53 is not modelled.
- The failure counter counts every failure over the page's lifetime, as js/script.js does, not only consecutive ones. A quote with empty text is possible; the copy guard then refuses it.
- `Share.TweetPayload`: built from the corrected truncation `Share.TweetText`, not the as-written one (see Findings).
- `Widget.QuoteView`: its share text is `Share.TweetPayload`, so it uses the corrected truncation.
- `Widget.QuoteWidget.GetRandomQuote`: builds the share text, and decides whether it encodes, with the corrected truncation (see Findings).
- `Failover.Fetched`: tests whether the payload encodes with the corrected truncation, so it accepts the quote of the Findings row, which js/script.js counts as a failure; the as-written test is `Failover.FetchedAsWritten`, and `Failover.AsWrittenTransitionAgrees` bounds where the two differ.
- `Failover.FetchedWellFormed`: holds with the corrected truncation only; as written, a well-formed quote that would be cut inside a surrogate pair still fails (`Failover.AsWrittenSplitPairRetried`).
- `Failover.Transition`: decides success with the corrected payload, so the quote of the Findings row is shown rather than counted as a failure (`Failover.SplitPairQuoteShown`); the attempt as written is `Failover.TransitionAsWritten`.

## Findings

| source | as written | input that shows it | evidently intended | confidence | as-written member | corrected member |
|---|---|---|---|---|---|---|
| js/script.js:177-183 | `quote.substring(0, maxLength - 3) + "..."` cuts at code unit 237, so it can keep only the first half of a surrogate pair. `encodeURIComponent` then throws a URIError inside `getRandomQuote`'s `try`, and a quote that was fetched successfully is counted as a source failure and retried, even though it is well-formed | a quote of 236 × `a`, then U+1F600 (units 0xD83D 0xDE00), then 10 × `a`: 248 units | shorten by whole characters, for instance by cutting at 236 when unit 236 is a high surrogate, so that the share text stays well-formed | not executed | `Failover.AsWrittenSplitPairRetried` | `Share.TweetTextKeepsWellFormed` |
