/** The quote record the widget displays, the two providers' answers, the way
    each answer is turned into a quote, and the built-in fallback quotes. */
module Quotes {
  import opened Optional
  import opened JsText

  /** The app's quote: `{content, author}`. */
  datatype Quote = Quote(content: JsString, author: JsString)

  /** The built-in quotes shown once the remote sources are given up. */
  const FallbackQuotes: seq<Quote> := [
    Quote(Lit("Life is what happens when you're busy making other plans."), Lit("John Lennon")),
    Quote(Lit("The greatest glory in living lies not in never falling, but in rising every time we fall."),
          Lit("Nelson Mandela")),
    Quote(Lit("The way to get started is to quit talking and begin doing."), Lit("Walt Disney")),
    Quote(Lit("Your time is limited, so don't waste it living someone else's life."), Lit("Steve Jobs")),
    Quote(Lit("If life were predictable it would cease to be life, and be without flavor."),
          Lit("Eleanor Roosevelt")),
    Quote(Lit("If you look at what you have in life, you'll always have more. If you look at what you don't have in life, you'll never have enough."),
          Lit("Oprah Winfrey")),
    Quote(Lit("If you set your goals ridiculously high and it's a failure, you will fail above everyone else's success."),
          Lit("James Cameron"))
  ]

  /** `fallbackQuotes.length`, the range of the fallback pick. */
  const FallbackCount: nat := 7

  /** The table holds `FallbackCount` quotes, each with text and an author, so
      each can be copied. */
  lemma FallbackQuotesNonEmpty()
    ensures |FallbackQuotes| == FallbackCount
    ensures forall k | 0 <= k < |FallbackQuotes| :: FallbackQuotes[k].content != [] && FallbackQuotes[k].author != []
  {
  }

  /** A value of `Math.random()`: a number in [0, 1). */
  type RandomDraw = r: real | 0.0 <= r < 1.0

  /** `Math.floor(draw * n)`: the index the code picks from a list of length `n`.
      For an empty list it is 0, an index that is not in the list. */
  function RandomIndex(draw: RandomDraw, n: nat): (k: nat)
    ensures n > 0 ==> k < n
    ensures n == 0 ==> k == 0
  {
    var x := draw * n as real;
    assert 0.0 <= x;
    assert n > 0 ==> x < n as real by {
      if n > 0 { assert n as real - x == (1.0 - draw) * n as real; }
    }
    x.Floor
  }

  /** One element of the second provider's list: its author may be missing. */
  datatype TypeFitEntry = TypeFitEntry(text: JsString, author: Option<JsString>)

  /** What one attempt at the selected source produced. `Failed` stands for
      everything the code treats as an error: a rejected fetch, a response that
      is not ok, or a body that does not decode. `Quotable` is the first
      provider's object; `TypeFit` the second provider's full list together
      with the `Math.random()` value used to pick from it. */
  datatype Reply =
    | Failed
    | Quotable(content: JsString, author: JsString)
    | TypeFit(entries: seq<TypeFitEntry>, draw: RandomDraw)

  const UnknownAuthor: JsString := Lit("Unknown")

  /** `author || "Unknown"`: a missing or empty author is replaced. */
  function AuthorOrUnknown(author: Option<JsString>): (r: JsString)
    ensures r == UnknownAuthor <==> author.None? || author == Some([]) || author == Some(UnknownAuthor)
    ensures author.Some? && author.value != [] ==> r == author.value
    ensures r != []
  {
    match author
    case Some(a) => if a != [] then a else UnknownAuthor
    case None => UnknownAuthor
  }

  /** The quote the source at `apiIndex` yields for `reply`, or None when the
      attempt fails. Source 0 copies the object's fields; any other index is
      the second provider, whose list is indexed at `Math.floor(draw *
      length)`: on an empty list that element is undefined and reading its
      text throws. A body of the other provider's shape counts as a failure. */
  function Normalise(apiIndex: nat, reply: Reply): (q: Option<Quote>)
    ensures apiIndex == 0 ==> (q.Some? <==> reply.Quotable?)
    ensures apiIndex == 0 && q.Some? ==> q.value == Quote(reply.content, reply.author)
    ensures apiIndex != 0 ==> (q.Some? <==> reply.TypeFit? && |reply.entries| > 0)
    ensures apiIndex != 0 && q.Some? ==>
              exists k | 0 <= k < |reply.entries| ::
                q.value.content == reply.entries[k].text &&
                q.value.author == AuthorOrUnknown(reply.entries[k].author)
  {
    if apiIndex == 0 then
      match reply
      case Quotable(content, author) => Some(Quote(content, author))
      case _ => None
    else
      match reply
      case TypeFit(entries, draw) =>
        var k := RandomIndex(draw, |entries|);
        if k < |entries| then Some(Quote(entries[k].text, AuthorOrUnknown(entries[k].author))) else None
      case _ => None
  }

  /** The second provider's pick is the entry at `Math.floor(draw * length)`,
      with the author defaulted; no attempt on a non-empty list fails. */
  lemma TypeFitPick(apiIndex: nat, entries: seq<TypeFitEntry>, draw: RandomDraw)
    requires apiIndex != 0 && |entries| > 0
    ensures var k := RandomIndex(draw, |entries|);
            k < |entries| &&
            Normalise(apiIndex, TypeFit(entries, draw)) ==
              Some(Quote(entries[k].text, AuthorOrUnknown(entries[k].author)))
  {
  }
}
