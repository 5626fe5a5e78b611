/** The text handed to the share link and to the clipboard. */
module Share {
  import opened Optional
  import opened JsText

  /** `maxLength` of the share text: room is left for the attribution. */
  const MaxTweetLength: nat := 240

  const Ellipsis: JsString := Lit("...")

  /** The truncation as the code writes it: a quote longer than 240 code units
      becomes its first 237 units followed by "...". */
  function TweetTextAsWritten(quote: JsString): (t: JsString)
    ensures |t| <= MaxTweetLength
    ensures |quote| <= MaxTweetLength ==> t == quote
    ensures |quote| > MaxTweetLength ==>
              |t| == MaxTweetLength && t[..MaxTweetLength - 3] == quote[..MaxTweetLength - 3] &&
              t[MaxTweetLength - 3..] == Ellipsis
  {
    if |quote| > MaxTweetLength then quote[..MaxTweetLength - 3] + Ellipsis else quote
  }

  /** The as-written truncation breaks well-formed text exactly when unit 236,
      the last one kept, is the first half of a surrogate pair. */
  lemma AsWrittenKeepsWellFormedIff(quote: JsString)
    requires WellFormed(quote) && |quote| > MaxTweetLength
    ensures WellFormed(TweetTextAsWritten(quote)) <==> !IsHighSurrogate(quote[MaxTweetLength - 4])
  {
    var cut := MaxTweetLength - 3;
    var t := TweetTextAsWritten(quote);
    LitIsSurrogateFree("...");
    if !IsHighSurrogate(quote[cut - 1]) {
      PrefixWellFormed(quote, cut);
      AppendSurrogateFree(quote[..cut], Ellipsis);
    } else {
      assert t[cut - 1] == quote[cut - 1];
      assert !IsLowSurrogate(t[cut]);
    }
  }

  /** 236 units of `a`, the pair for U+1F600, ten more `a`s: a well-formed
      quote longer than a tweet whose pair sits exactly at the cut. */
  const SplitPairQuote: JsString := seq(236, _ => 0x61 as CodeUnit) + [0xD83D, 0xDE00] + seq(10, _ => 0x61 as CodeUnit)

  /** That quote has 248 code units, units 236 and 237 being the pair: it is
      well-formed, yet its as-written share text ends in a lone high
      surrogate, on which encodeURIComponent throws. */
  lemma AsWrittenSplitsSurrogatePair()
    ensures |SplitPairQuote| == 248 && WellFormed(SplitPairQuote) && !WellFormed(TweetTextAsWritten(SplitPairQuote))
  {
    var quote := SplitPairQuote;
    forall i | 0 <= i < |quote|
      ensures (i == 236) == IsHighSurrogate(quote[i]) && (i == 237) == IsLowSurrogate(quote[i])
    {
      if i < 236 { assert quote[i] == 0x61; }
      else if i >= 238 { assert quote[i] == 0x61; }
    }
    AsWrittenKeepsWellFormedIff(quote);
  }

  /** Where the share text is cut: 237 units, or 236 when 237 would split a
      surrogate pair. */
  function TweetCut(quote: JsString): (cut: nat)
    requires |quote| > MaxTweetLength
    ensures cut == MaxTweetLength - 3 || cut == MaxTweetLength - 4
    ensures cut == MaxTweetLength - 4 <==> IsHighSurrogate(quote[MaxTweetLength - 4])
  {
    if IsHighSurrogate(quote[MaxTweetLength - 4]) then MaxTweetLength - 4 else MaxTweetLength - 3
  }

  /** The share text the widget uses: the as-written truncation, except that it
      never keeps half of a surrogate pair. */
  function TweetText(quote: JsString): (t: JsString)
    ensures |t| <= MaxTweetLength
    ensures |quote| <= MaxTweetLength ==> t == quote
    ensures |quote| > MaxTweetLength ==>
              |t| >= MaxTweetLength - 1 && t[|t| - 3..] == Ellipsis && quote[..|t| - 3] == t[..|t| - 3]
    ensures |quote| > MaxTweetLength && !IsHighSurrogate(quote[MaxTweetLength - 4]) ==>
              t == TweetTextAsWritten(quote)
  {
    if |quote| > MaxTweetLength then quote[..TweetCut(quote)] + Ellipsis else quote
  }

  /** Unlike the as-written truncation, this one keeps well-formed text well-formed. */
  lemma TweetTextKeepsWellFormed(quote: JsString)
    requires WellFormed(quote)
    ensures WellFormed(TweetText(quote))
  {
    if |quote| > MaxTweetLength {
      var cut := TweetCut(quote);
      if cut == MaxTweetLength - 4 {
        // the unit before a high surrogate in well-formed text is not itself a high surrogate
        assert !IsHighSurrogate(quote[cut - 1]);
      }
      PrefixWellFormed(quote, cut);
      LitIsSurrogateFree("...");
      AppendSurrogateFree(quote[..cut], Ellipsis);
    }
  }

  /** The text `"<tweetText>" - <author>` that is percent-encoded into the
      share link. */
  function TweetPayload(quote: JsString, author: JsString): (p: JsString)
    ensures var t := TweetText(quote);
            |p| == |t| + |author| + 5 &&
            p[..1] == Lit("\"") && p[1..1 + |t|] == t && p[1 + |t|..5 + |t|] == Lit("\" - ") &&
            p[5 + |t|..] == author
  {
    Lit("\"") + TweetText(quote) + Lit("\" - ") + author
  }

  /** Whether `encodeURIComponent` accepts the share payload: it throws a
      URIError on any lone surrogate. */
  predicate Encodable(quote: JsString, author: JsString) {
    WellFormed(TweetPayload(quote, author))
  }

  /** The payload can be encoded exactly when the share text and the author
      are both well-formed: the quote marks and ` - ` hold no surrogates. */
  lemma EncodableIff(quote: JsString, author: JsString)
    ensures Encodable(quote, author) <==> WellFormed(TweetText(quote)) && WellFormed(author)
  {
    QuotedWellFormedIff(TweetText(quote), author);
  }

  lemma QuotedWellFormedIff(t: JsString, author: JsString)
    ensures WellFormed(Lit("\"") + t + Lit("\" - ") + author) <==> WellFormed(t) && WellFormed(author)
  {
    LitIsSurrogateFree("\"");
    LitIsSurrogateFree("\" - ");
    SeparatedWellFormedIff(Lit("\"") + t, Lit("\" - "), author);
    assert [] + Lit("\"") + t == Lit("\"") + t;
    SeparatedWellFormedIff([], Lit("\""), t);
  }

  /** A quote and author that are well-formed text always encode. */
  lemma WellFormedQuoteEncodable(quote: JsString, author: JsString)
    requires WellFormed(quote) && WellFormed(author)
    ensures Encodable(quote, author)
  {
    TweetTextKeepsWellFormed(quote);
    EncodableIff(quote, author);
  }

  /** The payload built with the as-written truncation: `"<tweetText>" -
      <author>` as line 183 writes it. It can be encoded exactly when the
      as-written share text and the author are well-formed. */
  function TweetPayloadAsWritten(quote: JsString, author: JsString): (p: JsString)
    ensures var t := TweetTextAsWritten(quote);
            |p| == |t| + |author| + 5 &&
            p[..1] == Lit("\"") && p[1..1 + |t|] == t && p[1 + |t|..5 + |t|] == Lit("\" - ") &&
            p[5 + |t|..] == author
    ensures WellFormed(p) <==> WellFormed(TweetTextAsWritten(quote)) && WellFormed(author)
    ensures |quote| <= MaxTweetLength ==> p == TweetPayload(quote, author)
  {
    QuotedWellFormedIff(TweetTextAsWritten(quote), author);
    Lit("\"") + TweetTextAsWritten(quote) + Lit("\" - ") + author
  }

  /** Whether `encodeURIComponent` accepts the payload line 183 builds. */
  predicate EncodableAsWritten(quote: JsString, author: JsString) {
    WellFormed(TweetPayloadAsWritten(quote, author))
  }

  /** A quote that line 178 would cut inside a surrogate pair. */
  predicate SplitsPair(quote: JsString) {
    |quote| > MaxTweetLength && IsHighSurrogate(quote[MaxTweetLength - 4])
  }

  /** The two payloads agree on whether they encode except when the cut would
      split a pair: then the as-written one never encodes, whatever the text. */
  lemma EncodableAsWrittenAgrees(quote: JsString, author: JsString)
    ensures !SplitsPair(quote) ==> (EncodableAsWritten(quote, author) <==> Encodable(quote, author))
    ensures SplitsPair(quote) ==> !EncodableAsWritten(quote, author)
  {
    if SplitsPair(quote) {
      var t := TweetTextAsWritten(quote);
      assert IsHighSurrogate(t[MaxTweetLength - 4]) && t[MaxTweetLength - 3] == Ellipsis[0];
      assert !WellFormed(t);
    } else if |quote| > MaxTweetLength {
      assert TweetPayloadAsWritten(quote, author) == TweetPayload(quote, author);
    }
  }

  /** With the as-written truncation, a well-formed quote and author can give a
      payload that encodeURIComponent rejects, so the code counts a fetched
      quote as a failed attempt. */
  lemma AsWrittenPayloadRejectsWellFormedQuote()
    ensures WellFormed(SplitPairQuote) && WellFormed(Lit("A"))
    ensures !WellFormed(TweetPayloadAsWritten(SplitPairQuote, Lit("A"))) && Encodable(SplitPairQuote, Lit("A"))
  {
    AsWrittenSplitsSurrogatePair();
    LitIsSurrogateFree("A");
    QuotedWellFormedIff(TweetTextAsWritten(SplitPairQuote), Lit("A"));
    WellFormedQuoteEncodable(SplitPairQuote, Lit("A"));
  }

  /** The clipboard text: only produced when there is quote text and the
      widget is not loading; then it is `"<quote>" <author line>`, where the
      author line already reads `- <author>`. */
  function CopyText(quoteText: JsString, authorText: JsString, loading: bool): (r: Option<JsString>)
    ensures r.Some? <==> quoteText != [] && !loading
    ensures r.Some? ==>
              |r.value| == |quoteText| + |authorText| + 3 &&
              r.value[..1] == Lit("\"") && r.value[1..1 + |quoteText|] == quoteText &&
              r.value[1 + |quoteText|..3 + |quoteText|] == Lit("\" ") && r.value[3 + |quoteText|..] == authorText
  {
    if quoteText != [] && !loading then Some(Lit("\"") + quoteText + Lit("\" ") + authorText) else None
  }
}
