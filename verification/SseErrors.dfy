// What a provider's error object and its code turn into.

module SseErrors {
  import opened Domain
  import opened Json
  import opened SseFraming

  /** A retry time, sixty seconds ahead, comes with rate limits, concurrency limits, unavailability and unknown
      failures, and with nothing else. */
  lemma RetryTimes(category: ErrorCategory, now: nat)
    ensures var failure := SanitizedFailure(category, now);
            && failure.category == category && failure.status == None
            && failure.retryAt ==
               if category !in {RateLimited, ConcurrencyLimited, ProviderUnavailable, Unknown} then None
               else if now <= 0x7fff_ffff_ffff_ffff then Some(now + 60)
               else Some(0x7fff_ffff_ffff_ffff)
  {
  }

  // ---------- Error codes ----------

  /** The words a provider's error code is searched for, most specific first. */
  const KEYWORDS: seq<(string, ErrorCategory)> := [
    ("insufficient_quota", QuotaExhausted),
    ("quota_exceeded", QuotaExhausted),
    ("credit", CreditExhausted),
    ("rate", RateLimited),
    ("model", ModelUnavailable),
    ("auth", AuthenticationFailed),
    ("key", AuthenticationFailed)
  ]

  /** `word` occurs in `text`. */
  ghost predicate Occurs(word: string, text: string) {
    exists before, after :: text == before + word + after
  }

  lemma OccursIff(word: string, text: string)
    ensures Occurs(word, text) <==> Contains(text, word)
  {
    if Contains(text, word) {
      var i :| 0 <= i <= |text| && MatchesAt(text, word, i);
      assert text == text[..i] + word + text[i + |word|..];
    }
    if before, after :| text == before + word + after {
      assert MatchesAt(text, word, |before|);
    }
  }

  /** The category is that of the first word of the table that occurs in the lower-cased code, and otherwise the
      provider counts as unavailable. */
  lemma CodeIsFirstKeyword(code: string)
    ensures (exists k :: 0 <= k < |KEYWORDS| && Occurs(KEYWORDS[k].0, LowerAll(code))
                           && CategoryOfCode(code) == KEYWORDS[k].1
                           && forall j :: 0 <= j < k ==> !Occurs(KEYWORDS[j].0, LowerAll(code)))
            || (CategoryOfCode(code) == ProviderUnavailable
                && forall j :: 0 <= j < |KEYWORDS| ==> !Occurs(KEYWORDS[j].0, LowerAll(code)))
  {
    forall j | 0 <= j < |KEYWORDS|
      ensures Occurs(KEYWORDS[j].0, LowerAll(code)) <==> Contains(LowerAll(code), KEYWORDS[j].0)
    {
      OccursIff(KEYWORDS[j].0, LowerAll(code));
    }
    var text := LowerAll(code);
    assert KEYWORDS[0].0 == "insufficient_quota" && KEYWORDS[1].0 == "quota_exceeded" && KEYWORDS[2].0 == "credit";
    assert KEYWORDS[3].0 == "rate" && KEYWORDS[4].0 == "model" && KEYWORDS[5].0 == "auth" && KEYWORDS[6].0 == "key";
    if k :| 0 <= k < |KEYWORDS| && Contains(text, KEYWORDS[k].0) {
      var first := FirstOccurring(text, k);
      assert CategoryOfCode(code) == KEYWORDS[first].1;
    } else {
      assert CategoryOfCode(code) == ProviderUnavailable;
    }
  }

  lemma {:induction false} FirstOccurring(text: string, k: nat) returns (first: nat)
    requires k < |KEYWORDS| && Contains(text, KEYWORDS[k].0)
    ensures first <= k && Contains(text, KEYWORDS[first].0)
    ensures forall j :: 0 <= j < first ==> !Contains(text, KEYWORDS[j].0)
  {
    first := k;
    if j :| 0 <= j < k && Contains(text, KEYWORDS[j].0) {
      first := FirstOccurring(text, j);
    }
  }

  /** Only the case of the letters A to Z is ignored. */
  lemma LowerIsAscii(code: string, k: nat)
    requires k < |code|
    ensures |LowerAll(code)| == |code|
    ensures LowerAll(code)[k] as int == code[k] as int + if 'A' <= code[k] <= 'Z' then 32 else 0
  {
  }

  /** The code is the string under `code` of an error object; any other error has none, and counts as unavailable. */
  lemma CodeOfError(error: Json)
    ensures CategoryOf(error) ==
              match error
              case JObject(fields) =>
                if "code" in fields && fields["code"].JString? then CategoryOfCode(fields["code"].text)
                else ProviderUnavailable
              case _ => ProviderUnavailable
  {
    CodeIsFirstKeyword("");
    forall j | 0 <= j < |KEYWORDS|
      ensures !Occurs(KEYWORDS[j].0, LowerAll(""))
    {
      assert LowerAll("") == "" && KEYWORDS[j].0 != "";
    }
  }
}
