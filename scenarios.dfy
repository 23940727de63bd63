/**
 * Concrete messages and the list their reply is drawn from: the scenarios
 * the selector is meant to handle, including the seeded test message of the
 * dashboard and the ordering side effects of the rule cascade. Each scenario
 * first settles the six keyword tests on the lower-cased text, then draws the
 * conclusion about the reply.
 */
module Scenarios {
  import opened Strings
  import opened Replies
  import opened Responder

  /** The seeded message folds to lower case letter by letter. */
  lemma SeededMessageLowered(message: string)
    requires message == "Hey! Is this available?"
    ensures ToLower(message) == "hey! is this available?"
  {
  }

  /** The keyword tests on "hey! is this available?": a greeting that mentions availability. */
  lemma SeededMessageTests(lower: string)
    requires lower == "hey! is this available?"
    ensures IsGreeting(lower) && AsksAvailability(lower)
  {
    assert lower[..3] == "hey";
    ContainsAt(lower, "available", 13);
  }

  /** The dashboard's seeded test message greets, although it also asks about availability. */
  lemma SeededMessageGetsGreeting(message: string, style: string, customPrompt: string, i: nat)
    requires message == "Hey! Is this available?" && i < 5
    ensures AsksAvailability(ToLower(message))
    ensures Select(message, style, customPrompt, i) in Greetings
  {
    SeededMessageLowered(message);
    SeededMessageTests(ToLower(message));
    GreetingWins(message, style, customPrompt, i);
  }

  /** A prefix test with no word boundary: "history", "you" and "super" count as greetings. */
  lemma PrefixWithoutWordBoundary(style: string, customPrompt: string, i: nat)
    requires i < 5
    ensures Select("history", style, customPrompt, i) in Greetings
    ensures Select("you", style, customPrompt, i) in Greetings
    ensures Select("super", style, customPrompt, i) in Greetings
  {
    ToLowerKeepsLower("history");
    ToLowerKeepsLower("you");
    ToLowerKeepsLower("super");
  }

  /** A leading blank defeats the greeting test. */
  lemma LeadingBlankIsNoGreeting(message: string)
    requires |message| > 0 && message[0] == ' '
    ensures !IsGreeting(ToLower(message))
  {
    var lower := ToLower(message);
    FirstCharRulesOutGreeting(lower);
  }

  /** "Is this available?" folds to lower case letter by letter. */
  lemma IsThisAvailableLowered(message: string)
    requires message == "Is this available?"
    ensures ToLower(message) == "is this available?"
  {
  }

  /** The keyword tests on "is this available?". */
  lemma IsThisAvailableTests(lower: string)
    requires lower == "is this available?"
    ensures !IsGreeting(lower) && AsksAvailability(lower) && AsksQuestion(lower)
  {
    FirstCharRulesOutGreeting(lower);
    ContainsAt(lower, "available", 8);
    ContainsAt(lower, "?", 17);
  }

  /** "Is this available?" asks about availability, and never gets a question reply. */
  lemma AvailabilityQuestion(message: string, style: string, customPrompt: string, i: nat)
    requires message == "Is this available?" && i < 5
    ensures AsksQuestion(ToLower(message))
    ensures Select(message, style, customPrompt, i) in AvailabilityReplies
  {
    IsThisAvailableLowered(message);
    IsThisAvailableTests(ToLower(message));
    AvailabilityBeforePriceAndQuestion(message, style, customPrompt, i);
  }

  /** The keyword tests on "how much?". */
  lemma HowMuchTests(lower: string)
    requires lower == "how much?"
    ensures !IsGreeting(lower) && !AsksAvailability(lower) && AsksPrice(lower) && AsksQuestion(lower)
  {
    assert !IsGreeting(lower) by {
      PrefixMismatch(lower, "hi", 1);
      PrefixMismatch(lower, "hey", 1);
      PrefixMismatch(lower, "hello", 1);
      PrefixMismatch(lower, "yo", 0);
      PrefixMismatch(lower, "sup", 0);
    }
    assert !AsksAvailability(lower) by {
      MissingCharNotContained(lower, "available", 'v');
      MissingCharNotContained(lower, "in stock", 'i');
    }
    ContainsAt(lower, "how much", 0);
    assert lower[8] == '?';
  }

  /** "how much?" is a price inquiry, not a question. */
  lemma HowMuchIsPrice(message: string, style: string, customPrompt: string, i: nat)
    requires message == "how much?" && i < 5
    ensures AsksQuestion(ToLower(message))
    ensures Select(message, style, customPrompt, i) in PriceReplies
  {
    ToLowerKeepsLower(message);
    HowMuchTests(ToLower(message));
    PriceBeforeQuestion(message, style, customPrompt, i);
  }

  /**
   * The first four keyword tests fail on a message that starts with `t` and
   * lacks the letters c, i, p, v and w.
   */
  lemma EarlyTestsFailWithoutLetters(lower: string)
    requires |lower| > 0 && lower[0] == 't'
    requires 'c' !in lower && 'i' !in lower && 'p' !in lower && 'v' !in lower && 'w' !in lower
    ensures !IsGreeting(lower) && !AsksAvailability(lower) && !AsksPrice(lower) && !ShowsInterest(lower)
  {
    FirstCharRulesOutGreeting(lower);
    MissingCharNotContained(lower, "available", 'v');
    MissingCharNotContained(lower, "in stock", 'i');
    MissingCharNotContained(lower, "price", 'p');
    MissingCharNotContained(lower, "cost", 'c');
    MissingCharNotContained(lower, "how much", 'w');
    MissingCharNotContained(lower, "interested", 'i');
    MissingCharNotContained(lower, "want", 'w');
  }

  /** The keyword tests on "thanks!". */
  lemma ThanksTests(lower: string)
    requires lower == "thanks!"
    ensures !IsGreeting(lower) && !AsksAvailability(lower) && !AsksPrice(lower)
    ensures !ShowsInterest(lower) && GivesThanks(lower)
  {
    EarlyTestsFailWithoutLetters(lower);
    ContainsAt(lower, "thank", 0);
  }

  /** "thanks!" gets a thanks reply whatever the style. */
  lemma ThanksBeatsStyle(message: string, style: string, customPrompt: string, i: nat)
    requires message == "thanks!" && i < 5
    ensures Select(message, style, customPrompt, i) in ThanksReplies
  {
    ToLowerKeepsLower(message);
    ThanksTests(ToLower(message));
  }

  /**
   * No keyword test holds on a message that starts with `r` and lacks the
   * letters k, s, v, w, p and the character `?`.
   */
  lemma NoKeywordWithoutKeyLetters(lower: string)
    requires |lower| > 0 && lower[0] == 'r'
    requires 'k' !in lower && 's' !in lower && 'v' !in lower && 'w' !in lower && 'p' !in lower && '?' !in lower
    ensures NoKeyword(lower)
  {
    FirstCharRulesOutGreeting(lower);
    MissingCharNotContained(lower, "available", 'v');
    MissingCharNotContained(lower, "in stock", 's');
    MissingCharNotContained(lower, "price", 'p');
    MissingCharNotContained(lower, "cost", 's');
    MissingCharNotContained(lower, "how much", 'w');
    MissingCharNotContained(lower, "interested", 's');
    MissingCharNotContained(lower, "want", 'w');
    MissingCharNotContained(lower, "thank", 'k');
    MissingCharNotContained(lower, "thanks", 'k');
    MissingCharNotContained(lower, "?", '?');
  }

  /** "random unmatched text" matches no keyword. */
  lemma RandomUnmatchedTextTests(lower: string)
    requires lower == "random unmatched text"
    ensures NoKeyword(lower)
  {
    NoKeywordWithoutKeyLetters(lower);
  }

  /** "random unmatched text" is already in lower case. */
  lemma RandomUnmatchedTextLowered(message: string)
    requires message == "random unmatched text"
    ensures ToLower(message) == message
  {
    ToLowerKeepsLower(message);
  }

  /** Unmatched text replies from the named style's list. */
  lemma UnmatchedTextConcise(message: string, style: string, customPrompt: string, i: nat)
    requires message == "random unmatched text" && style == "concise" && i < 5
    ensures Select(message, style, customPrompt, i) in ConciseDefaults
  {
    RandomUnmatchedTextLowered(message);
    RandomUnmatchedTextTests(ToLower(message));
    StyleFallback(message, style, customPrompt, i);
  }

  /** "random text" is its own fold and matches no keyword. */
  lemma RandomTextMatchesNothing(message: string)
    requires message == "random text"
    ensures ToLower(message) == message && NoKeyword(ToLower(message))
  {
    ToLowerKeepsLower(message);
    NoKeywordWithoutKeyLetters(message);
  }

  /** Unmatched text with an unknown style replies from the friendly list. */
  lemma UnknownStyleIsFriendly(message: string, style: string, customPrompt: string, i: nat)
    requires message == "random text" && style == "unknown_style" && i < 5
    ensures Select(message, style, customPrompt, i) in FriendlyDefaults
  {
    RandomTextMatchesNothing(message);
    assert ParseStyle(style) == Friendly;
    StyleFallback(message, style, customPrompt, i);
  }
}
