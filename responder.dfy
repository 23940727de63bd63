/**
 * The reply selector `generateHumanLikeResponse`: six keyword tests over the
 * lower-cased message, tried in a fixed order, the first that holds choosing
 * its category's list, and the style's default list when none holds. The
 * random draw `Math.floor(Math.random() * list.length)` is an index given
 * by the caller.
 */
module Responder {
  import opened Strings
  import opened Replies

  /** `/^(hi|hey|hello|yo|sup)/`: a bare prefix test, with no word boundary. */
  predicate IsGreeting(lower: string)
    ensures IsGreeting(lower) ==> |lower| >= 2 && lower[0] in "hys"
  {
    StartsWith(lower, "hi") || StartsWith(lower, "hey") || StartsWith(lower, "hello")
    || StartsWith(lower, "yo") || StartsWith(lower, "sup")
  }

  /** `includes('available') || includes('in stock')`. */
  predicate AsksAvailability(lower: string)
    ensures AsksAvailability(lower) ==> |lower| >= 8
  {
    Contains(lower, "available") || Contains(lower, "in stock")
  }

  /** `includes('price') || includes('cost') || includes('how much')`. */
  predicate AsksPrice(lower: string)
    ensures AsksPrice(lower) ==> |lower| >= 4
  {
    Contains(lower, "price") || Contains(lower, "cost") || Contains(lower, "how much")
  }

  /** `includes('interested') || includes('want')`. */
  predicate ShowsInterest(lower: string)
    ensures ShowsInterest(lower) ==> |lower| >= 4
  {
    Contains(lower, "interested") || Contains(lower, "want")
  }

  /** `includes('thank') || includes('thanks')`: both disjuncts of the source's test. */
  predicate GivesThanks(lower: string)
    ensures GivesThanks(lower) ==> |lower| >= 5
  {
    Contains(lower, "thank") || Contains(lower, "thanks")
  }

  /** `includes('?')`. */
  predicate AsksQuestion(lower: string)
    ensures AsksQuestion(lower) <==> '?' in lower
  {
    ContainsChar(lower, '?');
    Contains(lower, "?")
  }

  /** None of the six keyword tests holds. */
  predicate NoKeyword(lower: string)
    ensures lower == [] ==> NoKeyword(lower)
  {
    !IsGreeting(lower) && !AsksAvailability(lower) && !AsksPrice(lower)
    && !ShowsInterest(lower) && !GivesThanks(lower) && !AsksQuestion(lower)
  }

  /** The cascade of `if` tests: the first test that holds decides the category. */
  function Classify(lower: string, style: string): (c: Category)
    ensures c == Greeting <==> IsGreeting(lower)
    ensures c.StyleDefault? <==> NoKeyword(lower)
    ensures c.StyleDefault? ==> c.style == ParseStyle(style)
  {
    if IsGreeting(lower) then Greeting
    else if AsksAvailability(lower) then Availability
    else if AsksPrice(lower) then Price
    else if ShowsInterest(lower) then Interest
    else if GivesThanks(lower) then Thanks
    else if AsksQuestion(lower) then Question
    else StyleDefault(ParseStyle(style))
  }

  /** The list the reply to `message` is drawn from. */
  function ChosenList(message: string, style: string): (list: seq<string>)
    ensures |list| == 5
    ensures IsGreeting(ToLower(message)) ==> list == Greetings
    ensures NoKeyword(ToLower(message)) ==> list == DefaultReplies(ParseStyle(style))
  {
    Candidates(Classify(ToLower(message), style))
  }

  /**
   * `generateHumanLikeResponse(message, style, customPrompt)` with the random
   * draw fixed to index `i`. `customPrompt` is accepted and never read.
   */
  function Select(message: string, style: string, customPrompt: string, i: nat): (reply: string)
    requires i < |ChosenList(message, style)|
    ensures reply in ChosenList(message, style)
    ensures reply != ""
  {
    ChosenList(message, style)[i]
  }

  /**
   * `Math.floor(r * n)` for a draw `r` in [0, 1), with the draw taken as an
   * exact real number: always an index of a list of length `n`.
   */
  function PickIndex(r: real, n: nat): (k: nat)
    requires 0.0 <= r < 1.0 && n > 0
    ensures k < n
  {
    assert 0.0 <= r * n as real < n as real;
    (r * n as real).Floor
  }

  /** The draw `k / n` picks entry `k`: every entry of a list can be drawn. */
  lemma PickIndexReaches(n: nat, k: nat)
    requires k < n
    ensures 0.0 <= k as real / n as real < 1.0
    ensures PickIndex(k as real / n as real, n) == k
  {
    assert k as real / n as real * n as real == k as real;
  }

  /** The selector with its random draw `r` in [0, 1). */
  function GenerateReply(message: string, style: string, customPrompt: string, r: real): (reply: string)
    requires 0.0 <= r < 1.0
    ensures reply in ChosenList(message, style)
  {
    Select(message, style, customPrompt, PickIndex(r, |ChosenList(message, style)|))
  }

  /** Every reply of the chosen list is the outcome of some draw. */
  lemma EveryCandidateCanBeDrawn(message: string, style: string, customPrompt: string, k: nat)
    requires k < |ChosenList(message, style)|
    ensures exists r: real ::
              0.0 <= r < 1.0 && GenerateReply(message, style, customPrompt, r) == ChosenList(message, style)[k]
  {
    var n := |ChosenList(message, style)|;
    PickIndexReaches(n, k);
    assert GenerateReply(message, style, customPrompt, k as real / n as real) == ChosenList(message, style)[k];
  }

  // ---------------------------------------------------------------------
  // The ordered rule table, an independent reading of the cascade
  // ---------------------------------------------------------------------

  /** How a rule tests a keyword against the message. */
  datatype Test = Prefix | Substring

  /** One row of the rule table: a test kind, its keywords and the category it selects. */
  datatype Rule = Rule(test: Test, keywords: seq<string>, category: Category)

  /** The six rules in the order the selector tries them. */
  const Rules: seq<Rule> := [
    Rule(Prefix, ["hi", "hey", "hello", "yo", "sup"], Greeting),
    Rule(Substring, ["available", "in stock"], Availability),
    Rule(Substring, ["price", "cost", "how much"], Price),
    Rule(Substring, ["interested", "want"], Interest),
    Rule(Substring, ["thank", "thanks"], Thanks),
    Rule(Substring, ["?"], Question)
  ]

  predicate KeywordMatches(test: Test, keyword: string, lower: string) {
    match test
    case Prefix => StartsWith(lower, keyword)
    case Substring => Contains(lower, keyword)
  }

  /** Some keyword of the list matches. */
  predicate AnyKeyword(test: Test, keywords: seq<string>, lower: string) {
    exists k :: 0 <= k < |keywords| && KeywordMatches(test, keywords[k], lower)
  }

  predicate Fires(rule: Rule, lower: string) {
    AnyKeyword(rule.test, rule.keywords, lower)
  }

  /** The category of the first rule that fires, or `fallback` when none does. */
  function FirstMatch(rules: seq<Rule>, lower: string, fallback: Category): (c: Category)
    ensures c == fallback || exists j :: 0 <= j < |rules| && c == rules[j].category
  {
    if rules == [] then fallback
    else if Fires(rules[0], lower) then rules[0].category
    else FirstMatch(rules[1..], lower, fallback)
  }

  /** Each rule of the table fires exactly when the matching test of the cascade holds. */
  lemma RulesFireAsTests(lower: string)
    ensures Fires(Rules[0], lower) <==> IsGreeting(lower)
    ensures Fires(Rules[1], lower) <==> AsksAvailability(lower)
    ensures Fires(Rules[2], lower) <==> AsksPrice(lower)
    ensures Fires(Rules[3], lower) <==> ShowsInterest(lower)
    ensures Fires(Rules[4], lower) <==> GivesThanks(lower)
    ensures Fires(Rules[5], lower) <==> AsksQuestion(lower)
  {
    assert Rules[0].keywords[0] == "hi" && Rules[0].keywords[1] == "hey" && Rules[0].keywords[2] == "hello";
    assert Rules[0].keywords[3] == "yo" && Rules[0].keywords[4] == "sup";
    assert Rules[1].keywords[0] == "available" && Rules[1].keywords[1] == "in stock";
    assert Rules[2].keywords[0] == "price" && Rules[2].keywords[1] == "cost" && Rules[2].keywords[2] == "how much";
    assert Rules[3].keywords[0] == "interested" && Rules[3].keywords[1] == "want";
    assert Rules[4].keywords[0] == "thank" && Rules[4].keywords[1] == "thanks";
    assert Rules[5].keywords[0] == "?";
  }

  /** Scanning the table from rule `j`: a firing rule decides, a silent one passes on. */
  lemma FirstMatchStep(rules: seq<Rule>, j: nat, lower: string, fallback: Category)
    requires j < |rules|
    ensures Fires(rules[j], lower) ==> FirstMatch(rules[j..], lower, fallback) == rules[j].category
    ensures !Fires(rules[j], lower) ==> FirstMatch(rules[j..], lower, fallback) == FirstMatch(rules[j + 1..], lower, fallback)
  {
    assert rules[j..][0] == rules[j];
    assert rules[j..][1..] == rules[j + 1..];
  }

  /** The cascade picks the category of the first rule of the table that fires. */
  lemma ClassifyFollowsRules(lower: string, style: string)
    ensures Classify(lower, style) == FirstMatch(Rules, lower, StyleDefault(ParseStyle(style)))
  {
    RulesFireAsTests(lower);
    var fallback := StyleDefault(ParseStyle(style));
    assert Rules[0..] == Rules;
    FirstMatchStep(Rules, 0, lower, fallback);
    FirstMatchStep(Rules, 1, lower, fallback);
    FirstMatchStep(Rules, 2, lower, fallback);
    FirstMatchStep(Rules, 3, lower, fallback);
    FirstMatchStep(Rules, 4, lower, fallback);
    FirstMatchStep(Rules, 5, lower, fallback);
    assert Rules[6..] == [];
  }

  // ---------------------------------------------------------------------
  // Precedence of the rules
  // ---------------------------------------------------------------------

  /** A greeting prefix decides the reply before any other test, and only then is the category Greeting. */
  lemma GreetingWins(message: string, style: string, customPrompt: string, i: nat)
    requires i < 5
    ensures Classify(ToLower(message), style) == Greeting <==> IsGreeting(ToLower(message))
    ensures IsGreeting(ToLower(message)) ==> Select(message, style, customPrompt, i) in Greetings
  {
  }

  /** A message whose first character is not h, y or s is no greeting. */
  lemma FirstCharRulesOutGreeting(lower: string)
    requires |lower| > 0 && lower[0] != 'h' && lower[0] != 'y' && lower[0] != 's'
    ensures !IsGreeting(lower)
  {
    PrefixMismatch(lower, "hi", 0);
    PrefixMismatch(lower, "hey", 0);
    PrefixMismatch(lower, "hello", 0);
    PrefixMismatch(lower, "yo", 0);
    PrefixMismatch(lower, "sup", 0);
  }

  /** Availability is tested after the greeting and before price and question. */
  lemma AvailabilityBeforePriceAndQuestion(message: string, style: string, customPrompt: string, i: nat)
    requires i < 5
    requires !IsGreeting(ToLower(message)) && AsksAvailability(ToLower(message))
    ensures Classify(ToLower(message), style) == Availability
    ensures Select(message, style, customPrompt, i) in AvailabilityReplies
  {
  }

  /** A price keyword beats the question mark. */
  lemma PriceBeforeQuestion(message: string, style: string, customPrompt: string, i: nat)
    requires i < 5
    requires !IsGreeting(ToLower(message)) && !AsksAvailability(ToLower(message)) && AsksPrice(ToLower(message))
    ensures Classify(ToLower(message), style) == Price
    ensures Select(message, style, customPrompt, i) in PriceReplies
  {
  }

  /**
   * The category is Question exactly when the message holds `?` and none of
   * the five earlier tests holds; in particular no category but the style
   * default depends on the style.
   */
  lemma QuestionIsLastKeyword(lower: string, style: string)
    ensures Classify(lower, style) == Question <==>
              AsksQuestion(lower) && !IsGreeting(lower) && !AsksAvailability(lower)
              && !AsksPrice(lower) && !ShowsInterest(lower) && !GivesThanks(lower)
    ensures !NoKeyword(lower) ==> Classify(lower, style) == Classify(lower, "friendly")
  {
  }

  /**
   * The `includes('thanks')` disjunct adds nothing: a message holding
   * `thanks` already holds `thank`.
   */
  lemma ThanksDisjunctRedundant(lower: string)
    ensures GivesThanks(lower) <==> Contains(lower, "thank")
  {
    if Contains(lower, "thanks") {
      assert "thanks" == "thank" + "s";
      ContainsPrefixOfPattern(lower, "thank", "s");
    }
  }

  // ---------------------------------------------------------------------
  // Case folding, the style default and the unused prompt
  // ---------------------------------------------------------------------

  /** Messages that fold to the same text get the same reply for the same draw. */
  lemma SelectIgnoresCase(m1: string, m2: string, style: string, customPrompt: string, i: nat)
    requires i < 5
    requires ToLower(m1) == ToLower(m2)
    ensures Select(m1, style, customPrompt, i) == Select(m2, style, customPrompt, i)
  {
  }

  /** Lower-casing the message beforehand changes nothing. */
  lemma SelectOfLowered(message: string, style: string, customPrompt: string, i: nat)
    requires i < 5
    ensures Select(ToLower(message), style, customPrompt, i) == Select(message, style, customPrompt, i)
  {
    ToLowerIdempotent(message);
  }

  /**
   * When no keyword test holds the reply comes from the style's default
   * list; a name that is not one of the four styles gets the friendly list.
   */
  lemma StyleFallback(message: string, style: string, customPrompt: string, i: nat)
    requires i < 5
    requires NoKeyword(ToLower(message))
    ensures Select(message, style, customPrompt, i) in DefaultReplies(ParseStyle(style))
    ensures forall s: Style :: style == StyleName(s) ==> Select(message, style, customPrompt, i) in DefaultReplies(s)
    ensures (forall s: Style :: style != StyleName(s)) ==> Select(message, style, customPrompt, i) in FriendlyDefaults
  {
  }

  /** The style enters the reply only through the style it parses to. */
  lemma ReplyDependsOnParsedStyle(message: string, s1: string, s2: string, customPrompt: string, r: real)
    requires 0.0 <= r < 1.0
    requires ParseStyle(s1) == ParseStyle(s2)
    ensures ChosenList(message, s1) == ChosenList(message, s2)
    ensures GenerateReply(message, s1, customPrompt, r) == GenerateReply(message, s2, customPrompt, r)
  {
  }

  /** The empty message matches no keyword and always gets a style default. */
  lemma EmptyMessageGetsStyleDefault(style: string, customPrompt: string, i: nat)
    requires i < 5
    ensures NoKeyword(ToLower(""))
    ensures Select("", style, customPrompt, i) in DefaultReplies(ParseStyle(style))
  {
    assert ToLower("") == "";
  }

  /** The custom prompt never influences the reply. */
  lemma CustomPromptIgnored(message: string, style: string, p1: string, p2: string, i: nat)
    requires i < 5
    ensures Select(message, style, p1, i) == Select(message, style, p2, i)
  {
  }

}
