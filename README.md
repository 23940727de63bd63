# Auto-responder reply selector, modelled in Dafny

This project models the reply selector of the "Instagram auto-responder" demo
dashboard, the function `generateHumanLikeResponse` in
`app/api/generate/route.ts`, together with the defaults that the `POST`
handler applies to the request body before calling it.

The selector works as follows:

- It lower-cases the message.
- It tries six keyword tests in a fixed order: greeting prefix, availability,
  price, interest, thanks, question mark.
- The first test that holds picks that category's five-entry reply list.
- When no test holds, it picks the default list of the requested style. A name
  that is not one of the four styles is meant to get the `friendly` list. Names
  inherited from Object.prototype, such as "toString", get no reply at all in
  the code as written (see Findings).
- It returns one entry of the chosen list at random.

The model is pure, as the source is:

- `Strings`: ASCII case folding, the prefix test of the `^`-anchored regular
  expression, and `includes`. `Contains` is proved equal to an
  occurrence-at-an-index reference definition, in both directions.
- `Replies`: the reply tables, copied verbatim, the `Style` and `Category`
  datatypes, and the style lookup `ParseStyle`.
- `Responder`: the cascade `Classify`, and `Select`, which is the selector with
  its random draw given as an index. `PickIndex` and `GenerateReply` model the
  draw `Math.floor(Math.random() * list.length)` for a draw `r` in [0, 1). The
  module also gives the ordered rule table `Rules`, with `FirstMatch`, as an
  independent reading of the cascade, and proves the two agree. The precedence,
  case-folding, style-fallback and unused-prompt properties are lemmas here.
- `Scenarios`: concrete messages and the list each reply comes from. These
  include the dashboard's seeded message "Hey! Is this available?", which gets
  a greeting.
- `Route`: the handler's defaults `style || 'friendly'` and
  `customPrompt || ''`.
- `PrototypeLookup`: the style lookup exactly as written, which differs from
  the intended one (see Findings).
- `Optional`: an `Option` type for request fields that may be missing.

Randomness comes in from outside: `Select` receives an index `i` and
`GenerateReply` and `HandleGenerate` receive a draw `r`. The message is
assumed to be a string.

## Model

| member | source | states |
|---|---|---|
| Strings.LowerChar | app/api/generate/route.ts:11 | the folded character is never an ASCII capital; a capital maps to its small letter and every other character is unchanged |
| Strings.ToLower | app/api/generate/route.ts:11 | the folded message is as long as the original, and each character is the fold of the character at the same position |
| Strings.ToLowerIdempotent | app/api/generate/route.ts:11 | folding an already folded message changes nothing |
| Strings.ToLowerHasNoUpper | app/api/generate/route.ts:11 | a folded message contains no ASCII capital letter |
| Strings.ToLowerKeepsLower | app/api/generate/route.ts:11 | a message without ASCII capitals is its own fold |
| Strings.StartsWith | app/api/generate/route.ts:14 | the `^`-anchored prefix test: it holds exactly when the pattern is no longer than the message and agrees with it at every position of the pattern |
| Strings.Contains | app/api/generate/route.ts:26 | `includes`: a contained pattern is no longer than the message, the empty pattern is always contained, and a prefix is contained |
| Strings.ContainsChar | app/api/generate/route.ts:74 | a one-character pattern is contained exactly when that character occurs in the message |
| Strings.PrefixMismatch | app/api/generate/route.ts:14 | one differing character at a position inside the pattern rules out the anchored prefix match |
| Strings.ContainsAt | app/api/generate/route.ts:26 | an occurrence of the pattern at any index makes `includes` true |
| Strings.ContainsHasIndex | app/api/generate/route.ts:26 | when `includes` is true, there is an index at which the pattern occurs |
| Strings.ContainsIff | app/api/generate/route.ts:26 | `includes` holds exactly when the pattern occurs at some index (both directions) |
| Strings.ContainsPrefixOfPattern | app/api/generate/route.ts:62 | a message that contains `p + q` also contains `p` |
| Strings.MissingCharNotContained | app/api/generate/route.ts:26-83 | a pattern that has a character the message lacks is not contained in it |
| Strings.EmptyMatchesNothing | app/api/generate/route.ts:14-83 | the empty message neither starts with nor contains any non-empty keyword |
| Replies.ParseStyle | app/api/generate/route.ts:117 | each of the four style keys selects its own style; every other name selects `friendly` |
| Replies.ParseStyleName | app/api/generate/route.ts:86-117 | looking up a style's own key gives that style back |
| Replies.DefaultReplies | app/api/generate/route.ts:86-115 | the `defaultResponses` table: each style's default list has 5 entries, none empty |
| Replies.Candidates | app/api/generate/route.ts:15-115 | every category list and every style-default list has exactly 5 entries, and none of them is empty |
| Responder.IsGreeting | app/api/generate/route.ts:14 | the greeting prefix test; a greeting has at least two characters and starts with h, y or s |
| Responder.AsksAvailability | app/api/generate/route.ts:26 | the availability test; a message that passes it has at least 8 characters |
| Responder.AsksPrice | app/api/generate/route.ts:38 | the price test; a message that passes it has at least 4 characters |
| Responder.ShowsInterest | app/api/generate/route.ts:50 | the interest test; a message that passes it has at least 4 characters |
| Responder.GivesThanks | app/api/generate/route.ts:62 | the thanks test with both its disjuncts; a message that passes it has at least 5 characters |
| Responder.AsksQuestion | app/api/generate/route.ts:74 | the question test holds exactly when the message holds the character `?` |
| Responder.NoKeyword | app/api/generate/route.ts:14-83 | none of the six tests holds; the empty message always satisfies this |
| Responder.Classify | app/api/generate/route.ts:14-118 | the `if` cascade; its category is Greeting exactly when the greeting test holds, is a style default exactly when no test holds, and that default is the style `ParseStyle` gives |
| Responder.ChosenList | app/api/generate/route.ts:11-118 | the list the reply is drawn from has 5 entries; it is the greeting list for a greeting and the style's default list when no test holds |
| Responder.Select | app/api/generate/route.ts:10-119 | for any message, style and prompt and any valid draw index, the reply is a non-empty entry of the list chosen by the first matching rule |
| Responder.PickIndex | app/api/generate/route.ts:22 | `floor(r * n)` for `r` in [0, 1) is always a valid index of a list of length `n` |
| Responder.PickIndexReaches | app/api/generate/route.ts:22 | for every index `k < n` there is a draw in [0, 1) that picks exactly `k` |
| Responder.GenerateReply | app/api/generate/route.ts:10-119 | for every draw in [0, 1), the reply belongs to the chosen list |
| Responder.EveryCandidateCanBeDrawn | app/api/generate/route.ts:22 | every entry of the chosen list is the reply for some draw |
| Responder.FirstMatch | app/api/generate/route.ts:14-83 | the rule-table scan returns the fallback or the category of one of the table's rules |
| Responder.RulesFireAsTests | app/api/generate/route.ts:14-83 | each row of the rule table fires exactly when the matching `if` test of the source holds |
| Responder.FirstMatchStep | app/api/generate/route.ts:14-83 | when the scan reaches a rule, a rule that fires decides the category and a silent rule passes the scan on to the next one |
| Responder.ClassifyFollowsRules | app/api/generate/route.ts:14-118 | the `if` cascade picks the category of the first rule of the ordered table that fires, and the style default when none fires |
| Responder.GreetingWins | app/api/generate/route.ts:14-23 | the category is Greeting exactly when the folded message starts with hi, hey, hello, yo or sup; the reply is then a greeting, however many other keywords the message holds |
| Responder.FirstCharRulesOutGreeting | app/api/generate/route.ts:14 | a message whose first character is not h, y or s fails the greeting test |
| Responder.AvailabilityBeforePriceAndQuestion | app/api/generate/route.ts:26-35 | a non-greeting message that contains `available` or `in stock` gets an availability reply, never a price or question reply |
| Responder.PriceBeforeQuestion | app/api/generate/route.ts:38-47 | a message with no earlier match that contains price, cost or how much gets a price reply, even when it holds `?` |
| Responder.QuestionIsLastKeyword | app/api/generate/route.ts:74-83 | the category is Question exactly when the message holds `?` and none of the five earlier tests holds; only the style-default category depends on the style |
| Responder.ThanksDisjunctRedundant | app/api/generate/route.ts:62 | the thanks test holds exactly when the message contains `thank`, so the `includes('thanks')` disjunct adds nothing |
| Responder.SelectIgnoresCase | app/api/generate/route.ts:11 | two messages with the same fold get the same reply for the same draw |
| Responder.SelectOfLowered | app/api/generate/route.ts:11 | lower-casing the message first never changes the reply |
| Responder.StyleFallback | app/api/generate/route.ts:85-118 | with no keyword match, the reply is in the named style's default list, or in the friendly list when the name is not one of the four styles |
| Responder.ReplyDependsOnParsedStyle | app/api/generate/route.ts:117 | two style names that select the same style give the same list and the same reply |
| Responder.EmptyMessageGetsStyleDefault | app/api/generate/route.ts:85-118 | the empty message matches no keyword test, and its reply is always a style default |
| Responder.CustomPromptIgnored | app/api/generate/route.ts:10 | the custom prompt never changes the reply |
| Scenarios.SeededMessageLowered | app/api/generate/route.ts:11 | "Hey! Is this available?" folds to "hey! is this available?" |
| Scenarios.SeededMessageTests | app/api/generate/route.ts:14-26 | "hey! is this available?" passes both the greeting test and the availability test |
| Scenarios.SeededMessageGetsGreeting | app/page.tsx:34 | "Hey! Is this available?" mentions availability but gets a greeting reply |
| Scenarios.PrefixWithoutWordBoundary | app/api/generate/route.ts:14 | "history", "you" and "super" get greeting replies, because the prefix test has no word boundary |
| Scenarios.LeadingBlankIsNoGreeting | app/api/generate/route.ts:14 | a message starting with a blank never counts as a greeting |
| Scenarios.IsThisAvailableLowered | app/api/generate/route.ts:11 | "Is this available?" folds to "is this available?" |
| Scenarios.IsThisAvailableTests | app/api/generate/route.ts:14-74 | "is this available?" is no greeting, asks about availability and holds `?` |
| Scenarios.AvailabilityQuestion | app/api/generate/route.ts:26-35 | "Is this available?" holds `?` yet gets an availability reply, for every style |
| Scenarios.HowMuchTests | app/api/generate/route.ts:14-74 | "how much?" is no greeting, does not ask about availability, asks about price and holds `?` |
| Scenarios.HowMuchIsPrice | app/api/generate/route.ts:38-47 | "how much?" gets a price reply, not a question reply |
| Scenarios.EarlyTestsFailWithoutLetters | app/api/generate/route.ts:14-50 | a message that starts with `t` and lacks c, i, p, v and w fails the greeting, availability, price and interest tests |
| Scenarios.ThanksTests | app/api/generate/route.ts:14-62 | "thanks!" fails the first four tests and passes the thanks test |
| Scenarios.ThanksBeatsStyle | app/api/generate/route.ts:62-71 | "thanks!" gets a thanks reply whatever the style |
| Scenarios.NoKeywordWithoutKeyLetters | app/api/generate/route.ts:14-74 | a message that starts with `r` and lacks k, s, v, w, p and `?` fails all six keyword tests |
| Scenarios.RandomUnmatchedTextTests | app/api/generate/route.ts:14-74 | "random unmatched text" fails all six keyword tests |
| Scenarios.RandomUnmatchedTextLowered | app/api/generate/route.ts:11 | "random unmatched text" is its own lower-case fold |
| Scenarios.UnmatchedTextConcise | app/api/generate/route.ts:108-118 | "random unmatched text" with style concise gets a concise default reply |
| Scenarios.RandomTextMatchesNothing | app/api/generate/route.ts:11-74 | "random text" is its own fold and fails all six keyword tests |
| Scenarios.UnknownStyleIsFriendly | app/api/generate/route.ts:117-118 | "random text" with the unknown style "unknown_style" gets a friendly default reply |
| Route.StyleOrDefault | app/api/generate/route.ts:126 | a missing or empty style becomes "friendly"; any other style text is passed on unchanged; the result is never empty |
| Route.PromptOrDefault | app/api/generate/route.ts:126 | a missing prompt becomes the empty prompt; a given one is passed on |
| Route.HandleGenerate | app/api/generate/route.ts:121-132 | the handler's reply is a non-empty entry of the list chosen for the message and the defaulted style |
| Route.MissingStyleIsFriendly | app/api/generate/route.ts:126 | a request with no style or an empty style is answered exactly as one with style "friendly" |
| Route.UnknownStyleIsMissingStyle | app/api/generate/route.ts:117-126 | a request whose style names none of the four styles is answered exactly as one with no style |
| Route.PromptNeverMatters | app/api/generate/route.ts:126 | the prompt field, present or missing, never changes the reply |
| PrototypeLookup.ReadDefaultResponses | app/api/generate/route.ts:86-117 | `defaultResponses[name]` gives a reply list exactly for the four own keys, and an inherited member exactly for the Object.prototype names |
| PrototypeLookup.StyleResponsesAsWritten | app/api/generate/route.ts:117 | the `||` fallback never leaves `undefined`; it keeps an inherited member exactly when the name is an Object.prototype name, and otherwise gives the list of the style `ParseStyle` selects: the own key's list or the friendly list |
| PrototypeLookup.ReplyAsWritten | app/api/generate/route.ts:10-118 | the code as written gives no reply exactly when no keyword matches and the style is an inherited property name |
| PrototypeLookup.AsWrittenAgreesOffPrototype | app/api/generate/route.ts:10-118 | the code as written gives the reply of the corrected model for every style that is not an inherited property name, and for every style at all once a keyword test matches |
| PrototypeLookup.OkTests | app/api/generate/route.ts:14-74 | "ok" fails all six keyword tests |
| PrototypeLookup.ToStringStyleGetsNoReply | app/api/generate/route.ts:117-118 | "ok" with style "toString" gets no reply as written, while the corrected model gives a friendly default |

## Left out

- The HTTP plumbing of `POST` is not modelled: JSON body parsing, the `catch` that answers 500 with a fixed error, and `NextResponse`.
- The artificial delay before the answer is not modelled. It is a random wait of 500 to 1500 ms, done with timers and asynchronous code.
- `Math.random` is not modelled. It becomes an index `i` given to `Select`, or a draw `r` in [0, 1) given to `GenerateReply`.
- Responder.PickIndex: takes the draw as an exact real number, not a double. For the list length 5 used here, the double product `r * 5` is also below 5 for every double `r` below 1.
- Strings.ToLower: folds ASCII only. JavaScript's `toLowerCase` folds all of Unicode. The difference is in scope when a non-ASCII character folds to ASCII. For example, the Kelvin sign U+212A folds to `k`, so "THAN" followed by the Kelvin sign passes the thanks test in the source but not in the model.
- The unused `stylePrompts` table is not modelled, because nothing reads it.
- A request whose `message` is missing or is not a string is not modelled. There, `toLowerCase` throws and the handler answers 500. The model takes `message` as a string.
- Request fields of other JSON types are not modelled. A `style` that is a number, a boolean, an array or an object is converted to a property name by JavaScript. The model's style is either missing or a string.
- The page component `app/page.tsx` is not modelled. It holds UI state, rendering, mock conversations and the `fetch` call. Only its seeded test message appears, in a scenario.
- Responder.Select: the model does not prove that the fifty reply strings are pairwise distinct. So it does not state that a reply reveals the rule that chose it.
- Responder.Select: follows the corrected style lookup `ParseStyle`, not the lookup as written. For a style inherited from Object.prototype and a message that matches no keyword, it gives a friendly default where the source gives `undefined`. `PrototypeLookup.ReplyAsWritten` models the source's behaviour.
- Responder.GenerateReply: follows the corrected style lookup `ParseStyle`, as `Responder.Select` does. For an inherited style name and no keyword match, it gives a friendly default where the source gives `undefined`.
- Route.HandleGenerate: follows the corrected style lookup `ParseStyle`, as `Responder.Select` does. For an inherited style name and no keyword match, it answers with a friendly default. The source answers `{ response: undefined }`, which is sent as `{}`.

## Findings

| source | as written | input that shows it | evidently intended | confidence | as-written member | corrected member |
|---|---|---|---|---|---|---|
| app/api/generate/route.ts:117-118 | `defaultResponses[style] \|\| defaultResponses.friendly` reads a property of a plain object literal. A style that names an inherited Object.prototype member gets a truthy function or object instead of `undefined`. So the fallback is skipped, and indexing that member returns `undefined` instead of a reply. | message "ok", style "toString" (also "constructor", "valueOf", "__proto__", ...) | every style other than the four own keys falls back to the friendly list | not executed; follows from JavaScript property lookup | PrototypeLookup.ToStringStyleGetsNoReply | Replies.ParseStyle |
