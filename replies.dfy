/**
 * The fixed reply tables of the auto-responder: one five-entry list per
 * keyword category and one per reply style, copied verbatim, and the
 * style-name lookup that picks a style's default list.
 */
module Replies {

  /** The four named reply styles, the keys of the default-reply record. */
  datatype Style = Friendly | Professional | Enthusiastic | Concise

  /** The outcome of the keyword dispatch: which candidate list the reply is drawn from. */
  datatype Category =
    | Greeting
    | Availability
    | Price
    | Interest
    | Thanks
    | Question
    | StyleDefault(style: Style)

  /** The key under which a style's list is stored. */
  function StyleName(s: Style): string {
    match s
    case Friendly => "friendly"
    case Professional => "professional"
    case Enthusiastic => "enthusiastic"
    case Concise => "concise"
  }

  /**
   * `defaultResponses[style] || defaultResponses.friendly` over the record's
   * own keys: a name that is one of the four keys selects that style, any
   * other name selects `friendly`.
   */
  function ParseStyle(name: string): (s: Style)
    ensures name == StyleName(s) || (s == Friendly && forall t: Style :: name != StyleName(t))
  {
    if name == "professional" then Professional
    else if name == "enthusiastic" then Enthusiastic
    else if name == "concise" then Concise
    else Friendly
  }

  /** Parsing a style's own key gives the style back. */
  lemma ParseStyleName(s: Style)
    ensures ParseStyle(StyleName(s)) == s
  {
  }

  /** Greeting replies (route.ts lines 15-21). */
  const Greetings: seq<string> := [
    "Hey! How can I help you?",
    "Hi there! What's up?",
    "Hey! Thanks for reaching out",
    "Hello! How are you doing?",
    "Hey! Good to hear from you"
  ]

  /** Availability replies (lines 27-33). */
  const AvailabilityReplies: seq<string> := [
    "Yes, it's still available! What would you like to know about it?",
    "Yep, still have it! Let me know if you have any questions",
    "It is! Feel free to ask me anything about it",
    "Yes it's available! Interested?",
    "Still available! What info do you need?"
  ]

  /** Price replies (lines 39-45). */
  const PriceReplies: seq<string> := [
    "The price is listed in the post, but let me know if you have questions!",
    "Check out the post details for pricing info. Happy to negotiate!",
    "Price is in the description! Feel free to DM me an offer",
    "It's listed at [price] - open to reasonable offers though!",
    "See the post for pricing. We can discuss if you're interested!"
  ]

  /** Interest replies (lines 51-57). */
  const InterestReplies: seq<string> := [
    "Awesome! What would you like to know?",
    "Great! Let me know if you have any questions",
    "Perfect! Feel free to ask anything",
    "Nice! How can I help you with it?",
    "Cool! What do you need to know?"
  ]

  /** Thanks replies (lines 63-69). */
  const ThanksReplies: seq<string> := [
    "No problem! Let me know if you need anything else",
    "You're welcome! Happy to help",
    "Anytime! Feel free to reach out if you have more questions",
    "Of course! Glad I could help",
    "No worries! Hit me up if you need anything"
  ]

  /** Question replies (lines 75-81). */
  const QuestionReplies: seq<string> := [
    "Great question! Let me check on that for you",
    "Good question! I can help with that",
    "Let me get back to you on that shortly",
    "That's a fair question - give me a sec to check",
    "I'll look into that and get back to you ASAP"
  ]

  /** Default replies of the `friendly` style (lines 87-93). */
  const FriendlyDefaults: seq<string> := [
    "Thanks for the message! What's on your mind?",
    "Hey! I appreciate you reaching out. How can I help?",
    "Thanks for getting in touch! What can I do for you?",
    "Hey there! What can I help you with?",
    "Thanks for the DM! Let me know what you need"
  ]

  /** Default replies of the `professional` style (lines 94-100). */
  const ProfessionalDefaults: seq<string> := [
    "Thank you for your message. How may I assist you?",
    "I appreciate you reaching out. How can I help you today?",
    "Thank you for contacting me. What can I do for you?",
    "I received your message. How may I be of assistance?",
    "Thank you for getting in touch. What information do you need?"
  ]

  /** Default replies of the `enthusiastic` style (lines 101-107). */
  const EnthusiasticDefaults: seq<string> := [
    "Hey!! Thanks so much for reaching out! How can I help?!",
    "Awesome! Thanks for the message! What can I do for you?!",
    "Hey there! So glad you messaged! What's up?!",
    "Thanks for the DM! I'm excited to help! What do you need?!",
    "Hey! Great to hear from you! How can I assist?!"
  ]

  /** Default replies of the `concise` style (lines 108-114). */
  const ConciseDefaults: seq<string> := [
    "Hey! What's up?",
    "Hi! How can I help?",
    "Thanks for reaching out. What do you need?",
    "Hello! What can I do for you?",
    "Hey! Need something?"
  ]

  /** The default list of a style. */
  function DefaultReplies(s: Style): (list: seq<string>)
    ensures |list| == 5
    ensures forall k :: 0 <= k < |list| ==> list[k] != ""
  {
    match s
    case Friendly => FriendlyDefaults
    case Professional => ProfessionalDefaults
    case Enthusiastic => EnthusiasticDefaults
    case Concise => ConciseDefaults
  }

  /** The candidate list a category draws its reply from. */
  function Candidates(c: Category): (list: seq<string>)
    ensures |list| == 5
    ensures forall k :: 0 <= k < |list| ==> list[k] != ""
  {
    match c
    case Greeting => Greetings
    case Availability => AvailabilityReplies
    case Price => PriceReplies
    case Interest => InterestReplies
    case Thanks => ThanksReplies
    case Question => QuestionReplies
    case StyleDefault(s) => DefaultReplies(s)
  }

}
