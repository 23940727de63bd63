/**
 * The default-reply lookup exactly as the source writes it:
 * `defaultResponses[style] || defaultResponses.friendly` on a plain object
 * literal. Reading a property of an object literal also finds the members it
 * inherits from Object.prototype, and those are functions or objects, which
 * `||` treats as true; indexing them then yields `undefined`. So a style such
 * as "toString" gets no reply at all, where the fallback was evidently meant
 * to give it the friendly list. The rest of the model uses the corrected
 * lookup `ParseStyle`, which consults the four own keys only.
 */
module PrototypeLookup {
  import opened Optional
  import opened Strings
  import opened Replies
  import opened Responder

  /** The property names an object literal inherits from Object.prototype. */
  const InheritedNames: set<string> := {
    "constructor", "__proto__", "hasOwnProperty", "isPrototypeOf",
    "propertyIsEnumerable", "toLocaleString", "toString", "valueOf",
    "__defineGetter__", "__defineSetter__", "__lookupGetter__", "__lookupSetter__"
  }

  /** What reading a property of `defaultResponses` yields. */
  datatype Property =
    | ReplyList(replies: seq<string>)
    | InheritedMember
    | Undefined

  /** `defaultResponses[name]`: an own key gives its list, an inherited name its (truthy) member. */
  function ReadDefaultResponses(name: string): (p: Property)
    ensures p.ReplyList? <==> exists s: Style :: name == StyleName(s)
    ensures p.ReplyList? ==> p.replies == DefaultReplies(ParseStyle(name))
    ensures p.InheritedMember? <==> name in InheritedNames
  {
    if name == "friendly" then assert name == StyleName(Friendly); ReplyList(FriendlyDefaults)
    else if name == "professional" then assert name == StyleName(Professional); ReplyList(ProfessionalDefaults)
    else if name == "enthusiastic" then assert name == StyleName(Enthusiastic); ReplyList(EnthusiasticDefaults)
    else if name == "concise" then assert name == StyleName(Concise); ReplyList(ConciseDefaults)
    else if name in InheritedNames then InheritedMember
    else Undefined
  }

  /** `defaultResponses[style] || defaultResponses.friendly`: only `undefined` falls back. */
  function StyleResponsesAsWritten(name: string): (p: Property)
    ensures !p.Undefined?
    ensures p.ReplyList? ==> |p.replies| == 5 && p.replies == DefaultReplies(ParseStyle(name))
    ensures p.InheritedMember? <==> name in InheritedNames
  {
    match ReadDefaultResponses(name)
    case Undefined => ReplyList(FriendlyDefaults)
    case other => other
  }

  /**
   * `generateHumanLikeResponse` as written, for draw index `i`; `None` stands
   * for the `undefined` that indexing an inherited member produces.
   */
  function ReplyAsWritten(message: string, style: string, customPrompt: string, i: nat): (reply: Option<string>)
    requires i < 5
    ensures reply.None? <==> NoKeyword(ToLower(message)) && style in InheritedNames
  {
    var category := Classify(ToLower(message), style);
    if !category.StyleDefault? then Some(Candidates(category)[i])
    else match StyleResponsesAsWritten(style)
      case ReplyList(list) => Some(list[i])
      case _ => None
  }

  /**
   * Away from the inherited names, and for every style once a keyword
   * matches, the code as written and the corrected model agree.
   */
  lemma AsWrittenAgreesOffPrototype(message: string, style: string, customPrompt: string, i: nat)
    requires i < 5
    requires style !in InheritedNames || !NoKeyword(ToLower(message))
    ensures ReplyAsWritten(message, style, customPrompt, i) == Some(Select(message, style, customPrompt, i))
  {
  }

  /** The keyword tests on "ok". */
  lemma OkTests(lower: string)
    requires lower == "ok"
    ensures NoKeyword(lower)
  {
    FirstCharRulesOutGreeting(lower);
    MissingCharNotContained(lower, "?", '?');
  }

  /** The message "ok" with style "toString" gets no reply from the code as written. */
  lemma ToStringStyleGetsNoReply(message: string, style: string, customPrompt: string, i: nat)
    requires message == "ok" && style == "toString" && i < 5
    ensures ReplyAsWritten(message, style, customPrompt, i) == None
    ensures Select(message, style, customPrompt, i) in FriendlyDefaults
  {
    ToLowerKeepsLower(message);
    OkTests(ToLower(message));
    assert ParseStyle(style) == Friendly;
    StyleFallback(message, style, customPrompt, i);
  }
}
