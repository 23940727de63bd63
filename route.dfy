/**
 * The part of the POST handler that is not I/O: the defaults it applies to
 * the request fields before calling the selector. A field that is missing
 * from the body (undefined) or null is `None`.
 */
module Route {
  import opened Optional
  import opened Replies
  import opened Responder

  /** `style || 'friendly'`: a missing or empty style becomes "friendly", any other text is kept. */
  function StyleOrDefault(style: Option<string>): (s: string)
    ensures s != ""
    ensures style.Some? && style.value != "" ==> s == style.value
    ensures style.None? || style.value == "" ==> s == "friendly"
  {
    match style
    case None => "friendly"
    case Some(name) => if name == "" then "friendly" else name
  }

  /** `customPrompt || ''`: a missing prompt becomes the empty prompt. */
  function PromptOrDefault(customPrompt: Option<string>): (p: string)
    ensures customPrompt.Some? ==> p == customPrompt.value
    ensures customPrompt.None? ==> p == ""
  {
    match customPrompt
    case None => ""
    case Some(text) => text
  }

  /** The reply the handler sends for a parsed request body and a draw `r` in [0, 1). */
  function HandleGenerate(message: string, style: Option<string>, customPrompt: Option<string>, r: real): (reply: string)
    requires 0.0 <= r < 1.0
    ensures reply in ChosenList(message, StyleOrDefault(style))
    ensures reply != ""
  {
    GenerateReply(message, StyleOrDefault(style), PromptOrDefault(customPrompt), r)
  }

  /** A missing style and an empty one both behave exactly as "friendly". */
  lemma MissingStyleIsFriendly(message: string, customPrompt: Option<string>, r: real)
    requires 0.0 <= r < 1.0
    ensures HandleGenerate(message, None, customPrompt, r) == HandleGenerate(message, Some("friendly"), customPrompt, r)
    ensures HandleGenerate(message, Some(""), customPrompt, r) == HandleGenerate(message, Some("friendly"), customPrompt, r)
  {
  }

  /** A style that names none of the four styles behaves exactly as a missing one. */
  lemma UnknownStyleIsMissingStyle(message: string, style: string, customPrompt: Option<string>, r: real)
    requires 0.0 <= r < 1.0
    requires forall s: Style :: style != StyleName(s)
    ensures HandleGenerate(message, Some(style), customPrompt, r) == HandleGenerate(message, None, customPrompt, r)
  {
    ReplyDependsOnParsedStyle(message, StyleOrDefault(Some(style)), StyleOrDefault(None), PromptOrDefault(customPrompt), r);
  }

  /** Whether the prompt is missing or given, the reply is the same. */
  lemma PromptNeverMatters(message: string, style: Option<string>, p1: Option<string>, p2: Option<string>, r: real)
    requires 0.0 <= r < 1.0
    ensures HandleGenerate(message, style, p1, r) == HandleGenerate(message, style, p2, r)
  {
  }
}
