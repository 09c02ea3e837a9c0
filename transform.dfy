/** How the result text is taken out of a language-model response (`callGptWithPrompt`).
    The request itself is an oracle: the reply is either a response object or a failure;
    every failure, and a missing API key, yields the empty string. */
module Transform {
  import opened Text
  import opened Js

  /** The model the request names. */
  const ModelName := "gpt-4o-mini"

  /** The response fields read: `output_text` (a string, empty when absent), `output` and
      `choices`. */
  datatype Reply =
    | Replied(outputText: string, output: JsValue, choices: JsValue)
    | RequestFailed

  /** `String(n)` for an integer. */
  function NumberString(n: int): string {
    if n < 0 then "-" + Dec(-n) else Dec(n)
  }

  /** `String(v)` / `v.toString()`: array elements are joined by commas, with null and
      undefined elements printed as nothing. */
  function ToText(v: JsValue): string
    decreases v, 1
  {
    match v
    case Undefined => "undefined"
    case Null => "null"
    case Bool(b) => if b then "true" else "false"
    case Num(n) => NumberString(n)
    case Str(s) => s
    case Arr(items) => JoinElements(items)
    case Obj(_) => "[object Object]"
  }

  function JoinElements(items: seq<JsValue>): string
    decreases items, 0
  {
    if items == [] then ""
    else
      var first := if IsNullish(items[0]) then "" else ToText(items[0]);
      if |items| == 1 then first else first + "," + JoinElements(items[1..])
  }

  /** `a || b` */
  function Or(a: JsValue, b: JsValue): JsValue {
    if Truthy(a) then a else b
  }

  /** The text of the first candidate: `(c.text || c.message?.content || '').toString()`; a
      null or undefined candidate makes `c.text` throw, which the caller turns into "". */
  function CandidateText(c: JsValue): string {
    if IsNullish(c) then ""
    else ToText(Or(Member(c, "text"), Or(Member(Member(c, "message"), "content"), Str(""))))
  }

  /** The text `callGptWithPrompt` returns for a reply. */
  function TransformText(apiKey: string, reply: Reply): (r: string)
    ensures apiKey == "" || reply.RequestFailed? ==> r == ""
    ensures apiKey != "" && reply.Replied? && reply.outputText != "" ==> r == reply.outputText
  {
    if apiKey == "" then ""
    else
      match reply
      case RequestFailed => ""
      case Replied(outputText, output, choices) =>
        if outputText != "" then outputText
        else
          var candidates := Or(output, choices);
          if candidates.Arr? && |candidates.items| > 0 then CandidateText(candidates.items[0]) else ""
  }

  /** The first candidate's own string `text` is preferred over its message content. */
  lemma CandidateTextPreferred(apiKey: string, text: string, content: JsValue, rest: seq<JsValue>, choices: JsValue)
    requires apiKey != "" && text != ""
    ensures TransformText(apiKey,
      Replied("", Arr([Obj(map["text" := Str(text), "message" := Obj(map["content" := content])])] + rest), choices))
      == text
  {
  }

  /** Without `text`, the message content is used. */
  lemma MessageContentUsed(apiKey: string, content: string, choices: JsValue)
    requires apiKey != "" && content != ""
    ensures TransformText(apiKey, Replied("", Null, Arr([Obj(map["message" := Obj(map["content" := Str(content)])])])))
      == content
  {
  }

  /** An empty `output` array is truthy, so `choices` is never consulted and the text is
      empty even when `choices` holds an answer. */
  lemma EmptyOutputHidesChoices(apiKey: string, choices: seq<JsValue>)
    ensures TransformText(apiKey, Replied("", Arr([]), Arr(choices))) == ""
  {
  }
}
