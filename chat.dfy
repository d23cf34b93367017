/**
 * The shape of a chat-completion request as the backend builds it for the
 * OpenAI-compatible clients and for `ollama.chat`. The remote model itself is
 * outside the model: a `Provider` is any function from a request to the text
 * of the first choice, or to the message of the exception the call raised.
 */
module Chat {
  import opened Wrappers

  /** One element of a multi-part message (`{"type": "text", ...}` or `{"type": "image_url", ...}`). */
  datatype Part = TextPart(text: string) | ImageUrl(url: string)

  /** A message's `content`: a plain string, or a list of parts. */
  datatype Content = Plain(text: string) | Parts(parts: seq<Part>)

  /** A chat message; `images` carries the base64 images of the Ollama message format. */
  datatype Message = Message(role: string, content: Content, images: seq<string>)

  /** A request: model name, messages and the `max_tokens` argument when one is passed. */
  datatype Request = Request(model: string, messages: seq<Message>, maxTokens: Option<nat>)

  /** A remote chat service, abstracted: the content of the answer, or the raised exception's message. */
  type Provider = Request -> Result<string, string>
}
