/** The `message` handler a started bot installs (index.js:89-105): each
    text message is sent alone to the DeepSeek chat completion service and
    the first answer, or a fixed apology, is sent back to the chat. */
module Relay {
  import opened Wrappers

  const ModelName := "deepseek-chat"
  const UserRole := "user"

  /** The reply sent when the exchange fails in any way. */
  const Fallback := "\U{26A0}\U{FE0F} AI Error: Check your API Key."

  /** An incoming Telegram message; `text` is absent for stickers, photos
      and the like. */
  datatype Message = Message(chatId: int, text: Option<string>)

  /** One entry of the `messages` list of a chat completion request. */
  datatype Turn = Turn(role: string, content: string)

  datatype Request = Request(messages: seq<Turn>, model: string)

  /** A call of the completion service under an API key. */
  datatype Call = Call(apiKey: string, request: Request)

  /** What the service answers: the contents of the returned choices in
      order, or a failure (network, authentication, quota, bad response). */
  datatype Completion = Choices(contents: seq<string>) | Failed

  /** The completion service: the answer to a request under an API key. */
  type Service = Call -> Completion

  /** A message the bot sends: the typing indicator or a text. */
  datatype Outgoing =
    | Typing(chatId: int)
    | Text(chatId: int, text: string, markdown: bool)

  /** What handling one message does: the call it makes, if any, and the
      messages it sends, in order. */
  datatype Exchange = Exchange(call: Option<Call>, sent: seq<Outgoing>)

  /** `if (!msg.text) return;` lets through only non-empty text. */
  predicate HasText(msg: Message)
  {
    msg.text.Some? && msg.text.value != ""
  }

  /** The completion gave at least one choice, so
      `completion.choices[0].message.content` can be read. */
  predicate Answered(c: Completion)
  {
    c.Choices? && |c.contents| > 0
  }

  /** The request built from a text: a single user turn, no history. */
  function SingleTurn(text: string): (r: Request)
    ensures |r.messages| == 1
    ensures r.messages[0].role == UserRole && r.messages[0].content == text
    ensures r.model == ModelName
  {
    Request([Turn(UserRole, text)], ModelName)
  }

  /** The handler for one message of a bot whose completion client uses
      `apiKey`. The typing indicator is sent and its failure ignored. A
      reply that cannot be read from the completion, and a reply that
      Telegram refuses (`delivered` false), both end in the catch block,
      which sends the fallback. */
  function HandleMessage(apiKey: string, msg: Message, service: Service,
                         delivered: bool): (e: Exchange)
    ensures !HasText(msg) ==> e.call == None && e.sent == []
    ensures HasText(msg) ==>
      e.call == Some(Call(apiKey, SingleTurn(msg.text.value)))
    ensures HasText(msg) ==>
      var c := msg.chatId;
      var completion := service(Call(apiKey, SingleTurn(msg.text.value)));
      && |e.sent| >= 2 && e.sent[0] == Typing(c)
      && (Answered(completion) && delivered ==>
            e.sent == [Typing(c), Text(c, completion.contents[0], true)])
      && (Answered(completion) && !delivered ==>
            e.sent == [Typing(c), Text(c, completion.contents[0], true), Text(c, Fallback, false)])
      && (!Answered(completion) ==> e.sent == [Typing(c), Text(c, Fallback, false)])
  {
    if !HasText(msg) then Exchange(None, [])
    else
      var chat := msg.chatId;
      var call := Call(apiKey, SingleTurn(msg.text.value));
      var completion := service(call);
      if Answered(completion) then
        var reply := Text(chat, completion.contents[0], true);
        if delivered then Exchange(Some(call), [Typing(chat), reply])
        else Exchange(Some(call), [Typing(chat), reply, Text(chat, Fallback, false)])
      else Exchange(Some(call), [Typing(chat), Text(chat, Fallback, false)])
  }

  /** Every message the handler sends goes to the chat the message came
      from and the last one is the answer: the first choice when the
      exchange succeeds, otherwise the fallback, which a failed exchange
      sends exactly once and a successful one never. */
  lemma OneAnswerPerMessage(apiKey: string, msg: Message, service: Service,
                            delivered: bool)
    requires HasText(msg)
    ensures var e := HandleMessage(apiKey, msg, service, delivered);
      var ok := Answered(service(Call(apiKey, SingleTurn(msg.text.value)))) && delivered;
      && (forall i :: 0 <= i < |e.sent| ==> e.sent[i].chatId == msg.chatId)
      && multiset(e.sent)[Text(msg.chatId, Fallback, false)] == (if ok then 0 else 1)
      && (ok ==> e.sent[|e.sent| - 1] == Text(msg.chatId, service(
                   Call(apiKey, SingleTurn(msg.text.value))).contents[0], true))
      && (!ok ==> e.sent[|e.sent| - 1] == Text(msg.chatId, Fallback, false))
  {
  }
}
