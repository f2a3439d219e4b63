/**
 * The tutor chat (components/AIChat.tsx): the transcript, the input box and
 * the outstanding-request flag, changed by sending a message and by the
 * tutor's answer arriving. The chat session and the call to the model are
 * not modelled: the answer (or its failure) is an input, and so is each
 * message id, which the component takes from the clock.
 */
module AiChat {
  import opened Js
  import opened Types

  /** The transcript's opening message. */
  const Greeting := ChatMessage("1", Model, "Olá! Sou seu Tutor de Engenharia. Como posso ajudar?")

  /** The text shown when the call to the model throws. */
  const ConnectionError := "Erro ao conectar."

  class ChatView {
    var messages: seq<ChatMessage>
    var input: string
    var isLoading: bool

    /** The transcript always opens with the greeting. */
    ghost predicate Valid()
      reads this
    {
      |messages| >= 1 && messages[0] == Greeting
    }

    /** The chat opens with the greeting alone, an empty input and no request outstanding. */
    constructor ()
      ensures Valid()
      ensures messages == [Greeting] && input == "" && !isLoading
    {
      messages := [Greeting];
      input := "";
      isLoading := false;
    }

    /** The input box's change handler. */
    method Type(text: string)
      modifies this
      ensures input == text && messages == old(messages) && isLoading == old(isLoading)
    {
      input := text;
    }

    /**
     * The first half of `handleSend`: ignored when the trimmed input is empty
     * or a request is outstanding; otherwise the input is cleared, the
     * untrimmed text is appended as a user message, a request is outstanding,
     * and the text sent to the tutor is returned.
     */
    method Send(stamp: string) returns (sent: Option<string>)
      requires Valid()
      modifies this
      ensures Valid()
      ensures sent.None? <==> Trim(old(input)) == "" || old(isLoading)
      ensures sent.None? ==> messages == old(messages) && input == old(input) && isLoading == old(isLoading)
      ensures sent.Some? ==>
        && sent.value == old(input)
        && messages == old(messages) + [ChatMessage(stamp, User, old(input))]
        && input == "" && isLoading
    {
      if Trim(input) == "" || isLoading {
        return None;
      }
      var text := input;
      input := "";
      messages := messages + [ChatMessage(stamp, User, text)];
      isLoading := true;
      sent := Some(text);
    }

    /**
     * The second half of `handleSend`: the tutor's answer, or the connection
     * error when the call threw, is appended as a model message and the
     * request ends.
     */
    method Receive(stamp: string, answer: Option<string>)
      requires Valid()
      modifies this
      ensures Valid() && !isLoading && input == old(input)
      ensures messages == old(messages) + [ChatMessage(stamp, Model, AnswerText(answer))]
    {
      var text := if answer.Some? then answer.value else ConnectionError;
      messages := messages + [ChatMessage(stamp, Model, text)];
      isLoading := false;
    }
  }

  /** The text of the model message that closes an exchange. */
  function AnswerText(answer: Option<string>): (r: string)
    ensures answer.Some? ==> r == answer.value
    ensures answer.None? ==> r == ConnectionError
  {
    if answer.Some? then answer.value else ConnectionError
  }

  /**
   * A send from an idle chat followed by the tutor's answer: a blank input
   * changes nothing; otherwise the transcript grows by exactly the user's
   * message and one model message, earlier messages untouched, and the chat
   * is idle again.
   */
  method Exchange(chat: ChatView, sendStamp: string, replyStamp: string, answer: Option<string>)
    returns (accepted: bool)
    requires chat.Valid() && !chat.isLoading
    modifies chat
    ensures chat.Valid() && !chat.isLoading
    ensures accepted <==> Trim(old(chat.input)) != ""
    ensures accepted ==>
      chat.messages == old(chat.messages) + [
        ChatMessage(sendStamp, User, old(chat.input)),
        ChatMessage(replyStamp, Model, AnswerText(answer))]
    ensures !accepted ==> chat.messages == old(chat.messages)
    ensures old(chat.messages) <= chat.messages
  {
    var sent := chat.Send(sendStamp);
    accepted := sent.Some?;
    if accepted {
      chat.Receive(replyStamp, answer);
    }
  }
}
