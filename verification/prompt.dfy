/**
  The conversation sent to the completion service: the system prompt, the
  earlier turns unchanged, and the last turn with the retrieval context
  appended.
 */
module Prompt {
  import opened Results
  import opened Faults

  /** One turn of the conversation as the caller sends it. The role is passed
      through as given; the handler does not check it. */
  datatype Message = Message(role: string, content: string)

  const SystemRole: string := "system"
  const UserRole: string := "user"

  /** The text sent for embedding: the content of the last turn. Reading it
      from an empty conversation raises a TypeError. */
  function QueryText(conv: seq<Message>): (r: Result<string, Fault>)
    ensures r.Success? <==> |conv| > 0
    ensures r.Failure? ==> r.error == EmptyConversation
    ensures r.Success? ==> r.value == conv[|conv| - 1].content
  {
    if |conv| == 0 then Failure(EmptyConversation) else Success(conv[|conv| - 1].content)
  }

  /** The message list handed to the completion service. */
  function Assemble(systemPrompt: string, conv: seq<Message>, resultString: string): (r: Result<seq<Message>, Fault>)
    ensures r.Success? <==> |conv| > 0
    ensures r.Failure? ==> r.error == EmptyConversation
    ensures r.Success? ==> |r.value| == |conv| + 1
    ensures r.Success? ==> r.value[0] == Message(SystemRole, systemPrompt)
    ensures r.Success? ==> forall i :: 0 <= i < |conv| - 1 ==> r.value[i + 1] == conv[i]
    ensures r.Success? ==> r.value[|conv|].role == UserRole
    ensures r.Success? ==> r.value[|conv|].content == conv[|conv| - 1].content + resultString
  {
    if |conv| == 0 then Failure(EmptyConversation)
    else
      var lastMessage := conv[|conv| - 1];
      var lastMessageContent := lastMessage.content + resultString;
      var history := conv[..|conv| - 1];
      Success([Message(SystemRole, systemPrompt)] + history + [Message(UserRole, lastMessageContent)])
  }

  /** Reads an assembled message list back into the conversation it came
      from: strips the system message and the retrieval context. The last
      turn's original role is not recoverable, so it reads as the user's. */
  function Disassemble(messages: seq<Message>, resultString: string): Option<seq<Message>> {
    if |messages| < 2 then None
    else
      var last := messages[|messages| - 1];
      var n := |last.content| - |resultString|;
      if messages[0].role == SystemRole && last.role == UserRole && n >= 0
         && last.content[n..] == resultString
      then Some(messages[1..|messages| - 1] + [Message(UserRole, last.content[..n])])
      else None
  }

  /** The conversation as the completion service sees it: the same turns,
      with the last one spoken by the user. */
  function AsUserTurn(conv: seq<Message>): seq<Message>
    requires |conv| > 0
  {
    conv[..|conv| - 1] + [Message(UserRole, conv[|conv| - 1].content)]
  }

  /** Nothing is lost in assembly except the role of the last turn: the earlier
      turns and the query text are read back exactly. */
  lemma AssembleRoundTrip(systemPrompt: string, conv: seq<Message>, resultString: string)
    requires |conv| > 0
    ensures Disassemble(Assemble(systemPrompt, conv, resultString).value, resultString) == Some(AsUserTurn(conv))
  {
    var out := Assemble(systemPrompt, conv, resultString).value;
    var last := out[|out| - 1];
    var q := conv[|conv| - 1].content;
    assert last.content == q + resultString;
    assert last.content[|q|..] == resultString;
    assert last.content[..|q|] == q;
    assert out[1..|out| - 1] == conv[..|conv| - 1];
  }

  /** Two conversations give the same message list exactly when they agree on
      every turn but the last, and on the last turn's text. */
  lemma AssembleSameExactly(systemPrompt: string, a: seq<Message>, b: seq<Message>, resultString: string)
    requires |a| > 0 && |b| > 0
    ensures Assemble(systemPrompt, a, resultString) == Assemble(systemPrompt, b, resultString)
        <==> a[..|a| - 1] == b[..|b| - 1] && a[|a| - 1].content == b[|b| - 1].content
  {
    if Assemble(systemPrompt, a, resultString) == Assemble(systemPrompt, b, resultString) {
      AssembleRoundTrip(systemPrompt, a, resultString);
      AssembleRoundTrip(systemPrompt, b, resultString);
      var x, y := AsUserTurn(a), AsUserTurn(b);
      assert x == y;
      assert a[..|a| - 1] == x[..|x| - 1];
      assert b[..|b| - 1] == y[..|y| - 1];
      assert a[|a| - 1].content == x[|x| - 1].content;
    }
  }

  /** The text embedded for retrieval is the query the final message starts
      with, and the retrieval context follows it with nothing in between. */
  lemma QueryLeadsFinalMessage(systemPrompt: string, conv: seq<Message>, resultString: string)
    requires |conv| > 0
    ensures var out := Assemble(systemPrompt, conv, resultString).value;
            var q := QueryText(conv).value;
            && q <= out[|out| - 1].content
            && out[|out| - 1].content[|q|..] == resultString
  {
    var out := Assemble(systemPrompt, conv, resultString).value;
    var q := QueryText(conv).value;
    assert out[|out| - 1].content == q + resultString;
    assert (q + resultString)[|q|..] == resultString;
  }
}
