/**
  The POST handler end to end, with the remote services' answers given as
  inputs: which requests it sends, in which order, and what it returns.
 */
module Handler {
  import opened Results
  import opened Faults
  import opened Retrieval
  import opened Prompt
  import opened StreamRelay
  import opened JsValues

  const EmbeddingModel: string := "text-embedding-3-small"
  const EncodingFormat: string := "float"
  const IndexName: string := "rag"
  const Namespace: string := "ns1"
  const TopK: nat := 3
  const CompletionModel: string := "gpt-4o-mini"

  /** A request the handler sends to a remote service. */
  datatype Call =
    | Embed(model: string, input: string, encodingFormat: string)
    | Search(index: string, namespace: string, topK: nat, includeMetadata: bool)
    | Complete(model: string, messages: seq<Message>, stream: bool)

  /** The remote services' answers. `embeddingError` holds the failure of the
      embedding request, if it failed; the vector itself is not modelled. */
  datatype Services = Services(
    embeddingError: Option<string>,
    search: Result<seq<Match>, string>,
    completion: Result<Upstream, string>)

  /** The requests sent, in order, and the handler's outcome: the streamed
      response, or the error that rejects the request before it is sent. */
  datatype Exchange = Exchange(calls: seq<Call>, response: Result<Run, Fault>)

  /** Retrieval succeeded and every match can be formatted, so the
      completion request is sent. */
  predicate ReachesCompletion(conv: seq<Message>, services: Services) {
    && |conv| > 0
    && services.embeddingError.None?
    && services.search.Success?
    && HasMetadata(services.search.value)
  }

  function Post(systemPrompt: string, conv: seq<Message>, services: Services): (x: Exchange)
    ensures x.calls == [] <==> |conv| == 0
    ensures |conv| == 0 ==> x.response == Failure(EmptyConversation)
    ensures |conv| > 0 ==> x.calls[0] == Embed(EmbeddingModel, conv[|conv| - 1].content, EncodingFormat)
    ensures forall i :: 0 < i < |x.calls| ==> !x.calls[i].Embed?
    ensures |x.calls| >= 2 <==> |conv| > 0 && services.embeddingError.None?
    ensures |x.calls| >= 2 ==> x.calls[1] == Search(IndexName, Namespace, 3, true)
    ensures |conv| > 0 && services.embeddingError.Some? ==>
      x.response == Failure(ProviderError(services.embeddingError.value))
    ensures |conv| > 0 && services.embeddingError.None? && services.search.Failure? ==>
      x.response == Failure(ProviderError(services.search.error))
    ensures |conv| > 0 && services.embeddingError.None? && services.search.Success?
            && !HasMetadata(services.search.value) ==>
      x.response == Failure(FormatResults(services.search.value).error)
    ensures ReachesCompletion(conv, services) && services.completion.Failure? ==>
      x.response == Failure(ProviderError(services.completion.error))
    ensures |x.calls| <= 3
    ensures |x.calls| == 3 <==> ReachesCompletion(conv, services)
    ensures |x.calls| == 3 ==>
      && x.calls[2].Complete?
      && x.calls[2] == Complete(CompletionModel, x.calls[2].messages, true)
      && x.calls[2].messages
         == Assemble(systemPrompt, conv, FormatResults(services.search.value).value).value
    ensures x.response.Success? <==> ReachesCompletion(conv, services) && services.completion.Success?
    ensures x.response.Success? ==> x.response.value == Relay(services.completion.value)
  {
    match QueryText(conv)
    case Failure(e) => Exchange([], Failure(e))
    case Success(text) =>
      var embed := Embed(EmbeddingModel, text, EncodingFormat);
      if services.embeddingError.Some? then Exchange([embed], Failure(ProviderError(services.embeddingError.value)))
      else
        var search := Search(IndexName, Namespace, TopK, true);
        match services.search
        case Failure(detail) => Exchange([embed, search], Failure(ProviderError(detail)))
        case Success(matches) =>
          match FormatResults(matches)
          case Failure(e) => Exchange([embed, search], Failure(e))
          case Success(resultString) =>
            var messages := Assemble(systemPrompt, conv, resultString).value;
            var complete := Complete(CompletionModel, messages, true);
            match services.completion
            case Failure(detail) => Exchange([embed, search, complete], Failure(ProviderError(detail)))
            case Success(up) => Exchange([embed, search, complete], Success(Relay(up)))
  }

  /** The query text that is embedded opens the final message the completion
      service receives, and the formatted matches follow it directly. */
  lemma EmbeddedQueryOpensFinalMessage(systemPrompt: string, conv: seq<Message>, services: Services)
    requires ReachesCompletion(conv, services)
    ensures var x := Post(systemPrompt, conv, services);
            var final := x.calls[2].messages[|x.calls[2].messages| - 1];
            var query := x.calls[0].input;
            && query <= final.content
            && final.content[|query|..] == FormatResults(services.search.value).value
  {
    QueryLeadsFinalMessage(systemPrompt, conv, FormatResults(services.search.value).value);
  }

  /** A worked example: one question and two matches (five and three stars)
      give a two-message completion request. Its final message is the
      question, the header, then the two matches' blocks in retrieval order. */
  lemma TwoMatchExample(systemPrompt: string)
    ensures var question := "Who teaches calculus well?";
            var a := Match("ProfA", Some(Metadata(Text("Clear"), Text("Calculus"), Number(5))));
            var b := Match("ProfB", Some(Metadata(Text("Fast"), Text("Calculus II"), Number(3))));
            var services := Services(None, Success([a, b]), Failure("unused"));
            var x := Post(systemPrompt, [Message(UserRole, question)], services);
            && |x.calls| == 3
            && |x.calls[2].messages| == 2
            && x.calls[2].messages[1].content
               == question + Header
                  + Block(Entry("ProfA", "Clear", "Calculus", "5"))
                  + Block(Entry("ProfB", "Fast", "Calculus II", "3"))
  {
    var a := Match("ProfA", Some(Metadata(Text("Clear"), Text("Calculus"), Number(5))));
    var b := Match("ProfB", Some(Metadata(Text("Fast"), Text("Calculus II"), Number(3))));
    var ms := [a, b];
    assert Entries(ms) == [Entry("ProfA", "Clear", "Calculus", "5"), Entry("ProfB", "Fast", "Calculus II", "3")] by {
      assert ms[..1] == [a];
      assert NatToDecimal(5) == "5";
      assert NatToDecimal(3) == "3";
    }
    var e := Entries(ms);
    assert e[..1] == [e[0]];
    BlocksSingle(e[0]);
  }
}
