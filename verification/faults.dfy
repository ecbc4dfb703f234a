/** The errors the chat handler can raise or hand to its output stream. */
module Faults {

  datatype Fault =
      /** `data[data.length - 1].content` on an empty conversation: reading a
          property of `undefined` raises a TypeError. */
    | EmptyConversation
      /** `match.metadata.review` on a match whose metadata is absent. */
    | MissingMetadata(matchIndex: nat)
      /** `chunk.choices[0]` on a completion chunk without a `choices` array. */
    | MissingChoices(chunkIndex: nat)
      /** `controller.close()` on a stream that is no longer readable. */
    | StreamNotReadable
      /** A failure reported by one of the remote services (embedding, vector
          index or completion), carried through unchanged. */
    | ProviderError(detail: string)
}
