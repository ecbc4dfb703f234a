/**
  The relay from the completion provider's chunk stream to the response
  stream: every present, non-empty text delta is forwarded in receipt
  order; an error stops forwarding and errors the response stream; the
  stream is closed in `finally`.
 */
module StreamRelay {
  import opened Results
  import opened Faults

  /** The incremental part of a completion choice; `content` is absent on
      control chunks (role announcements, finish reasons). */
  datatype Delta = Delta(content: Option<string>)
  datatype Choice = Choice(delta: Option<Delta>)
  /** One chunk from the provider; `choices` is absent on a malformed chunk. */
  datatype Chunk = Chunk(choices: Option<seq<Choice>>)

  /** How the provider's sequence ends: normally, or by raising an error. */
  datatype Ending = Finished | Raised(detail: string)
  datatype Upstream = Upstream(chunks: seq<Chunk>, ending: Ending)

  // ---------------------------------------------------------------------------
  // The response stream's controller, after the WHATWG Streams standard
  // (ReadableStreamDefaultController): enqueue and close throw a TypeError
  // once the stream has left the readable state; error does nothing then.

  datatype StreamState = Readable | Closed | Errored(reason: Fault)

  /** `enqueued` lists every chunk handed to `enqueue`, in order. */
  datatype Controller = Controller(enqueued: seq<string>, state: StreamState)

  function Enqueue(c: Controller, chunk: string): (r: Result<Controller, Fault>)
    ensures r.Success? <==> c.state == Readable
    ensures r.Success? ==> r.value == Controller(c.enqueued + [chunk], Readable)
  {
    if c.state == Readable then Success(c.(enqueued := c.enqueued + [chunk])) else Failure(StreamNotReadable)
  }

  function Error(c: Controller, e: Fault): (r: Controller)
    ensures r.enqueued == c.enqueued
    ensures r.state == (if c.state == Readable then Errored(e) else c.state)
  {
    if c.state == Readable then c.(state := Errored(e)) else c
  }

  function Close(c: Controller): (r: Result<Controller, Fault>)
    ensures r.Success? <==> c.state == Readable
    ensures r.Success? ==> r.value == Controller(c.enqueued, Closed)
  {
    if c.state == Readable then Success(c.(state := Closed)) else Failure(StreamNotReadable)
  }

  // ---------------------------------------------------------------------------
  // Reading one chunk.

  /** `chunk.choices[0]?.delta?.content`, where `chunk.choices[0]` throws when
      `choices` is absent. */
  function Content(c: Chunk, index: nat): (r: Result<Option<string>, Fault>)
    ensures r.Failure? <==> c.choices.None?
    ensures r.Failure? ==> r.error == MissingChoices(index)
  {
    if c.choices.None? then Failure(MissingChoices(index)) else Success(ContentOf(c))
  }

  /** The text of the first choice's delta, when there is one. */
  function ContentOf(c: Chunk): Option<string> {
    if c.choices.None? || |c.choices.value| == 0 || c.choices.value[0].delta.None? then None
    else c.choices.value[0].delta.value.content
  }

  /** `if (content)`: a string is truthy exactly when it is not empty. */
  predicate Truthy(o: Option<string>) {
    o.Some? && |o.value| > 0
  }

  /** What one chunk contributes to the response text. */
  function Text(c: Chunk): string {
    match ContentOf(c)
    case Some(s) => s
    case None => ""
  }

  // ---------------------------------------------------------------------------
  // The relay, stated on sequences.

  /** The chunks' present, non-empty texts in receipt order. */
  function Fragments(cs: seq<Chunk>): (fs: seq<string>)
    ensures |fs| <= |cs|
    ensures forall j :: 0 <= j < |fs| ==> |fs[j]| > 0
  {
    if |cs| == 0 then []
    else
      var last := cs[|cs| - 1];
      Fragments(cs[..|cs| - 1]) + (if Truthy(ContentOf(last)) then [ContentOf(last).value] else [])
  }

  /** The first chunk without `choices`: where the loop throws. */
  function FirstBroken(cs: seq<Chunk>): (r: Option<nat>)
    ensures r.None? <==> forall i :: 0 <= i < |cs| ==> cs[i].choices.Some?
    ensures r.Some? ==> r.value < |cs| && cs[r.value].choices.None?
    ensures r.Some? ==> forall i :: 0 <= i < r.value ==> cs[i].choices.Some?
  {
    if |cs| == 0 then None
    else if cs[0].choices.None? then Some(0)
    else
      match FirstBroken(cs[1..])
      case None => None
      case Some(i) => Some(i + 1)
  }

  /** What the response stream holds once the handler's `start` has finished. */
  datatype Run = Run(emitted: seq<string>, state: StreamState)

  /** The relay: the fragments received before the first error, and the
      state the stream is left in. */
  function Relay(up: Upstream): (r: Run)
    ensures r.state != Readable
    ensures r.state == Closed <==> FirstBroken(up.chunks).None? && up.ending == Finished
    ensures r.emitted <= Fragments(up.chunks)
    ensures r.state == Closed ==> r.emitted == Fragments(up.chunks)
    ensures forall i :: FirstBroken(up.chunks) == Some(i) ==>
      r == Run(Fragments(up.chunks[..i]), Errored(MissingChoices(i)))
    ensures FirstBroken(up.chunks).None? && up.ending.Raised? ==>
      r == Run(Fragments(up.chunks), Errored(ProviderError(up.ending.detail)))
  {
    match FirstBroken(up.chunks)
    case Some(i) =>
      FragmentsAppend(up.chunks[..i], up.chunks[i..]);
      assert up.chunks == up.chunks[..i] + up.chunks[i..];
      Run(Fragments(up.chunks[..i]), Errored(MissingChoices(i)))
    case None =>
      match up.ending
      case Finished => Run(Fragments(up.chunks), Closed)
      case Raised(detail) => Run(Fragments(up.chunks), Errored(ProviderError(detail)))
  }

  /** The handler's `start`: the `for await` loop inside `try`, `error` in
      `catch`, `close` in `finally`. `closeFault` is what `close` throws. */
  method Start(up: Upstream) returns (c: Controller, closeFault: Option<Fault>)
    ensures Run(c.enqueued, c.state) == Relay(up)
    ensures closeFault.Some? <==> c.state.Errored?
  {
    c := Controller([], Readable);
    var thrown: Option<Fault> := None;
    var i := 0;
    while i < |up.chunks|
      invariant 0 <= i <= |up.chunks|
      invariant c.state == Readable
      invariant forall j :: 0 <= j < i ==> up.chunks[j].choices.Some?
      invariant c.enqueued == Fragments(up.chunks[..i])
    {
      var content := Content(up.chunks[i], i);
      if content.Failure? {
        thrown := Some(content.error);
        break;
      }
      assert up.chunks[..i + 1][..i] == up.chunks[..i];
      if Truthy(content.value) {
        // The stream stays readable until the loop ends, so `enqueue` does not throw.
        var next := Enqueue(c, content.value.value);
        c := next.value;
      }
      i := i + 1;
    }
    if thrown.None? {
      assert up.chunks[..i] == up.chunks;
      if up.ending.Raised? {
        thrown := Some(ProviderError(up.ending.detail));
      }
    } else {
      FirstBrokenAt(up.chunks, i);
    }
    if thrown.Some? {
      c := Error(c, thrown.value);
    }
    var closed := Close(c);
    if closed.Success? {
      c := closed.value;
      closeFault := None;
    } else {
      closeFault := Some(closed.error);
    }
  }

  lemma FirstBrokenAt(cs: seq<Chunk>, i: nat)
    requires i < |cs| && cs[i].choices.None?
    requires forall j :: 0 <= j < i ==> cs[j].choices.Some?
    ensures FirstBroken(cs) == Some(i)
  {
  }

  // ---------------------------------------------------------------------------
  // Properties of the relay.

  lemma {:induction false} FragmentsAppend(a: seq<Chunk>, b: seq<Chunk>)
    ensures Fragments(a + b) == Fragments(a) + Fragments(b)
    decreases |b|
  {
    if |b| == 0 {
      assert a + b == a;
    } else {
      var c := a + b;
      assert c[..|c| - 1] == a + b[..|b| - 1];
      FragmentsAppend(a, b[..|b| - 1]);
    }
  }

  function Concat(ss: seq<string>): string {
    if |ss| == 0 then "" else Concat(ss[..|ss| - 1]) + ss[|ss| - 1]
  }

  /** All text the provider produced, absent and empty deltas adding nothing. */
  function Transcript(cs: seq<Chunk>): string {
    if |cs| == 0 then "" else Transcript(cs[..|cs| - 1]) + Text(cs[|cs| - 1])
  }

  /** The forwarded chunks, joined, are exactly the provider's text: nothing
      dropped, reordered or inserted. */
  lemma {:induction false} FragmentsSpellTranscript(cs: seq<Chunk>)
    ensures Concat(Fragments(cs)) == Transcript(cs)
  {
    if |cs| > 0 {
      var init, last := cs[..|cs| - 1], cs[|cs| - 1];
      FragmentsSpellTranscript(init);
      var fs := Fragments(init);
      if Truthy(ContentOf(last)) {
        assert (fs + [ContentOf(last).value])[..|fs|] == fs;
      } else {
        assert Text(last) == "";
        assert fs + [] == fs;
        assert Transcript(init) + "" == Transcript(init);
      }
    }
  }

  /** The indices of the chunks that carry text, in increasing order. */
  function Kept(cs: seq<Chunk>): (ks: seq<nat>)
    ensures forall j :: 0 <= j < |ks| ==> ks[j] < |cs| && Truthy(ContentOf(cs[ks[j]]))
    ensures forall j, k :: 0 <= j < k < |ks| ==> ks[j] < ks[k]
    ensures forall i :: 0 <= i < |cs| && Truthy(ContentOf(cs[i])) ==> i in ks
  {
    if |cs| == 0 then []
    else
      var n := |cs| - 1;
      var init := Kept(cs[..n]);
      assert forall j :: 0 <= j < |init| ==> cs[..n][init[j]] == cs[init[j]];
      assert forall i :: 0 <= i < n ==> cs[..n][i] == cs[i];
      init + (if Truthy(ContentOf(cs[n])) then [n] else [])
  }

  /** The forwarded chunks are the texts of exactly the chunks that carry
      text, one per such chunk, in receipt order. */
  lemma {:induction false} FragmentsSelectKept(cs: seq<Chunk>)
    ensures |Fragments(cs)| == |Kept(cs)|
    ensures forall j :: 0 <= j < |Kept(cs)| ==> Fragments(cs)[j] == ContentOf(cs[Kept(cs)[j]]).value
  {
    if |cs| > 0 {
      var n := |cs| - 1;
      FragmentsSelectKept(cs[..n]);
      var fs, ks := Fragments(cs[..n]), Kept(cs[..n]);
      var all, idx := Fragments(cs), Kept(cs);
      if Truthy(ContentOf(cs[n])) {
        assert all == fs + [ContentOf(cs[n]).value];
        assert idx == ks + [n];
      } else {
        assert all == fs;
        assert idx == ks;
      }
      forall j | 0 <= j < |idx|
        ensures all[j] == ContentOf(cs[idx[j]]).value
      {
        if j < |ks| {
          assert cs[..n][ks[j]] == cs[ks[j]];
        }
      }
    }
  }

  /** Cutting the provider's stream short with an error after `k` chunks
      leaves enqueued exactly what those `k` chunks produced, a prefix of what
      the complete stream would have enqueued, and an errored stream. */
  lemma ErrorKeepsEnqueued(cs: seq<Chunk>, k: nat, detail: string)
    requires k <= |cs|
    requires forall i :: 0 <= i < |cs| ==> cs[i].choices.Some?
    ensures Relay(Upstream(cs[..k], Raised(detail))) == Run(Fragments(cs[..k]), Errored(ProviderError(detail)))
    ensures Relay(Upstream(cs[..k], Raised(detail))).emitted <= Relay(Upstream(cs, Finished)).emitted
  {
    FragmentsAppend(cs[..k], cs[k..]);
    assert cs == cs[..k] + cs[k..];
  }

  /** Once the relay has finished, the stream takes no more chunks. */
  lemma NothingAfterEnd(up: Upstream, chunk: string)
    ensures Enqueue(Controller(Relay(up).emitted, Relay(up).state), chunk).Failure?
  {
  }
}
