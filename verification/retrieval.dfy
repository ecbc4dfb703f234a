/**
  The retrieval context: the vector index's matches folded into the
  `resultString` that is appended to the user's query.
 */
module Retrieval {
  import opened Results
  import opened Faults
  import opened JsValues

  /** The metadata a professor-review record carries in the index. */
  datatype Metadata = Metadata(review: Field, subject: Field, stars: Field)

  /** One match of the similarity query; `metadata` is absent when the record has none. */
  datatype Match = Match(id: string, metadata: Option<Metadata>)

  /** The four texts that one block shows for a match. */
  datatype Entry = Entry(professor: string, review: string, subject: string, stars: string)

  const Header: string := "\n\nReturned results from vector db (done automatically): "

  // The fixed text around the interpolated values of one block.
  const ProfessorLabel: string := "\n\n    Professor: "
  const ReviewLabel: string := "\n    Review: "
  const SubjectLabel: string := "\n    Subject: "
  const StarsLabel: string := "\n    Stars: "
  const Trailer: string := "\n    \n\n\n    "

  function EntryOf(id: string, md: Metadata): Entry {
    Entry(id, Stringify(md.review), Stringify(md.subject), Stringify(md.stars))
  }

  /** The template text added for one match. */
  function Block(e: Entry): (r: string)
    ensures |r| == BlockLength(e)
    ensures ProfessorLabel + e.professor + ReviewLabel <= r
  {
    ProfessorLabel + e.professor + ReviewLabel + e.review + SubjectLabel + e.subject
      + StarsLabel + e.stars + Trailer
  }

  /** The blocks of several matches, appended in match order. */
  function Blocks(es: seq<Entry>): string {
    if |es| == 0 then "" else Blocks(es[..|es| - 1]) + Block(es[|es| - 1])
  }

  predicate HasMetadata(ms: seq<Match>) {
    forall i :: 0 <= i < |ms| ==> ms[i].metadata.Some?
  }

  function Entries(ms: seq<Match>): (es: seq<Entry>)
    requires HasMetadata(ms)
    ensures |es| == |ms|
    ensures forall i :: 0 <= i < |ms| ==> es[i] == EntryOf(ms[i].id, ms[i].metadata.value)
  {
    if |ms| == 0 then []
    else
      var m := ms[|ms| - 1];
      assert HasMetadata(ms[..|ms| - 1]);
      Entries(ms[..|ms| - 1]) + [EntryOf(m.id, m.metadata.value)]
  }

  /** The first match whose metadata is absent, which is where `forEach` throws. */
  function FirstMissing(ms: seq<Match>): (r: Option<nat>)
    ensures r.None? <==> HasMetadata(ms)
    ensures r.Some? ==> r.value < |ms| && ms[r.value].metadata.None? && HasMetadata(ms[..r.value])
  {
    if |ms| == 0 then None
    else if ms[0].metadata.None? then Some(0)
    else
      match FirstMissing(ms[1..])
      case None => None
      case Some(i) =>
        assert ms[..i + 1] == [ms[0]] + ms[1..][..i];
        Some(i + 1)
  }

  /** The `resultString` built from the matches, or the TypeError raised by
      the first match that has no metadata. */
  function FormatResults(ms: seq<Match>): (r: Result<string, Fault>)
    ensures r.Success? <==> HasMetadata(ms)
    ensures r.Failure? ==>
      (exists i :: 0 <= i < |ms| && r.error == MissingMetadata(i) && ms[i].metadata.None? && HasMetadata(ms[..i]))
    ensures r.Success? ==> Header <= r.value
    ensures |ms| == 0 ==> r == Success(Header)
  {
    match FirstMissing(ms)
    case Some(i) => Failure(MissingMetadata(i))
    case None =>
      assert Header + Blocks([]) == Header;
      Success(Header + Blocks(Entries(ms)))
  }

  /** The handler's loop: start from the header and append one block per
      match, in match order. */
  method BuildResultString(matches: seq<Match>) returns (r: Result<string, Fault>)
    ensures r == FormatResults(matches)
  {
    var acc := Header;
    var i := 0;
    while i < |matches|
      invariant 0 <= i <= |matches|
      invariant HasMetadata(matches[..i])
      invariant acc == Header + Blocks(Entries(matches[..i]))
    {
      var m := matches[i];
      if m.metadata.None? {
        FormatStopsAt(matches, i);
        return Failure(MissingMetadata(i));
      }
      AppendBlock(matches, i);
      acc := acc + Block(EntryOf(m.id, m.metadata.value));
      i := i + 1;
    }
    assert matches[..i] == matches;
    FormatSucceeds(matches);
    return Success(acc);
  }

  /** Appending the block of match `i` extends the result string by one match. */
  lemma AppendBlock(ms: seq<Match>, i: nat)
    requires i < |ms| && HasMetadata(ms[..i]) && ms[i].metadata.Some?
    ensures HasMetadata(ms[..i + 1])
    ensures Header + Blocks(Entries(ms[..i])) + Block(EntryOf(ms[i].id, ms[i].metadata.value))
         == Header + Blocks(Entries(ms[..i + 1]))
  {
    assert ms[..i + 1] == ms[..i] + [ms[i]];
    assert ms[..i + 1][..i] == ms[..i];
    var e := EntryOf(ms[i].id, ms[i].metadata.value);
    assert Entries(ms[..i + 1]) == Entries(ms[..i]) + [e];
    BlocksSnoc(Entries(ms[..i]), e);
    Associative(Header, Blocks(Entries(ms[..i])), Block(e));
  }

  lemma FormatSucceeds(ms: seq<Match>)
    requires HasMetadata(ms)
    ensures FormatResults(ms) == Success(Header + Blocks(Entries(ms)))
  {
  }

  lemma FormatStopsAt(ms: seq<Match>, i: nat)
    requires i < |ms| && ms[i].metadata.None? && HasMetadata(ms[..i])
    ensures FormatResults(ms) == Failure(MissingMetadata(i))
  {
    FirstMissingIsUnique(ms, i);
  }

  lemma FirstMissingIsUnique(ms: seq<Match>, i: nat)
    requires i < |ms| && ms[i].metadata.None? && HasMetadata(ms[..i])
    ensures FirstMissing(ms) == Some(i)
  {
    assert !HasMetadata(ms);
  }

  // ---------------------------------------------------------------------------
  // Structure of the result string.

  lemma {:induction false} BlocksConcat(a: seq<Entry>, b: seq<Entry>)
    ensures Blocks(a + b) == Blocks(a) + Blocks(b)
    decreases |b|
  {
    if |b| == 0 {
      assert a + b == a;
    } else {
      var init, e := b[..|b| - 1], b[|b| - 1];
      assert a + b == (a + init) + [e];
      BlocksSnoc(a + init, e);
      BlocksConcat(a, init);
      Associative(Blocks(a), Blocks(init), Block(e));
    }
  }

  lemma BlocksSnoc(es: seq<Entry>, e: Entry)
    ensures Blocks(es + [e]) == Blocks(es) + Block(e)
  {
    assert (es + [e])[..|es|] == es;
  }

  lemma BlocksSingle(e: Entry)
    ensures Blocks([e]) == Block(e)
  {
    assert [e][..0] == [];
  }

  /** The block of match `i` follows the blocks of the matches before it and
      precedes the blocks of the matches after it. */
  lemma BlockAt(es: seq<Entry>, i: nat)
    requires i < |es|
    ensures Blocks(es) == Blocks(es[..i]) + Block(es[i]) + Blocks(es[i + 1..])
  {
    var pre, rest := es[..i], es[i + 1..];
    SplitThree(es, i);
    BlocksConcat(pre + [es[i]], rest);
    BlocksSnoc(pre, es[i]);
  }

  lemma SplitThree(es: seq<Entry>, i: nat)
    requires i < |es|
    ensures es == es[..i] + [es[i]] + es[i + 1..]
  {
  }

  lemma Associative(a: string, b: string, c: string)
    ensures a + (b + c) == a + b + c
  {
  }

  function BlockLength(e: Entry): nat {
    |ProfessorLabel| + |e.professor| + |ReviewLabel| + |e.review| + |SubjectLabel| + |e.subject|
      + |StarsLabel| + |e.stars| + |Trailer|
  }

  function TotalBlockLength(es: seq<Entry>): nat {
    if |es| == 0 then 0 else TotalBlockLength(es[..|es| - 1]) + BlockLength(es[|es| - 1])
  }

  /** The result string is as long as the header plus the sum of the block lengths. */
  lemma {:induction false} ResultStringLength(ms: seq<Match>)
    requires HasMetadata(ms)
    ensures |FormatResults(ms).value| == |Header| + TotalBlockLength(Entries(ms))
  {
    BlocksLength(Entries(ms));
  }

  lemma {:induction false} BlocksLength(es: seq<Entry>)
    ensures |Blocks(es)| == TotalBlockLength(es)
  {
    if |es| > 0 {
      BlocksLength(es[..|es| - 1]);
    }
  }

  // ---------------------------------------------------------------------------
  // Reading the result string back: an independent description of what each
  // block carries.

  /** The longest prefix of `s` without a line break. */
  function Line(s: string): (v: string)
    ensures v <= s && '\n' !in v
    ensures |v| < |s| ==> s[|v|] == '\n'
  {
    if |s| == 0 || s[0] == '\n' then "" else [s[0]] + Line(s[1..])
  }

  /** Reads `tag` and the rest of its line; yields that text and what follows. */
  function ReadField(s: string, tag: string): (r: Option<(string, string)>)
    ensures r.Some? ==> s == tag + r.value.0 + r.value.1
  {
    if tag <= s then
      var t := s[|tag|..];
      var v := Line(t);
      assert t == v + t[|v|..];
      Some((v, t[|v|..]))
    else None
  }

  function ParseBlock(s: string): (r: Option<(Entry, string)>)
    ensures r.Some? ==> |r.value.1| < |s|
  {
    var p :- ReadField(s, ProfessorLabel);
    var rv :- ReadField(p.1, ReviewLabel);
    var sj :- ReadField(rv.1, SubjectLabel);
    var st :- ReadField(sj.1, StarsLabel);
    if Trailer <= st.1 then Some((Entry(p.0, rv.0, sj.0, st.0), st.1[|Trailer|..])) else None
  }

  function ParseBlocks(s: string): Option<seq<Entry>>
    decreases |s|
  {
    if |s| == 0 then Some([])
    else
      var b :- ParseBlock(s);
      var rest :- ParseBlocks(b.1);
      Some([b.0] + rest)
  }

  /** Recovers the entries shown in a result string. */
  function ParseResults(s: string): Option<seq<Entry>> {
    if Header <= s then ParseBlocks(s[|Header|..]) else None
  }

  predicate SingleLine(e: Entry) {
    '\n' !in e.professor && '\n' !in e.review && '\n' !in e.subject && '\n' !in e.stars
  }

  lemma {:induction false} LineOf(v: string, rest: string)
    requires '\n' !in v
    requires |rest| == 0 || rest[0] == '\n'
    ensures Line(v + rest) == v
  {
    if |v| > 0 {
      assert (v + rest)[1..] == v[1..] + rest;
      LineOf(v[1..], rest);
      assert [v[0]] + v[1..] == v;
    }
  }

  lemma ReadFieldOf(tag: string, v: string, rest: string)
    requires '\n' !in v
    requires |rest| == 0 || rest[0] == '\n'
    ensures ReadField(tag + v + rest, tag) == Some((v, rest))
  {
    var s := tag + v + rest;
    assert tag <= s;
    assert s[|tag|..] == v + rest;
    LineOf(v, rest);
    assert (v + rest)[|v|..] == rest;
  }

  lemma ParseBlockOf(e: Entry, rest: string)
    requires SingleLine(e)
    ensures ParseBlock(Block(e) + rest) == Some((e, rest))
  {
    var t4 := Trailer + rest;
    var s4 := StarsLabel + e.stars + t4;
    var s3 := SubjectLabel + e.subject + s4;
    var s2 := ReviewLabel + e.review + s3;
    var s1 := ProfessorLabel + e.professor + s2;
    assert Block(e) + rest == s1;
    ReadFieldOf(ProfessorLabel, e.professor, s2);
    ReadFieldOf(ReviewLabel, e.review, s3);
    ReadFieldOf(SubjectLabel, e.subject, s4);
    ReadFieldOf(StarsLabel, e.stars, t4);
    assert t4[|Trailer|..] == rest;
  }

  lemma {:induction false} ParseBlocksOf(es: seq<Entry>)
    requires forall i :: 0 <= i < |es| ==> SingleLine(es[i])
    ensures ParseBlocks(Blocks(es)) == Some(es)
  {
    if |es| > 0 {
      var rest := es[1..];
      assert es == [es[0]] + rest;
      BlocksConcat([es[0]], rest);
      BlocksSingle(es[0]);
      ParseBlockOf(es[0], Blocks(rest));
      ParseBlocksOf(rest);
    }
  }

  /** When no rendered value spans a line break, the result string can be read
      back into exactly the matches' entries, one per match, in match order. */
  lemma ResultStringRoundTrip(ms: seq<Match>)
    requires HasMetadata(ms)
    requires forall i :: 0 <= i < |ms| ==> SingleLine(EntryOf(ms[i].id, ms[i].metadata.value))
    ensures ParseResults(FormatResults(ms).value) == Some(Entries(ms))
  {
    var s := Header + Blocks(Entries(ms));
    assert s[|Header|..] == Blocks(Entries(ms));
    ParseBlocksOf(Entries(ms));
  }
}
