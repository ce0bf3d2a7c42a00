/** Streaming log redaction: records end at a line break, and only whole records
    are released.  How a record is redacted is left open: `redact` answers `None`
    while a secret assignment is still incomplete. */
module LogRedactor {

  import opened Basics

  type Text = seq<byte>

  type Redaction = Text -> Option<Text>

  const RECORD_LIMIT: nat := 128 * 1024
  const NEWLINE: byte := 10
  const RETURN: byte := 13

  /** "[oversized log record omitted]\n" */
  const TRUNCATED: Text :=
    [91, 111, 118, 101, 114, 115, 105, 122, 101, 100, 32, 108, 111, 103, 32, 114, 101, 99, 111, 114, 100, 32,
     111, 109, 105, 116, 116, 101, 100, 93, 10]

  /** "[incomplete secret-bearing log record omitted]\n" */
  const INCOMPLETE: Text :=
    [91, 105, 110, 99, 111, 109, 112, 108, 101, 116, 101, 32, 115, 101, 99, 114, 101, 116, 45, 98, 101,
     97, 114, 105, 110, 103, 32, 108, 111, 103, 32, 114, 101, 99, 111, 114, 100, 32, 111, 109, 105, 116,
     116, 101, 100, 93, 10]

  predicate IsBreak(b: byte) {
    b == NEWLINE || b == RETURN
  }

  datatype State = State(pending: Text, failed: bool)

  // ---- the reference: one byte at a time ------------------------------------------------

  datatype Result = Result(state: State, output: Text)

  function FeedByte(redact: Redaction, s: State, b: byte): Result {
    if s.failed then Result(s, [])
    else if |s.pending| + 1 > RECORD_LIMIT then Result(State([], true), TRUNCATED)
    else
      var record := s.pending + [b];
      if IsBreak(b) && redact(record).Some? then Result(State([], false), redact(record).value)
      else Result(State(record, false), [])
  }

  function Feed(redact: Redaction, s: State, text: Text): Result {
    if text == [] then Result(s, [])
    else
      var init := Feed(redact, s, text[..|text| - 1]);
      var last := FeedByte(redact, init.state, text[|text| - 1]);
      Result(last.state, init.output + last.output)
  }

  /** Feeding is independent of how the text is cut. */
  lemma {:induction false} FeedConcat(redact: Redaction, s: State, a: Text, b: Text)
    ensures var first := Feed(redact, s, a);
            var second := Feed(redact, first.state, b);
            Feed(redact, s, a + b) == Result(second.state, first.output + second.output)
    decreases |b|
  {
    if b == [] {
      assert a + b == a;
      assert Feed(redact, s, a).output + [] == Feed(redact, s, a).output;
    } else {
      var n := |b| - 1;
      assert (a + b)[..|a + b| - 1] == a + b[..n];
      FeedConcat(redact, s, a, b[..n]);
      var first := Feed(redact, s, a);
      var middle := Feed(redact, first.state, b[..n]);
      var last := FeedByte(redact, middle.state, b[n]);
      assert first.output + middle.output + last.output == first.output + (middle.output + last.output);
    }
  }

  lemma {:induction false} FailedStaysSilent(redact: Redaction, s: State, text: Text)
    requires s.failed
    ensures Feed(redact, s, text) == Result(s, [])
  {
    if text != [] { FailedStaysSilent(redact, s, text[..|text| - 1]); }
  }

  /** Once it has failed, the rest of the text is neither kept nor released. */
  lemma {:induction false} SilentTail(redact: Redaction, s: State, text: Text, n: nat)
    requires n <= |text| && Feed(redact, s, text[..n]).state.failed
    ensures Feed(redact, s, text) == Feed(redact, s, text[..n])
  {
    var first := Feed(redact, s, text[..n]);
    assert text == text[..n] + text[n..];
    FeedConcat(redact, s, text[..n], text[n..]);
    FailedStaysSilent(redact, first.state, text[n..]);
    assert first.output + [] == first.output;
  }

  /** Any way of cutting a text into chunks gives the same output and state. */
  lemma {:induction false} ChunksDoNotMatter(redact: Redaction, s: State, chunks: seq<Text>, whole: Text)
    requires Flatten(chunks) == whole
    ensures FeedAll(redact, s, chunks) == Feed(redact, s, whole)
    decreases |chunks|
  {
    if chunks != [] {
      var n := |chunks| - 1;
      ChunksDoNotMatter(redact, s, chunks[..n], Flatten(chunks[..n]));
      FeedConcat(redact, s, Flatten(chunks[..n]), chunks[n]);
    }
  }

  function Flatten(chunks: seq<Text>): Text {
    if chunks == [] then [] else Flatten(chunks[..|chunks| - 1]) + chunks[|chunks| - 1]
  }

  /** What successive pushes of `chunks` amount to. */
  function FeedAll(redact: Redaction, s: State, chunks: seq<Text>): Result {
    if chunks == [] then Result(s, [])
    else
      var init := FeedAll(redact, s, chunks[..|chunks| - 1]);
      var last := Feed(redact, init.state, chunks[|chunks| - 1]);
      Result(last.state, init.output + last.output)
  }

  /** A run without line breaks is held back, unless it overflows the limit. */
  lemma {:induction false} FeedUnbroken(redact: Redaction, s: State, text: Text)
    requires !s.failed && |s.pending| <= RECORD_LIMIT && forall b <- text :: !IsBreak(b)
    ensures Feed(redact, s, text) ==
            if |s.pending| + |text| > RECORD_LIMIT then Result(State([], true), TRUNCATED)
            else Result(State(s.pending + text, false), [])
  {
    if text == [] {
      assert s.pending + text == s.pending;
    } else {
      var init, b := text[..|text| - 1], text[|text| - 1];
      FeedUnbroken(redact, s, init);
      assert b in text && TRUNCATED + [] == TRUNCATED;
      assert s.pending + init + [b] == s.pending + text;
    }
  }

  // ---- the parts `push` works on ----------------------------------------------------------

  /** `split_inclusive`: no break inside, one at the end unless the text ran out. */
  predicate IsPart(part: Text) {
    part != [] && forall i :: 0 <= i < |part| - 1 ==> !IsBreak(part[i])
  }

  /** One part pushed at once does what its bytes do one by one. */
  lemma {:induction false} FeedPart(redact: Redaction, s: State, part: Text)
    requires !s.failed && |s.pending| <= RECORD_LIMIT && IsPart(part)
    ensures Feed(redact, s, part) ==
            if |s.pending| + |part| > RECORD_LIMIT then Result(State([], true), TRUNCATED)
            else if IsBreak(part[|part| - 1]) && redact(s.pending + part).Some?
            then Result(State([], false), redact(s.pending + part).value)
            else Result(State(s.pending + part, false), [])
  {
    var init, b := part[..|part| - 1], part[|part| - 1];
    FeedUnbroken(redact, s, init);
    assert s.pending + init + [b] == s.pending + part;
    assert TRUNCATED + [] == TRUNCATED;
    if |s.pending| + |part| <= RECORD_LIMIT && IsBreak(b) && redact(s.pending + part).Some? {
      assert [] + redact(s.pending + part).value == redact(s.pending + part).value;
    }
  }

  // ---- whole streams: any pushes, then `finish` ----------------------------------------------

  const START := State([], false)

  /** What `finish` releases. */
  function Rest(redact: Redaction, s: State): Text {
    if redact(s.pending).Some? then redact(s.pending).value else INCOMPLETE
  }

  function Stream(redact: Redaction, text: Text): Text {
    Feed(redact, START, text).output + Rest(redact, Feed(redact, START, text).state)
  }

  /** A failure happens at one byte: what came before is released as usual, then the
      marker, once, and nothing more. */
  lemma {:induction false} FailureMarksOnce(redact: Redaction, s: State, text: Text) returns (n: nat)
    requires !s.failed && Feed(redact, s, text).state.failed
    ensures n < |text| && !Feed(redact, s, text[..n]).state.failed
    ensures Feed(redact, s, text) == Result(State([], true), Feed(redact, s, text[..n]).output + TRUNCATED)
  {
    var init := text[..|text| - 1];
    if Feed(redact, s, init).state.failed {
      n := FailureMarksOnce(redact, s, init);
      assert init[..n] == text[..n];
      assert Feed(redact, s, init).output + [] == Feed(redact, s, init).output;
    } else {
      n := |init|;
      assert text[..n] == init;
    }
  }

  /** After a failure the marker is the last thing the stream emits if and only if
      redacting an empty record gives an empty record. */
  lemma {:induction false} MarkerIsLastIff(redact: Redaction, text: Text)
    requires Feed(redact, START, text).state.failed
    ensures Stream(redact, text) == Feed(redact, START, text).output <==> redact([]) == Some([])
  {
    var n := FailureMarksOnce(redact, START, text);
    var output := Feed(redact, START, text).output;
    assert Stream(redact, text) == output + (if redact([]).Some? then redact([]).value else INCOMPLETE);
    assert output + [] == output;
  }

  /** How many bytes of the text come after its last line feed or carriage return. */
  function Tail(text: Text): (n: nat)
    ensures n <= |text|
  {
    if text == [] || text[|text| - 1] in {10, 13} then 0 else 1 + Tail(text[..|text| - 1])
  }

  /** No record, its line break included, is over the limit. */
  predicate RecordsFit(text: Text) {
    forall n :: 0 <= n < |text| ==> Tail(text[..n]) < RECORD_LIMIT
  }

  ghost predicate KeepsRecords(redact: Redaction) {
    forall t :: redact(t) == Some(t)
  }

  lemma RecordsFitStep(text: Text)
    requires text != []
    ensures RecordsFit(text) <==> RecordsFit(text[..|text| - 1]) && Tail(text[..|text| - 1]) < RECORD_LIMIT
  {
    var init := text[..|text| - 1];
    assert forall n :: 0 <= n < |init| ==> init[..n] == text[..n];
    if RecordsFit(init) && Tail(init) < RECORD_LIMIT {
      forall n | 0 <= n < |text| ensures Tail(text[..n]) < RECORD_LIMIT {
        if n < |init| { assert text[..n] == init[..n]; }
      }
    }
  }

  /** All complete records of the text are out, the rest is pending. */
  function Settled(text: Text): Result {
    Result(State(text[|text| - Tail(text)..], false), text[..|text| - Tail(text)])
  }

  lemma SettledStep(redact: Redaction, text: Text)
    requires KeepsRecords(redact) && text != [] && Tail(text[..|text| - 1]) < RECORD_LIMIT
    ensures var init := Settled(text[..|text| - 1]);
            var last := FeedByte(redact, init.state, text[|text| - 1]);
            Result(last.state, init.output + last.output) == Settled(text)
  {
    var init, b := text[..|text| - 1], text[|text| - 1];
    var cut := |init| - Tail(init);
    assert init[cut..] + [b] == text[cut..];
    assert init[..cut] + text[cut..] == text && init[..cut] + [] == init[..cut] == text[..cut];
    assert text[..|text|] == text && text[|text|..] == [];
  }

  /** With a redaction that changes nothing, every complete record is out as soon as it
      is complete and the rest is pending, if and only if all records fit. */
  lemma {:induction false} ReleasedAtBreaks(redact: Redaction, text: Text)
    requires KeepsRecords(redact)
    ensures RecordsFit(text) <==> !Feed(redact, START, text).state.failed
    ensures RecordsFit(text) ==> Feed(redact, START, text) == Settled(text)
  {
    if text != [] {
      ReleasedAtBreaks(redact, text[..|text| - 1]);
      RecordsFitStep(text);
      if RecordsFit(text) { SettledStep(redact, text); }
    }
  }

  /** Then the whole text comes out, its unterminated last line included. */
  lemma NothingIsLost(redact: Redaction, text: Text)
    requires KeepsRecords(redact) && RecordsFit(text)
    ensures Stream(redact, text) == text
  {
    ReleasedAtBreaks(redact, text);
    var cut := |text| - Tail(text);
    assert text[..cut] + text[cut..] == text;
  }

  /** What may be emitted: a marker, or something the redaction gave back. */
  ghost predicate Cleared(redact: Redaction, piece: Text) {
    piece == TRUNCATED || piece == INCOMPLETE || exists t :: redact(t) == Some(piece)
  }

  ghost predicate AllCleared(redact: Redaction, pieces: seq<Text>) {
    forall piece <- pieces :: Cleared(redact, piece)
  }

  lemma {:induction false} FeedEmitsCleared(redact: Redaction, s: State, text: Text) returns (pieces: seq<Text>)
    ensures Flatten(pieces) == Feed(redact, s, text).output && AllCleared(redact, pieces)
  {
    pieces := [];
    if text != [] {
      pieces := FeedEmitsCleared(redact, s, text[..|text| - 1]);
      var init := Feed(redact, s, text[..|text| - 1]);
      var last := FeedByte(redact, init.state, text[|text| - 1]);
      if last.output == [] {
        assert init.output + [] == init.output;
      } else {
        assert (pieces + [last.output])[..|pieces|] == pieces;
        pieces := pieces + [last.output];
      }
    }
  }

  /** For any redaction, a stream emits nothing but what the redaction gave back, and the
      two markers: no text it held back ever gets out. */
  lemma OnlyClearedText(redact: Redaction, text: Text) returns (pieces: seq<Text>)
    ensures Flatten(pieces) == Stream(redact, text) && AllCleared(redact, pieces)
  {
    pieces := FeedEmitsCleared(redact, START, text);
    var rest := Rest(redact, Feed(redact, START, text).state);
    assert (pieces + [rest])[..|pieces|] == pieces;
    pieces := pieces + [rest];
  }

  class Redactor {
    const redact: Redaction
    var pending: Text
    var failed: bool

    ghost function S(): State
      reads this
    {
      State(pending, failed)
    }

    /** Pending text never exceeds the limit, and a failure leaves none. */
    ghost predicate Valid()
      reads this
    {
      |pending| <= RECORD_LIMIT && (failed ==> pending == [])
    }

    constructor (redact: Redaction)
      ensures Valid() && S() == State([], false) && this.redact == redact
    {
      this.redact, pending, failed := redact, [], false;
    }

    /** Pushing a text, whatever its parts, is feeding it byte by byte. */
    method Push(text: Text) returns (output: Text)
      requires Valid()
      modifies this`pending, this`failed
      ensures Valid() && Result(S(), output) == Feed(redact, old(S()), text)
    {
      output := [];
      var start: nat := 0;
      while start < |text|
        invariant start <= |text| && Valid()
        invariant Result(S(), output) == Feed(redact, old(S()), text[..start])
        decreases |text| - start
      {
        var end := PartEnd(text, start);
        var part := text[start..end];
        assert text[..start] + part == text[..end];
        FeedConcat(redact, old(S()), text[..start], part);
        if failed {
          SilentTail(redact, old(S()), text, start);
          return;
        }
        FeedPart(redact, S(), part);
        if |pending| + |part| > RECORD_LIMIT {
          pending, failed := [], true;
          output := output + TRUNCATED;
          SilentTail(redact, old(S()), text, end);
          return;
        }
        pending := pending + part;
        var complete := IsBreak(part[|part| - 1]);
        if complete && redact(pending).Some? {
          output := output + redact(pending).value;
          pending := [];
        } else {
          assert output + [] == output;
        }
        start := end;
      }
      assert text[..start] == text;
    }

    /** Releases what is left, or a marker if a secret is still incomplete. */
    method Finish() returns (output: Text)
      modifies this`pending
      ensures S() == State([], old(failed)) && output == Rest(redact, old(S()))
    {
      var last := pending;
      pending := [];
      output := if redact(last).Some? then redact(last).value else INCOMPLETE;
    }

    /** The end of the part that begins at `start`. */
    method PartEnd(text: Text, start: nat) returns (end: nat)
      requires start < |text|
      ensures start < end <= |text| && IsPart(text[start..end])
      ensures end == |text| || IsBreak(text[end - 1])
    {
      end := start + 1;
      while end < |text| && !IsBreak(text[end - 1])
        invariant start < end <= |text|
        invariant forall i :: start <= i < end - 1 ==> !IsBreak(text[i])
      {
        end := end + 1;
      }
    }
  }

  /** How the daemon collects a container's log: chunks are pushed until they end or
      one fails, then the rest is released.  The output is that of the whole text,
      however it was cut, chunks left unread after a failure included. */
  method Collect(redact: Redaction, chunks: seq<Text>) returns (output: Text)
    ensures output == Stream(redact, Flatten(chunks))
  {
    var redactor := new Redactor(redact);
    output := [];
    var i := 0;
    assert chunks[..0] == [];
    while i < |chunks| && !redactor.failed
      invariant i <= |chunks| && redactor.Valid() && redactor.redact == redact && fresh(redactor)
      invariant Result(redactor.S(), output) == Feed(redact, START, Flatten(chunks[..i]))
    {
      var safe := redactor.Push(chunks[i]);
      FeedConcat(redact, START, Flatten(chunks[..i]), chunks[i]);
      assert chunks[..i + 1][..i] == chunks[..i];
      output := output + safe;
      i := i + 1;
    }
    if redactor.failed {
      UnreadIsSilent(redact, chunks, i);
    } else {
      assert chunks[..i] == chunks;
    }
    var rest := redactor.Finish();
    output := output + rest;
  }

  lemma {:induction false} UnreadIsSilent(redact: Redaction, chunks: seq<Text>, i: nat)
    requires i <= |chunks| && Feed(redact, START, Flatten(chunks[..i])).state.failed
    ensures Feed(redact, START, Flatten(chunks)) == Feed(redact, START, Flatten(chunks[..i]))
    decreases |chunks| - i
  {
    if i == |chunks| {
      assert chunks[..i] == chunks;
    } else {
      var read, next := Flatten(chunks[..i]), Flatten(chunks[..i + 1]);
      assert chunks[..i + 1][..i] == chunks[..i];
      assert next == read + chunks[i] && next[..|read|] == read;
      SilentTail(redact, START, next, |read|);
      UnreadIsSilent(redact, chunks, i + 1);
    }
  }
}
