/** The receive loop of one typed command: collect output chunk by chunk until
    the last sentinel in the buffer is followed by a digit, cutting the front of
    the buffer off whenever it grows too large. */
module ExecLoop {
  import opened Results
  import opened Search
  import opened TerminalLease
  import opened TerminalTap
  import Base64
  import Utf8

  const KEPT := 2 * MAX_OUTPUT_BYTES

  /** How many chunks the loop reads before it is answered; `None` when the
      chunks run out first (timeout, overflow or a closed tap). */
  function LoopTakes(chunks: seq<string>, sentinel: string, collected: string): Option<nat> {
    if chunks == [] then None
    else
      var grown := collected + chunks[0];
      if LastAnswered(grown, sentinel) then Some(1)
      else
        var rest := LoopTakes(chunks[1..], sentinel, Trim(grown));
        if rest.Some? then Some(rest.value + 1) else None
  }

  /** The same question asked of the whole output, with nothing cut off. */
  function StreamTakes(chunks: seq<string>, sentinel: string, stream: string): (r: Option<nat>)
    ensures r.Some? ==> 1 <= r.value <= |chunks|
  {
    if chunks == [] then None
    else if LastAnswered(stream + chunks[0], sentinel) then Some(1)
    else
      var rest := StreamTakes(chunks[1..], sentinel, stream + chunks[0]);
      if rest.Some? then Some(rest.value + 1) else None
  }

  /** `StreamTakes` is the least number of chunks whose text ends answered. */
  lemma {:induction false} StreamTakesIsLeast(chunks: seq<string>, sentinel: string, stream: string)
    ensures var r := StreamTakes(chunks, sentinel, stream);
            && (r.Some? ==> LastAnswered(stream + Concat(chunks[..r.value]), sentinel))
            && (forall k :: 1 <= k <= |chunks| && (r.None? || k < r.value) ==>
                !LastAnswered(stream + Concat(chunks[..k]), sentinel))
    decreases |chunks|
  {
    hide LastAnswered;
    if chunks != [] {
      var rest, next := chunks[1..], stream + chunks[0];
      StreamTakesIsLeast(rest, sentinel, next);
      forall k | 1 <= k <= |chunks| ensures stream + Concat(chunks[..k]) == next + Concat(rest[..k - 1]) {
        assert chunks[..k][1..] == rest[..k - 1];
        assert stream + Concat(chunks[..k]) == stream + (chunks[0] + Concat(rest[..k - 1]));
      }
      assert rest[..0] == [] && next + "" == next;
    }
  }

  /** The buffer is the end of the stream, and if anything was cut off, enough is left. */
  ghost predicate Keeps(collected: string, stream: string) {
    && |collected| <= |stream|
    && collected == stream[|stream| - |collected|..]
    && (|collected| < |stream| ==> KEPT <= |collected|)
  }

  lemma TrimKeeps(collected: string, stream: string, chunk: string)
    requires Keeps(collected, stream)
    ensures Keeps(Trim(collected + chunk), stream + chunk)
  {
    var grown, whole := collected + chunk, stream + chunk;
    assert grown == whole[|whole| - |grown|..];
    assert Trim(grown) == grown[|grown| - |Trim(grown)|..];
  }

  lemma AnswerNeedsOnlyTheKept(collected: string, stream: string, chunk: string, sentinel: string)
    requires Keeps(collected, stream) && |sentinel| <= KEPT && !LastAnswered(stream, sentinel)
    ensures LastAnswered(collected + chunk, sentinel) <==> LastAnswered(stream + chunk, sentinel)
  {
    var whole := stream + chunk;
    var cut := |stream| - |collected|;
    assert collected + chunk == whole[cut..|whole|];
    var inBuffer, inStream := RFind(collected + chunk, sentinel), RFind(whole, sentinel);
    if inBuffer.Some? {
      OccursInWindow(sentinel, whole, cut, |whole|, inBuffer.value);
    }
    if inStream.Some? {
      if cut <= inStream.value {
        OccursInWindow(sentinel, whole, cut, |whole|, inStream.value - cut);
      } else {
        NoLaterAnswer(stream, chunk, sentinel, inStream.value);
      }
    }
  }

  /** A last occurrence that lies well inside the stream was already the last
      occurrence before the chunk arrived. */
  lemma NoLaterAnswer(stream: string, chunk: string, sentinel: string, at: nat)
    requires RFind(stream + chunk, sentinel) == Some(at) && at + |sentinel| < |stream|
    ensures LastAnswered(stream + chunk, sentinel) <==> LastAnswered(stream, sentinel)
  {
    var whole := stream + chunk;
    assert whole[0..|stream|] == stream;
    OccursInWindow(sentinel, whole, 0, |stream|, at);
    var last := RFind(stream, sentinel).value;
    OccursInWindow(sentinel, whole, 0, |stream|, last);
  }

  lemma {:induction false} TrimmingChangesNothing(chunks: seq<string>, sentinel: string, collected: string,
      stream: string)
    requires Keeps(collected, stream) && |sentinel| <= KEPT && !LastAnswered(stream, sentinel)
    ensures LoopTakes(chunks, sentinel, collected) == StreamTakes(chunks, sentinel, stream)
    decreases |chunks|
  {
    hide LastAnswered, Keeps, Trim;
    if chunks != [] {
      AnswerNeedsOnlyTheKept(collected, stream, chunks[0], sentinel);
      TrimKeeps(collected, stream, chunks[0]);
      if !LastAnswered(stream + chunks[0], sentinel) {
        TrimmingChangesNothing(chunks[1..], sentinel, Trim(collected + chunks[0]), stream + chunks[0]);
      }
    }
  }

  /** A digit that the sentinel does not end in. */
  function OtherDigit(sentinel: string): (c: char)
    ensures IsDigit(c) && (sentinel != "" ==> c != sentinel[|sentinel| - 1])
  {
    if sentinel != "" && sentinel[|sentinel| - 1] == '0' then '1' else '0'
  }

  /** Two chunks on which a loop with too long a sentinel goes wrong: the first
      ends with the sentinel and forces a cut through it, the second is a digit. */
  function Overlong(sentinel: string): seq<string> {
    [seq(4 * MAX_OUTPUT_BYTES + 1, _ => ' ') + sentinel, [OtherDigit(sentinel)]]
  }

  lemma LastCharDecides(text: string, sentinel: string)
    requires sentinel != ""
    ensures RFind(text + sentinel, sentinel) == Some(|text|)
    ensures RFind(text + sentinel + [OtherDigit(sentinel)], sentinel) == Some(|text|)
  {
    var once, answered := text + sentinel, text + sentinel + [OtherDigit(sentinel)];
    assert OccursAt(sentinel, once, |text|);
    assert answered[|text|..|text| + |sentinel|] == sentinel;
    assert OccursAt(sentinel, answered, |text|);
    var shifted := answered[|text| + 1..|text| + 1 + |sentinel|];
    assert shifted[|sentinel| - 1] == answered[|text| + |sentinel|] == OtherDigit(sentinel);
    assert shifted != sentinel;
    assert RFind(answered, sentinel).value <= |text| + 1;
  }

  lemma {:induction false} OverlongIsMissed(sentinel: string)
    requires KEPT < |sentinel|
    ensures LoopTakes(Overlong(sentinel), sentinel, "") == None
    ensures StreamTakes(Overlong(sentinel), sentinel, "") == Some(2)
  {
    var chunks := Overlong(sentinel);
    var padding, digit := seq(4 * MAX_OUTPUT_BYTES + 1, _ => ' '), [OtherDigit(sentinel)];
    var first := "" + chunks[0];
    assert first == padding + sentinel;
    LastCharDecides(padding, sentinel);
    assert !LastAnswered(first, sentinel);
    assert |Trim(first) + digit| == KEPT + 1 <= |sentinel|;
    assert !LastAnswered(Trim(first) + chunks[1], sentinel);
    assert chunks[1..] == [digit] && chunks[1..][1..] == [];
    assert LoopTakes(chunks[1..][1..], sentinel, Trim(Trim(first) + chunks[1])) == None;
    assert LastAnswered(first + chunks[1], sentinel);
  }

  /** Cutting the buffer is invisible, for all output, exactly when the sentinel
      fits into what a cut leaves behind. */
  lemma TrimmingIsExact(sentinel: string)
    ensures (forall chunks :: LoopTakes(chunks, sentinel, "") == StreamTakes(chunks, sentinel, "")) <==>
        |sentinel| <= KEPT
  {
    if |sentinel| <= KEPT {
      NothingAnsweredYet(sentinel);
      forall chunks ensures LoopTakes(chunks, sentinel, "") == StreamTakes(chunks, sentinel, "") {
        TrimmingChangesNothing(chunks, sentinel, "", "");
      }
    } else {
      OverlongIsMissed(sentinel);
      assert LoopTakes(Overlong(sentinel), sentinel, "") != StreamTakes(Overlong(sentinel), sentinel, "");
    }
  }

  /** The loop itself, reading what `recv` yields until it yields nothing more. */
  method CollectUntilAnswered(chunks: seq<string>, sentinel: string)
      returns (answered: bool, taken: nat, collected: string)
    ensures answered <==> LoopTakes(chunks, sentinel, "").Some?
    ensures answered ==> taken == LoopTakes(chunks, sentinel, "").value && LastAnswered(collected, sentinel)
    ensures |sentinel| <= KEPT ==>
        (answered <==> exists k :: 1 <= k <= |chunks| && LastAnswered(Concat(chunks[..k]), sentinel))
    ensures answered && |sentinel| <= KEPT ==>
              forall k :: 1 <= k < taken ==> k <= |chunks| && !LastAnswered(Concat(chunks[..k]), sentinel)
  {
    hide LastAnswered, Trim;
    StreamTakesIsLeast(chunks, sentinel, "");
    assert forall k :: 1 <= k <= |chunks| ==> "" + Concat(chunks[..k]) == Concat(chunks[..k]);
    if |sentinel| <= KEPT {
      NothingAnsweredYet(sentinel);
      TrimmingChangesNothing(chunks, sentinel, "", "");
    }
    collected := "";
    taken := 0;
    answered := false;
    while taken < |chunks|
      invariant 0 <= taken <= |chunks|
      invariant var rest := LoopTakes(chunks[taken..], sentinel, collected);
                LoopTakes(chunks, sentinel, "") == (if rest.Some? then Some(rest.value + taken) else None)
    {
      assert chunks[taken..][1..] == chunks[taken + 1..];
      collected := collected + chunks[taken];
      taken := taken + 1;
      if LastAnswered(collected, sentinel) {
        return true, taken, collected;
      }
      collected := Trim(collected);
    }
  }

  lemma NothingAnsweredYet(sentinel: string)
    ensures !LastAnswered("", sentinel) && Keeps("", "")
  {
  }

  lemma SeenIsContained(text: string, sentinel: string)
    ensures Seen(text, sentinel) <==> exists digit :: IsDigit(digit) && Contains(sentinel + [digit], text)
  {
    if at :| 0 <= at < |text| && AnsweredAt(text, sentinel, at) {
      var digit := text[at + |sentinel|];
      assert text[at..at + |sentinel| + 1] == sentinel + [digit];
      assert OccursAt(sentinel + [digit], text, at);
      assert Contains(sentinel + [digit], text);
    }
    if digit :| IsDigit(digit) && Contains(sentinel + [digit], text) {
      var at :| OccursAt(sentinel + [digit], text, at);
      assert text[at..at + |sentinel|] == (sentinel + [digit])[..|sentinel|] == sentinel;
      assert text[at + |sentinel|] == text[at..at + |sentinel| + 1][|sentinel|];
      assert AnsweredAt(text, sentinel, at);
    }
  }

  /** The lease watches the bytes that the terminal sends, the loop the text it
      reads them as, chunk by chunk. For an ASCII sentinel the one holds an answer
      exactly when the other does. */
  lemma {:induction false} ReadingKeepsAnswers(chunks: seq<seq<Base64.Byte>>, sent: string, sentinel: string)
    requires Utf8.IsRaw(sent) && Utf8.Joined(chunks) == Utf8.Bytes(sent)
    requires Utf8.IsAscii(sentinel)
    ensures Seen(Utf8.TextOf(chunks), sentinel) <==> Seen(sent, sentinel)
  {
    hide Seen, Contains, Utf8.Joined, Utf8.TextOf, Utf8.Bytes;
    SeenIsContained(Utf8.TextOf(chunks), sentinel);
    SeenIsContained(sent, sentinel);
    forall digit | IsDigit(digit)
      ensures Contains(sentinel + [digit], Utf8.TextOf(chunks)) <==> Contains(sentinel + [digit], sent)
    {
      Utf8.AsciiSurvives(chunks, sentinel + [digit]);
      ContainedInBytes(sentinel + [digit], sent);
    }
  }

  lemma ContainedInBytes(pattern: string, text: string)
    requires Utf8.IsAscii(pattern) && Utf8.IsRaw(text)
    ensures Contains(Utf8.Bytes(pattern), Utf8.Bytes(text)) <==> Contains(pattern, text)
  {
    if at :| OccursAt(pattern, text, at) {
      Utf8.BytesInjective(pattern, text, at);
    }
    if at :| OccursAt(Utf8.Bytes(pattern), Utf8.Bytes(text), at) {
      Utf8.BytesInjective(pattern, text, at);
    }
  }

  // ---------------------------------------------------------------------
  // The loop inside the machine
  // ---------------------------------------------------------------------

  function Receives(n: nat): seq<TapAction> {
    seq(n, _ => Receive)
  }

  /** With chunks waiting, the machine's receive steps are the loop: they end it
      with the chunk that the loop ends with, and not before. */
  lemma {:induction false} MachineRunsTheLoop(c: Channel, n: nat)
    requires c.tap.exec.Some? && c.tap.exec.value.awaited.Answer? && n <= |c.tap.queue|
    ensures ChannelRun(c, Receives(n)).tap.exec.None? <==>
            LoopTakes(c.tap.queue[..n], c.tap.exec.value.awaited.sentinel, c.tap.exec.value.collected).Some?
    decreases n
  {
    hide LastAnswered, Trim, Step, TapRecord;
    if n > 0 {
      var next, queue := ChannelStep(c, Receive), c.tap.queue;
      assert Receives(n)[1..] == Receives(n - 1);
      assert queue[..n][1..] == queue[1..][..n - 1];
      if next.tap.exec.Some? {
        MachineRunsTheLoop(next, n - 1);
      } else {
        IdleReceives(next, n - 1);
      }
    }
  }

  lemma {:induction false} IdleReceives(c: Channel, n: nat)
    requires c.tap.exec.None?
    ensures ChannelRun(c, Receives(n)) == c
  {
    if n > 0 {
      assert Receives(n)[1..] == Receives(n - 1);
      IdleReceives(c, n - 1);
    }
  }
}
