/** The stale filter in front of the reply queue, by the pair (round_seq, seq). */
module InjectFilter {
  import opened Wrappers
  import opened PyText
  import opened ReplyQueue

  /** A decoded inject message, with the defaults of absent members filled in. */
  datatype Message = Message(text: string, roundSeq: int, seqNo: int, eot: bool, streamed: bool, tail: string)

  datatype Ordinal = Ordinal(roundSeq: int, seqNo: int)

  const ZERO := Ordinal(0, 0)

  /** Python compares tuples from the left. */
  predicate Below(a: Ordinal, b: Ordinal) {
    a.roundSeq < b.roundSeq || (a.roundSeq == b.roundSeq && a.seqNo < b.seqNo)
  }

  function OrdinalOf(m: Message): Ordinal {
    Ordinal(m.roundSeq, m.seqNo)
  }

  predicate Blank(m: Message) {
    Strip(m.text) == ""
  }

  /** Not blank, and not stale; a message without round is never stale. */
  predicate Accepts(last: Ordinal, m: Message) {
    !Blank(m) && (m.roundSeq == 0 || Below(last, OrdinalOf(m)))
  }

  /** What is queued: a piece as it is; at the end the tail if the round was streamed, else the whole text. */
  function Queued(m: Message): Item {
    if m.eot then Item(if m.streamed then Strip(m.tail) else Strip(m.text), true)
    else Item(Strip(m.text), false)
  }

  // ---------- the router ----------

  class Router {
    const pipeline: Pipeline
    var lastSeq: map<int, Ordinal>

    constructor (pipeline: Pipeline)
      ensures this.pipeline == pipeline && lastSeq == map[]
    {
      this.pipeline := pipeline;
      lastSeq := map[];
    }

    ghost function Last(callID: int): Ordinal
      reads this
    {
      if callID in lastSeq then lastSeq[callID] else ZERO
    }

    /** One message for a pipeline call. */
    method OnInject(callID: int, m: Message) returns (accepted: bool)
      requires callID in pipeline.queues
      modifies this, pipeline.queues[callID]
      ensures accepted == Accepts(old(Last(callID)), m)
      ensures accepted <==>
              && Strip(m.text) != ""
              && (|| m.roundSeq == 0
                  || m.roundSeq > old(Last(callID)).roundSeq
                  || (m.roundSeq == old(Last(callID)).roundSeq && m.seqNo > old(Last(callID)).seqNo))
      ensures accepted ==>
                pipeline.queues[callID].items
                == old(pipeline.queues[callID].items)
                   + [Item(Strip(if m.eot && m.streamed then m.tail else m.text), m.eot)]
      ensures accepted ==> Last(callID) == Ordinal(m.roundSeq, m.seqNo)
      ensures Last(callID) == NextLast(old(Last(callID)), m)
      ensures forall other | other != callID :: Last(other) == old(Last(other))
      ensures pipeline.queues[callID].items ==
              if accepted then old(pipeline.queues[callID].items) + [Queued(m)] else old(pipeline.queues[callID].items)
    {
      var text := Strip(m.text);
      if text == "" {
        return false;
      }
      var tail := Strip(m.tail);
      var ordinal := Ordinal(m.roundSeq, m.seqNo);
      var last := if callID in lastSeq then lastSeq[callID] else ZERO;
      if m.roundSeq != 0 && !Below(last, ordinal) {
        return false;
      }
      if m.eot {
        var spoken := if m.streamed then tail else text;
        var _ := pipeline.PushReply(callID, spoken, true);
      } else {
        var _ := pipeline.PushReply(callID, text, false);
      }
      lastSeq := lastSeq[callID := ordinal];
      return true;
    }
  }

  // ---------- the filter over a run of messages ----------

  function NextLast(last: Ordinal, m: Message): Ordinal {
    if Accepts(last, m) then OrdinalOf(m) else last
  }

  /** The remembered ordinal after messages. */
  function LastAfter(messages: seq<Message>): Ordinal {
    if messages == [] then ZERO
    else NextLast(LastAfter(messages[..|messages| - 1]), messages[|messages| - 1])
  }

  /** What the messages put into the queue, from a remembered ordinal on. */
  function QueuedFrom(last: Ordinal, messages: seq<Message>): seq<Item>
    decreases |messages|
  {
    if messages == [] then []
    else
      (if Accepts(last, messages[0]) then [Queued(messages[0])] else [])
      + QueuedFrom(NextLast(last, messages[0]), messages[1..])
  }

  function LastFrom(last: Ordinal, messages: seq<Message>): Ordinal
    decreases |messages|
  {
    if messages == [] then last else LastFrom(NextLast(last, messages[0]), messages[1..])
  }

  predicate Accepted(messages: seq<Message>, i: nat)
    requires i < |messages|
  {
    Accepts(LastAfter(messages[..i]), messages[i])
  }

  /** The last non-blank message without a round, or -1. */
  ghost function LastUnnumbered(messages: seq<Message>): (k: int)
    ensures -1 <= k < |messages|
    ensures k >= 0 ==> !Blank(messages[k]) && messages[k].roundSeq == 0
    ensures forall j | k < j < |messages| && !Blank(messages[j]) :: messages[j].roundSeq != 0
  {
    if messages == [] then -1
    else
      hide Blank;
      var n := |messages| - 1;
      var before := messages[..n];
      assert forall j | 0 <= j < n :: before[j] == messages[j];
      if !Blank(messages[n]) && messages[n].roundSeq == 0 then n else LastUnnumbered(before)
  }

  /** Above every non-blank message since the last one without a round, that one included. */
  ghost predicate AboveRecent(messages: seq<Message>, o: Ordinal) {
    && (LastUnnumbered(messages) == -1 ==> Below(ZERO, o))
    && (forall j | 0 <= j < |messages| && LastUnnumbered(messages) <= j && !Blank(messages[j]) ::
        Below(OrdinalOf(messages[j]), o))
  }

  lemma AboveRecentStep(messages: seq<Message>, o: Ordinal)
    requires messages != []
    ensures
      var before, m := messages[..|messages| - 1], messages[|messages| - 1];
      AboveRecent(messages, o) <==>
        if Blank(m) then AboveRecent(before, o)
        else if m.roundSeq == 0 then Below(OrdinalOf(m), o)
        else AboveRecent(before, o) && Below(OrdinalOf(m), o)
  {
    hide Blank, Below, OrdinalOf;
    var n := |messages| - 1;
    var before, m := messages[..n], messages[n];
    assert forall j | 0 <= j < n :: before[j] == messages[j];
    if !Blank(m) && AboveRecent(messages, o) {
      assert Below(OrdinalOf(messages[n]), o);
    }
  }

  lemma BelowTotal(a: Ordinal, b: Ordinal, c: Ordinal)
    ensures Below(a, b) && Below(b, c) ==> Below(a, c)
    ensures !Below(a, b) && Below(a, c) ==> Below(b, c)
  {
  }

  /** The remembered ordinal is the greatest recent one. */
  lemma {:induction false} LastIsRecentMaximum(messages: seq<Message>, o: Ordinal)
    ensures Below(LastAfter(messages), o) <==> AboveRecent(messages, o)
  {
    if messages != [] {
      hide Blank, Below, AboveRecent;
      var n := |messages| - 1;
      LastIsRecentMaximum(messages[..n], o);
      AboveRecentStep(messages, o);
      BelowTotal(LastAfter(messages[..n]), OrdinalOf(messages[n]), o);
    }
  }

  /**
   On any run: a non-blank message is accepted exactly when it has no round, or lies above every
   non-blank message since the last one without a round (and above (0, 0) if there was none).
   */
  lemma AcceptedExactly(messages: seq<Message>, i: nat)
    requires i < |messages| && !Blank(messages[i])
    ensures Accepted(messages, i) <==> messages[i].roundSeq == 0 || AboveRecent(messages[..i], OrdinalOf(messages[i]))
  {
    hide Blank;
    LastIsRecentMaximum(messages[..i], OrdinalOf(messages[i]));
  }

  /** With every round numbered, the accepted messages are the strict left-to-right maxima above (0, 0). */
  lemma NumberedRoundsKeepRecords(messages: seq<Message>, i: nat)
    requires i < |messages| && !Blank(messages[i])
    requires forall j | 0 <= j < |messages| && !Blank(messages[j]) :: messages[j].roundSeq != 0
    ensures Accepted(messages, i) <==>
              && Below(ZERO, OrdinalOf(messages[i]))
              && forall j | 0 <= j < i && !Blank(messages[j]) :: Below(OrdinalOf(messages[j]), OrdinalOf(messages[i]))
  {
    hide Blank;
    AcceptedExactly(messages, i);
    var before := messages[..i];
    assert forall j | 0 <= j < i :: before[j] == messages[j];
    assert LastUnnumbered(before) == -1;
  }

  lemma {:induction false} FromAppend(last: Ordinal, a: seq<Message>, b: seq<Message>)
    ensures QueuedFrom(last, a + b) == QueuedFrom(last, a) + QueuedFrom(LastFrom(last, a), b)
    ensures LastFrom(last, a + b) == LastFrom(LastFrom(last, a), b)
    decreases |a|
  {
    if a == [] {
      assert a + b == b;
    } else {
      hide Accepts;
      assert (a + b)[1..] == a[1..] + b;
      FromAppend(NextLast(last, a[0]), a[1..], b);
    }
  }

  lemma {:induction false} LastAfterIsLastFrom(messages: seq<Message>)
    ensures LastAfter(messages) == LastFrom(ZERO, messages)
  {
    if messages != [] {
      hide Accepts;
      var n := |messages| - 1;
      LastAfterIsLastFrom(messages[..n]);
      assert messages == messages[..n] + [messages[n]];
      FromAppend(ZERO, messages[..n], [messages[n]]);
      assert LastFrom(LastFrom(ZERO, messages[..n]), [messages[n]])
             == NextLast(LastFrom(ZERO, messages[..n]), messages[n]) by {
        assert [messages[n]][1..] == [];
      }
    }
  }

  /** A redelivered or late message changes nothing, wherever it arrives. */
  lemma StaleChangesNothing(before: seq<Message>, m: Message, after: seq<Message>)
    requires Blank(m) || (m.roundSeq != 0 && !AboveRecent(before, OrdinalOf(m)))
    ensures QueuedFrom(ZERO, before + [m] + after) == QueuedFrom(ZERO, before + after)
    ensures LastFrom(ZERO, before + [m] + after) == LastFrom(ZERO, before + after)
  {
    hide QueuedFrom, LastFrom, AboveRecent, LastAfter;
    LastIsRecentMaximum(before, OrdinalOf(m));
    LastAfterIsLastFrom(before);
    var last := LastFrom(ZERO, before);
    assert !Accepts(last, m);
    assert before + [m] + after == before + ([m] + after);
    FromAppend(ZERO, before, [m] + after);
    RefusedFirst(last, m, after);
    FromAppend(ZERO, before, after);
  }

  lemma RefusedFirst(last: Ordinal, m: Message, after: seq<Message>)
    requires !Accepts(last, m)
    ensures QueuedFrom(last, [m] + after) == QueuedFrom(last, after)
    ensures LastFrom(last, [m] + after) == LastFrom(last, after)
  {
    hide Accepts;
    assert ([m] + after)[1..] == after;
  }

  /** A message without a round resets the filter: a redelivery after it is queued again. */
  lemma UnnumberedResetsFilter(m: Message, reset: Message)
    requires !Blank(m) && m.roundSeq > 0
    requires !Blank(reset) && reset.roundSeq == 0
    ensures QueuedFrom(ZERO, [m, reset, m]) == [Queued(m), Queued(reset), Queued(m)]
  {
    assert [m, reset, m][1..] == [reset, m] && [reset, m][1..] == [m] && [m][1..] == [];
    assert QueuedFrom(OrdinalOf(reset), [m]) == [Queued(m)];
    assert QueuedFrom(OrdinalOf(m), [reset, m]) == [Queued(reset)] + [Queued(m)];
  }

  // ---------- a streamed round ----------

  /** Pieces in order, then the end of a streamed round; all of one numbered round, none blank. */
  ghost predicate StreamedRound(messages: seq<Message>, round: int) {
    && messages != []
    && (forall i | 0 <= i < |messages| :: messages[i].roundSeq == round && !Blank(messages[i]))
    && (forall i, j | 0 <= i < j < |messages| :: messages[i].seqNo < messages[j].seqNo)
    && (forall i | 0 <= i < |messages| - 1 :: !messages[i].eot)
    && messages[|messages| - 1].eot && messages[|messages| - 1].streamed
  }

  function Pieces(messages: seq<Message>): seq<Item> {
    if messages == [] then [] else [Item(Strip(messages[0].text), false)] + Pieces(messages[1..])
  }

  /** A streamed round queues its pieces and then the tail, never the full text again. */
  lemma {:induction false} StreamedRoundQueuesPiecesAndTail(last: Ordinal, messages: seq<Message>, round: int)
    requires StreamedRound(messages, round) && Below(last, OrdinalOf(messages[0]))
    ensures
      var n := |messages| - 1;
      QueuedFrom(last, messages) == Pieces(messages[..n]) + [Item(Strip(messages[n].tail), true)]
    decreases |messages|
  {
    hide Blank;
    var n := |messages| - 1;
    var m, rest := messages[0], messages[1..];
    if n == 0 {
      assert rest == [] && messages[..0] == [];
    } else {
      forall i, j | 0 <= i < j < |rest| ensures rest[i].seqNo < rest[j].seqNo {
        assert messages[i + 1].seqNo < messages[j + 1].seqNo;
      }
      StreamedRoundQueuesPiecesAndTail(OrdinalOf(m), rest, round);
      assert messages[..n][1..] == rest[..n - 1] && messages[..n][0] == m;
    }
  }

  // ---------- from the messages to the spoken turn ----------

  function SpokenTexts(messages: seq<Message>): seq<string> {
    if messages == [] then [] else [Strip(messages[0].text)] + SpokenTexts(messages[1..])
  }

  lemma {:induction false} PiecesSpoken(messages: seq<Message>, tail: Item, later: seq<Item>)
    requires forall i | 0 <= i < |messages| :: !Blank(messages[i])
    requires tail.eot
    ensures Speaks(Pieces(messages) + [tail] + later) == SpokenTexts(messages) + Emitted(tail.text)
  {
    hide Strip;
    var items := Pieces(messages) + [tail] + later;
    if messages == [] {
      assert items[0] == tail;
    } else {
      hide Emitted;
      var piece := Item(Strip(messages[0].text), false);
      assert items == [piece] + (Pieces(messages[1..]) + [tail] + later);
      assert items[1..] == Pieces(messages[1..]) + [tail] + later;
      PiecesSpoken(messages[1..], tail, later);
      PieceEmitted(messages[0]);
      assert SpokenTexts(messages) + Emitted(tail.text)
          == [Strip(messages[0].text)] + (SpokenTexts(messages[1..]) + Emitted(tail.text));
    }
  }

  lemma PieceEmitted(m: Message)
    requires !Blank(m)
    ensures Emitted(Strip(m.text)) == [Strip(m.text)]
  {
    hide Strip;
    StripIdempotent(m.text);
  }

  /** A turn that hears a streamed round from its start speaks each piece once and the tail once, whatever follows. */
  lemma StreamedRoundIsSpokenOnce(last: Ordinal, messages: seq<Message>, round: int, later: seq<Item>)
    requires StreamedRound(messages, round) && Below(last, OrdinalOf(messages[0]))
    ensures
      var n := |messages| - 1;
      Speaks(QueuedFrom(last, messages) + later) == SpokenTexts(messages[..n]) + Emitted(messages[n].tail)
  {
    hide Blank, Strip;
    var n := |messages| - 1;
    StreamedRoundQueuesPiecesAndTail(last, messages, round);
    PiecesSpoken(messages[..n], Item(Strip(messages[n].tail), true), later);
    StripIdempotent(messages[n].tail);
  }
}
