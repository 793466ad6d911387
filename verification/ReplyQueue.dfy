/** The reply queue between the text agent and the speech pipeline of one call. */
module ReplyQueue {
  import opened Wrappers
  import opened PyText

  /** A piece of a reply; eot marks the last piece of a turn. */
  datatype Item = Item(text: string, eot: bool)

  datatype Phase = NotStarted | WaitingFirst | WaitingNext | Finished | TimedOut

  predicate Waiting(p: Phase) {
    p == WaitingFirst || p == WaitingNext
  }

  // ---------- one turn ----------

  function Emitted(text: string): seq<string> {
    var stripped := Strip(text);
    if stripped == "" then [] else [stripped]
  }

  function PhaseAfter(item: Item): Phase {
    if item.eot then Finished else WaitingNext
  }

  /** A turn and its queue between two awaits. */
  datatype View = View(items: seq<Item>, phase: Phase, chunks: seq<string>)

  function OnStart(v: View): View {
    v.(items := [], phase := WaitingFirst)
  }

  function OnTake(v: View): View
    requires v.items != []
  {
    View(v.items[1..], PhaseAfter(v.items[0]), v.chunks + Emitted(v.items[0].text))
  }

  function OnGiveUp(v: View): View {
    v.(phase := TimedOut)
  }

  /** The queue of one call. */
  class Queue {
    var items: seq<Item>

    constructor ()
      ensures items == []
    {
      items := [];
    }

    method Put(item: Item)
      modifies this
      ensures items == old(items) + [item]
    {
      items := items + [item];
    }

    /** None stands for QueueEmpty. */
    method GetNoWait() returns (item: Option<Item>)
      modifies this
      ensures old(items) == [] ==> item.None? && items == []
      ensures old(items) != [] ==> item == Some(old(items)[0]) && items == old(items)[1..]
    {
      if items == [] {
        return None;
      }
      item := Some(items[0]);
      items := items[1..];
    }
  }

  /** One turn of the bridge between two awaits at a time. */
  class BridgeTurn {
    const queue: Queue
    var phase: Phase
    var chunks: seq<string>

    constructor (queue: Queue)
      ensures this.queue == queue && Value() == View(queue.items, NotStarted, [])
    {
      this.queue := queue;
      phase, chunks := NotStarted, [];
    }

    ghost function Value(): View
      reads this, queue
    {
      View(queue.items, phase, chunks)
    }

    method Emit(text: string)
      modifies this`chunks
      ensures chunks == old(chunks) + if Strip(text) == "" then [] else [Strip(text)]
    {
      var stripped := Strip(text);
      if stripped == "" {
        return;
      }
      chunks := chunks + [stripped];
    }

    /** Up to the first await: throws away what an earlier turn left behind. */
    method Start() returns (stale: nat)
      modifies this`phase, queue
      ensures queue.items == [] && phase == WaitingFirst && chunks == old(chunks)
      ensures stale == |old(queue.items)| && Value() == OnStart(old(Value()))
    {
      stale := 0;
      while true
        invariant stale + |queue.items| == |old(queue.items)|
        decreases |queue.items|
      {
        var dropped := queue.GetNoWait();
        if dropped.None? {
          break;
        }
        stale := stale + 1;
      }
      phase := WaitingFirst;
    }

    /** An awaited get completes. */
    method Take()
      requires Waiting(phase) && queue.items != []
      modifies this, queue
      ensures queue.items == old(queue.items)[1..]
      ensures phase == if old(queue.items)[0].eot then Finished else WaitingNext
      ensures Value() == OnTake(old(Value()))
    {
      var item := queue.GetNoWait();
      Emit(item.value.text);
      phase := if item.value.eot then Finished else WaitingNext;
    }

    /** An awaited get times out: the turn ends quietly. */
    method GiveUp()
      requires Waiting(phase)
      modifies this`phase
      ensures phase == TimedOut
      ensures Value() == OnGiveUp(old(Value()))
    {
      phase := TimedOut;
    }
  }

  /** The calls that run through the pipeline, each with its own queue. */
  class Pipeline {
    var queues: map<int, Queue>

    constructor ()
      ensures queues == map[]
    {
      queues := map[];
    }

    method RegisterCall(callID: int)
      modifies this
      ensures callID in queues && fresh(queues[callID]) && queues[callID].items == []
      ensures queues == old(queues)[callID := queues[callID]]
    {
      var q := new Queue();
      queues := queues[callID := q];
    }

    method UnregisterCall(callID: int)
      modifies this
      ensures queues == old(queues) - {callID}
    {
      queues := queues - {callID};
    }

    /** False: not a pipeline call, nothing queued. */
    method PushReply(callID: int, text: string, eot: bool) returns (queued: bool)
      modifies if callID in queues then {queues[callID]} else {}
      ensures queued <==> callID in queues
      ensures queued ==> queues[callID].items == old(queues[callID].items) + [Item(text, eot)]
    {
      if callID !in queues {
        return false;
      }
      queues[callID].Put(Item(text, eot));
      return true;
    }
  }

  // ---------- every run of pushes and turns on one queue ----------

  /** How an item left the queue. */
  datatype Fate = Stale | Spoken(turn: nat)

  /** start: how many items had been pushed when the turn had drained the queue; count: items it took. */
  datatype Turn = Turn(start: nat, count: nat, phase: Phase, chunks: seq<string>)

  /** items is the queue itself; pushed and fates are the history. */
  datatype State = State(items: seq<Item>, turns: seq<Turn>, pushed: seq<Item>, fates: seq<Fate>)

  datatype Event =
    | Push(item: Item)
    | StartTurn
    | Takes(turn: nat)
    | TimesOut(turn: nat)

  const INITIAL := State([], [], [], [])

  function AllStale(n: nat): (r: seq<Fate>)
    ensures |r| == n && forall i | 0 <= i < n :: r[i] == Stale
  {
    seq(n, i => Stale)
  }

  function Took(t: Turn, item: Item): Turn {
    Turn(t.start, t.count + 1, PhaseAfter(item), t.chunks + Emitted(item.text))
  }

  predicate Enabled(s: State, e: Event) {
    match e
    case Push(_) => true
    case StartTurn => true
    case Takes(t) => t < |s.turns| && Waiting(s.turns[t].phase) && s.items != []
    case TimesOut(t) => t < |s.turns| && Waiting(s.turns[t].phase)
  }

  function Step(s: State, e: Event): State {
    if !Enabled(s, e) then s
    else
      match e
      case Push(item) => s.(items := s.items + [item], pushed := s.pushed + [item])
      case StartTurn =>
        State([], s.turns + [Turn(|s.pushed|, 0, WaitingFirst, [])], s.pushed, s.fates + AllStale(|s.items|))
      case Takes(t) =>
        State(s.items[1..], s.turns[t := Took(s.turns[t], s.items[0])], s.pushed, s.fates + [Spoken(t)])
      case TimesOut(t) => s.(turns := s.turns[t := s.turns[t].(phase := TimedOut)])
  }

  function Run(events: seq<Event>): State {
    if events == [] then INITIAL else Step(Run(events[..|events| - 1]), events[|events| - 1])
  }

  ghost function ViewOf(s: State, t: nat): View
    requires t < |s.turns|
  {
    View(s.items, s.turns[t].phase, s.turns[t].chunks)
  }

  /** An enabled step other than a push does to its turn what the turn's method does. */
  ghost predicate TurnMoves(s: State, e: Event)
    requires Enabled(s, e)
  {
    var next := Step(s, e);
    match e
    case Push(item) => next.items == s.items + [item] && next.turns == s.turns
    case StartTurn =>
      && |next.turns| == |s.turns| + 1
      && ViewOf(next, |s.turns|) == OnStart(View(s.items, NotStarted, []))
    case Takes(t) => |next.turns| == |s.turns| && ViewOf(next, t) == OnTake(ViewOf(s, t))
    case TimesOut(t) => |next.turns| == |s.turns| && ViewOf(next, t) == OnGiveUp(ViewOf(s, t))
  }

  /** Every step is one call of a method on one turn and the queue, and leaves every other turn as it is. */
  lemma StepIsMethod(s: State, e: Event)
    requires Enabled(s, e)
    ensures TurnMoves(s, e)
    ensures forall u | 0 <= u < |s.turns| && e != Takes(u) && e != TimesOut(u) :: Step(s, e).turns[u] == s.turns[u]
  {
  }

  /** The items a turn took, in the order it took them. */
  function TakenBy(pushed: seq<Item>, fates: seq<Fate>, turn: nat): seq<Item>
    requires |fates| <= |pushed|
  {
    if fates == [] then []
    else
      var n := |fates| - 1;
      var before := TakenBy(pushed, fates[..n], turn);
      if fates[n] == Spoken(turn) then before + [pushed[n]] else before
  }

  function ChunksOf(items: seq<Item>): seq<string> {
    if items == [] then [] else ChunksOf(items[..|items| - 1]) + Emitted(items[|items| - 1].text)
  }

  /** Each pushed item is spoken by one turn, dropped as stale, or still queued, and the queue keeps push order. */
  ghost predicate Conserved(s: State) {
    |s.fates| <= |s.pushed| && s.items == s.pushed[|s.fates|..]
  }

  /** A turn took exactly the items marked as its own, all pushed after it drained the queue. */
  ghost predicate TurnExact(s: State, t: nat)
    requires t < |s.turns| && |s.fates| <= |s.pushed|
  {
    var turn := s.turns[t];
    var taken := TakenBy(s.pushed, s.fates, t);
    && turn.start <= |s.fates|
    && turn.count == |taken|
    && turn.chunks == ChunksOf(taken)
    && (forall i | 0 <= i < |s.fates| && s.fates[i] == Spoken(t) :: turn.start <= i)
    && (forall i | 0 <= i < |taken| - 1 :: !taken[i].eot)
    && (Waiting(turn.phase) ==> forall item | item in taken :: !item.eot)
    && (turn.phase == Finished ==> taken != [] && taken[|taken| - 1].eot)
  }

  ghost predicate RunInv(s: State) {
    && Conserved(s)
    && (forall t | 0 <= t < |s.turns| :: TurnExact(s, t))
    && (forall i | 0 <= i < |s.fates| && s.fates[i].Spoken? :: s.fates[i].turn < |s.turns|)
  }

  lemma {:induction false} TakenByAppend(pushed: seq<Item>, more: seq<Item>, fates: seq<Fate>, next: seq<Fate>,
                                         turn: nat)
    requires |fates| + |next| <= |pushed|
    requires forall i | 0 <= i < |next| :: next[i] != Spoken(turn)
    ensures TakenBy(pushed + more, fates + next, turn) == TakenBy(pushed, fates, turn)
    decreases |fates| + |next|
  {
    var all := fates + next;
    if next != [] {
      var n := |next| - 1;
      assert all[..|all| - 1] == fates + next[..n] && all[|all| - 1] == next[n];
      TakenByAppend(pushed, more, fates, next[..n], turn);
    } else if fates != [] {
      var n := |fates| - 1;
      assert all == fates && fates[..n] + [] == fates[..n];
      TakenByAppend(pushed, more, fates[..n], [], turn);
    }
  }

  lemma {:induction false} TakenByNone(pushed: seq<Item>, fates: seq<Fate>, turn: nat)
    requires |fates| <= |pushed| && forall i | 0 <= i < |fates| :: fates[i] != Spoken(turn)
    ensures TakenBy(pushed, fates, turn) == []
  {
    if fates != [] {
      TakenByNone(pushed, fates[..|fates| - 1], turn);
    }
  }

  lemma TakenByMore(pushed: seq<Item>, fates: seq<Fate>, turn: nat)
    requires |fates| < |pushed|
    ensures TakenBy(pushed, fates + [Spoken(turn)], turn) == TakenBy(pushed, fates, turn) + [pushed[|fates|]]
  {
    assert (fates + [Spoken(turn)])[..|fates|] == fates;
  }

  lemma ChunksOfMore(items: seq<Item>, item: Item)
    ensures ChunksOf(items + [item]) == ChunksOf(items) + Emitted(item.text)
  {
    assert (items + [item])[..|items|] == items;
  }

  lemma PushKeeps(s: State, item: Item)
    requires RunInv(s)
    ensures RunInv(Step(s, Push(item)))
  {
    hide ChunksOf;
    var next := Step(s, Push(item));
    forall t | 0 <= t < |next.turns| ensures TurnExact(next, t) {
      assert TurnExact(s, t);
      TakenByAppend(s.pushed, [item], s.fates, [], t);
      assert s.fates + [] == s.fates;
    }
  }

  lemma StartKeeps(s: State)
    requires RunInv(s)
    ensures RunInv(Step(s, StartTurn))
  {
    var next := Step(s, StartTurn);
    var stale := AllStale(|s.items|);
    forall t | 0 <= t < |next.turns| ensures TurnExact(next, t) {
      if t < |s.turns| {
        assert TurnExact(s, t);
        TakenByAppend(s.pushed, [], s.fates, stale, t);
        assert s.pushed + [] == s.pushed;
      } else {
        TakenByNone(s.pushed, next.fates, t);
        assert ChunksOf([]) == [];
      }
    }
  }

  lemma TakeKeeps(s: State, t: nat)
    requires RunInv(s) && Enabled(s, Takes(t))
    ensures RunInv(Step(s, Takes(t)))
  {
    hide ChunksOf, TakenBy, Emitted, TurnExact;
    var next := Step(s, Takes(t));
    assert s.items[0] == s.pushed[|s.fates|];
    forall u | 0 <= u < |next.turns| ensures TurnExact(next, u) {
      assert TurnExact(s, u);
      if u == t {
        TakerStaysExact(s, t);
      } else {
        OtherStaysExact(s, t, u);
      }
    }
  }

  lemma TakerStaysExact(s: State, t: nat)
    requires Conserved(s) && Enabled(s, Takes(t)) && TurnExact(s, t)
    ensures TurnExact(Step(s, Takes(t)), t)
  {
    hide ChunksOf, TakenBy, Emitted;
    assert s.items[0] == s.pushed[|s.fates|];
    TakenByMore(s.pushed, s.fates, t);
    ChunksOfMore(TakenBy(s.pushed, s.fates, t), s.items[0]);
  }

  lemma OtherStaysExact(s: State, t: nat, u: nat)
    requires Conserved(s) && Enabled(s, Takes(t)) && u < |s.turns| && u != t && TurnExact(s, u)
    ensures TurnExact(Step(s, Takes(t)), u)
  {
    hide ChunksOf, TakenBy, Emitted;
    TakenByAppend(s.pushed, [], s.fates, [Spoken(t)], u);
    assert s.pushed + [] == s.pushed;
  }

  lemma TimeoutKeeps(s: State, t: nat)
    requires RunInv(s) && Enabled(s, TimesOut(t))
    ensures RunInv(Step(s, TimesOut(t)))
  {
    hide ChunksOf;
    var next := Step(s, TimesOut(t));
    forall u | 0 <= u < |next.turns| ensures TurnExact(next, u) {
      assert TurnExact(s, u);
    }
  }

  /**
   Every run, with any number of turns waiting at once: nothing pushed is lost or spoken twice, what a
   turn speaks is the stripped, non-blank text of the items it took in push order, all pushed after it
   started, and it stops at its first end-of-turn item.
   */
  lemma {:induction false} EveryRunConserves(events: seq<Event>)
    ensures RunInv(Run(events))
  {
    if events != [] {
      hide Step, RunInv;
      var before, e := events[..|events| - 1], events[|events| - 1];
      EveryRunConserves(before);
      var s := Run(before);
      DisabledStep(s, e);
      if Enabled(s, e) {
        match e
        case Push(item) => PushKeeps(s, item);
        case StartTurn => StartKeeps(s);
        case Takes(t) => TakeKeeps(s, t);
        case TimesOut(t) => TimeoutKeeps(s, t);
      }
    } else {
      assert RunInv(INITIAL);
    }
  }

  lemma DisabledStep(s: State, e: Event)
    ensures !Enabled(s, e) ==> Step(s, e) == s
  {
  }

  // ---------- a turn and what was pushed before it ----------

  function PushCount(events: seq<Event>): nat {
    if events == [] then 0
    else PushCount(events[..|events| - 1]) + if events[|events| - 1].Push? then 1 else 0
  }

  function StartCount(events: seq<Event>): nat {
    if events == [] then 0
    else StartCount(events[..|events| - 1]) + if events[|events| - 1].StartTurn? then 1 else 0
  }

  /** A run has pushed every item of its events and started every turn. */
  lemma {:induction false} CountsOfRun(events: seq<Event>)
    ensures |Run(events).pushed| == PushCount(events) && |Run(events).turns| == StartCount(events)
  {
    if events != [] {
      CountsOfRun(events[..|events| - 1]);
    }
  }

  /** What has left the queue has left it for good, and a turn keeps the place it started at. */
  lemma {:induction false} RunGoesOn(before: seq<Event>, after: seq<Event>)
    ensures
      var s, t := Run(before), Run(before + after);
      && |s.fates| <= |t.fates| && t.fates[..|s.fates|] == s.fates
      && |s.turns| <= |t.turns|
      && forall u | 0 <= u < |s.turns| :: t.turns[u].start == s.turns[u].start
  {
    if after == [] {
      assert before + after == before;
    } else {
      var n := |after| - 1;
      assert (before + after)[..|before| + n] == before + after[..n];
      RunGoesOn(before, after[..n]);
    }
  }

  /** A turn that starts throws away everything queued by then, and nothing else. */
  lemma StartDrains(before: seq<Event>)
    ensures
      var s, t := Run(before), Run(before + [StartTurn]);
      && t.items == [] && |t.fates| == PushCount(before)
      && t.fates[..|s.fates|] == s.fates
      && forall i | |s.fates| <= i < |t.fates| :: t.fates[i] == Stale
  {
    hide RunInv, Conserved;
    assert (before + [StartTurn])[..|before|] == before;
    CountsOfRun(before);
    AllLeftQueue(before);
  }

  lemma AllLeftQueue(before: seq<Event>)
    ensures |Run(before).fates| + |Run(before).items| == |Run(before).pushed|
  {
    EveryRunConserves(before);
  }

  /** Every item pushed before a turn starts, and not taken by then, is never spoken, whatever happens later. */
  lemma QueuedAtStartIsStale(before: seq<Event>, after: seq<Event>)
    ensures
      var fates := Run(before + [StartTurn] + after).fates;
      && |Run(before).fates| <= PushCount(before) <= |fates|
      && forall i | |Run(before).fates| <= i < PushCount(before) :: fates[i] == Stale
  {
    StartDrains(before);
    RunGoesOn(before + [StartTurn], after);
    var first, last := Run(before + [StartTurn]).fates, Run(before + [StartTurn] + after).fates;
    forall i | |Run(before).fates| <= i < PushCount(before) ensures last[i] == Stale {
      assert last[..|first|][i] == first[i];
    }
    CountsOfRun(before);
    AllLeftQueue(before);
  }

  /** A turn speaks only items pushed after it started. */
  lemma SpeaksOnlyLaterItems(before: seq<Event>, after: seq<Event>, i: nat)
    ensures
      var s := Run(before + [StartTurn] + after);
      i < |s.fates| && s.fates[i] == Spoken(StartCount(before)) ==> i >= PushCount(before)
  {
    var events, started := before + [StartTurn] + after, before + [StartTurn];
    var t := StartCount(before);
    assert started[..|before|] == before;
    CountsOfRun(before);
    RunGoesOn(started, after);
    EveryRunConserves(events);
    assert Run(started).turns[t].start == PushCount(before);
    assert TurnExact(Run(events), t);
  }

  /** The item was queued when event k started a turn. */
  ghost predicate DrainedAt(events: seq<Event>, k: nat, i: nat)
    requires k < |events|
  {
    events[k] == StartTurn && |Run(events[..k]).fates| <= i < PushCount(events[..k])
  }

  /** An item is thrown away if and only if it was queued when some turn started. */
  lemma {:induction false} StaleExactly(events: seq<Event>, i: nat)
    requires i < |Run(events).fates|
    ensures Run(events).fates[i] == Stale <==> exists k: nat | k < |events| :: DrainedAt(events, k, i)
  {
    if events == [] {
      NothingRun();
    } else {
      var n := |events| - 1;
      var before := events[..n];
      LastDrain(events, i);
      hide Run, DrainedAt;
      forall k: nat | k < n ensures DrainedAt(before, k, i) == DrainedAt(events, k, i) {
        DrainedBefore(events, k, i);
      }
      if i < |Run(before).fates| {
        StaleExactly(before, i);
      } else {
        forall k: nat | k < n ensures !DrainedAt(before, k, i) {
          EarlierDrain(before, k, i);
        }
      }
    }
  }

  lemma DrainedBefore(events: seq<Event>, k: nat, i: nat)
    requires k < |events| - 1
    ensures DrainedAt(events[..|events| - 1], k, i) == DrainedAt(events, k, i)
  {
    assert events[..|events| - 1][..k] == events[..k];
  }

  lemma LastDrain(events: seq<Event>, i: nat)
    requires events != [] && i < |Run(events).fates|
    ensures
      var before, n := events[..|events| - 1], |events| - 1;
      if i < |Run(before).fates| then Run(events).fates[i] == Run(before).fates[i] && !DrainedAt(events, n, i)
      else Run(events).fates[i] == Stale <==> DrainedAt(events, n, i)
  {
    var before := events[..|events| - 1];
    CountsOfRun(before);
    AllLeftQueue(before);
  }

  lemma EarlierDrain(events: seq<Event>, k: nat, i: nat)
    requires k < |events| && |Run(events).fates| <= i
    ensures !DrainedAt(events, k, i)
  {
    if events[k] == StartTurn {
      QueuedAtStartIsStale(events[..k], events[k + 1..]);
      assert events == events[..k] + [StartTurn] + events[k + 1..];
    }
  }

  /** A reply left over from an earlier turn is thrown away, and the new turn finds nothing to take. */
  lemma LeftoverIsThrownAway(text: string)
    ensures
      var s := Run([Push(Item(text, true)), StartTurn, Takes(0)]);
      s.fates == [Stale] && |s.turns| == 1 && s.turns[0].chunks == []
  {
    hide Run;
    NothingRun();
    var left := Item(text, true);
    var started := State([], [Turn(1, 0, WaitingFirst, [])], [left], [Stale]);
    RunsTo([], Push(left), State([left], [], [left], []), [Push(left)]);
    RunsTo([Push(left)], StartTurn, started, [Push(left), StartTurn]);
    RunsTo([Push(left), StartTurn], Takes(0), started, [Push(left), StartTurn, Takes(0)]);
  }

  // ---------- one turn at a time ----------

  /** A turn starts only when no other turn is waiting. */
  ghost predicate Serial(events: seq<Event>) {
    events != [] ==>
      var before, e := events[..|events| - 1], events[|events| - 1];
      Serial(before) &&
      (e == StartTurn ==>
         forall t | 0 <= t < |Run(before).turns| :: !Waiting(Run(before).turns[t].phase))
  }

  /** Only the latest turn can wait, and each turn's items are one block from its start on. */
  ghost predicate BlockInv(s: State) {
    && (forall t | 0 <= t < |s.turns| && Waiting(s.turns[t].phase) :: t == |s.turns| - 1)
    && (forall t | 0 <= t < |s.turns| && Waiting(s.turns[t].phase) :: s.turns[t].start + s.turns[t].count == |s.fates|)
    && (forall t | 0 <= t < |s.turns| :: s.turns[t].start + s.turns[t].count <= |s.fates|)
    && (forall t, i | 0 <= t < |s.turns| && 0 <= i < |s.fates| ::
          s.fates[i] == Spoken(t) <==> s.turns[t].start <= i < s.turns[t].start + s.turns[t].count)
  }

  lemma BlockStep(s: State, e: Event)
    requires RunInv(s) && BlockInv(s)
    requires e == StartTurn ==> forall t | 0 <= t < |s.turns| :: !Waiting(s.turns[t].phase)
    ensures BlockInv(Step(s, e))
  {
    hide TurnExact, TakenBy, ChunksOf, Emitted;
  }

  /** When turns do not overlap, a turn speaks one contiguous block of items, the first pushed after its drain. */
  lemma {:induction false} SerialTurnsSpeakBlocks(events: seq<Event>)
    requires Serial(events)
    ensures BlockInv(Run(events))
  {
    if events != [] {
      hide Step, RunInv, BlockInv;
      var before, e := events[..|events| - 1], events[|events| - 1];
      SerialTurnsSpeakBlocks(before);
      EveryRunConserves(before);
      BlockStep(Run(before), e);
    } else {
      assert BlockInv(INITIAL);
    }
  }

  lemma RunsTo(events: seq<Event>, e: Event, t: State, more: seq<Event>)
    requires t == Step(Run(events), e) && more == events + [e]
    ensures Run(more) == t
  {
    assert more[..|events|] == events;
  }

  /** Two turns that wait on one queue at once speak interleaved items, so neither of them takes a block. */
  lemma OverlappingTurnsInterleave(x: string, y: string, z: string)
    ensures
      var a, b, c := Item(x, false), Item(y, false), Item(z, false);
      var events := [StartTurn, StartTurn, Push(a), Push(b), Push(c), Takes(0), Takes(1), Takes(0)];
      && !Serial(events)
      && Run(events).pushed == [a, b, c]
      && Run(events).fates == [Spoken(0), Spoken(1), Spoken(0)]
      && |Run(events).turns| == 2 && Run(events).turns[0].chunks == Emitted(x) + Emitted(z)
  {
    hide Emitted, Run, Serial;
    var a, b, c := Item(x, false), Item(y, false), Item(z, false);
    var idle := Turn(0, 0, WaitingFirst, []);
    var first, second := Took(idle, a), Took(idle, b);
    var e5 := [StartTurn, StartTurn, Push(a), Push(b), Push(c)];
    TwoTurnsWait(a, b, c);
    RunsTo(e5, Takes(0), State([b, c], [first, idle], [a, b, c], [Spoken(0)]), e5 + [Takes(0)]);
    RunsTo(e5 + [Takes(0)], Takes(1), State([c], [first, second], [a, b, c], [Spoken(0), Spoken(1)]),
           e5 + [Takes(0), Takes(1)]);
    RunsTo(e5 + [Takes(0), Takes(1)], Takes(0),
           State([], [Took(first, c), second], [a, b, c], [Spoken(0), Spoken(1), Spoken(0)]),
           e5 + [Takes(0), Takes(1), Takes(0)]);
    assert e5 + [Takes(0), Takes(1), Takes(0)] ==
           [StartTurn, StartTurn, Push(a), Push(b), Push(c), Takes(0), Takes(1), Takes(0)];
    NotSerial([StartTurn, StartTurn], e5 + [Takes(0), Takes(1), Takes(0)]);
  }

  lemma TwoTurnsWait(a: Item, b: Item, c: Item)
    ensures Run([StartTurn]).turns == [Turn(0, 0, WaitingFirst, [])]
    ensures
      var idle := Turn(0, 0, WaitingFirst, []);
      Run([StartTurn, StartTurn, Push(a), Push(b), Push(c)]) == State([a, b, c], [idle, idle], [a, b, c], [])
  {
    hide Run;
    NothingRun();
    var idle := Turn(0, 0, WaitingFirst, []);
    var e2 := [StartTurn, StartTurn];
    RunsTo([], StartTurn, State([], [idle], [], []), [StartTurn]);
    RunsTo([StartTurn], StartTurn, State([], [idle, idle], [], []), e2);
    RunsTo(e2, Push(a), State([a], [idle, idle], [a], []), e2 + [Push(a)]);
    RunsTo(e2 + [Push(a)], Push(b), State([a, b], [idle, idle], [a, b], []), e2 + [Push(a), Push(b)]);
    RunsTo(e2 + [Push(a), Push(b)], Push(c), State([a, b, c], [idle, idle], [a, b, c], []),
           [StartTurn, StartTurn, Push(a), Push(b), Push(c)]);
  }

  lemma NothingRun()
    ensures Run([]) == INITIAL
  {
  }

  lemma NotSerial(events: seq<Event>, more: seq<Event>)
    requires |more| >= 2 && more[..2] == events == [StartTurn, StartTurn]
    requires Run([StartTurn]).turns == [Turn(0, 0, WaitingFirst, [])]
    ensures !Serial(more)
  {
    assert events[..1] == [StartTurn];
    assert !Serial(events) by {
      assert Waiting(Run([StartTurn]).turns[0].phase);
    }
    PrefixSerial(more, 2);
  }

  lemma {:induction false} PrefixSerial(events: seq<Event>, n: nat)
    requires n <= |events|
    ensures Serial(events) ==> Serial(events[..n])
  {
    if n < |events| {
      var m := |events| - 1;
      assert events[..m][..n] == events[..n];
      PrefixSerial(events[..m], n);
    } else {
      assert events[..n] == events;
    }
  }

  /** What a turn speaks when the given items come to it, up to its first end-of-turn item. */
  function Speaks(items: seq<Item>): seq<string> {
    if items == [] then []
    else if items[0].eot then Emitted(items[0].text)
    else Emitted(items[0].text) + Speaks(items[1..])
  }

  lemma {:induction false} SpeaksIsChunks(items: seq<Item>, later: seq<Item>)
    requires items != [] && items[|items| - 1].eot
    requires forall i | 0 <= i < |items| - 1 :: !items[i].eot
    ensures Speaks(items + later) == ChunksOf(items)
  {
    var first, rest := items[0], items[1..];
    assert (items + later)[1..] == rest + later;
    if rest == [] {
      assert items == [] + [first];
      ChunksOfMore([], first);
    } else {
      SpeaksIsChunks(rest, later);
      ChunksOfCons(first, rest);
      assert items == [first] + rest;
    }
  }

  lemma {:induction false} ChunksOfCons(first: Item, rest: seq<Item>)
    ensures ChunksOf([first] + rest) == Emitted(first.text) + ChunksOf(rest)
  {
    hide Emitted;
    if rest == [] {
      assert [first] + rest == [] + [first];
      ChunksOfMore([], first);
    } else {
      hide ChunksOf;
      var init, last := rest[..|rest| - 1], rest[|rest| - 1];
      ChunksOfCons(first, init);
      assert rest == init + [last] && [first] + rest == [first] + init + [last];
      ChunksOfMore([first] + init, last);
      ChunksOfMore(init, last);
      assert Emitted(first.text) + ChunksOf(init) + Emitted(last.text)
             == Emitted(first.text) + (ChunksOf(init) + Emitted(last.text));
    }
  }

  /** In every run, a turn that finished spoke its items up to the first end-of-turn item, and that is all it took. */
  lemma FinishedTurnSpeaks(events: seq<Event>, t: nat, later: seq<Item>)
    requires t < |Run(events).turns| && Run(events).turns[t].phase == Finished
    ensures |Run(events).fates| <= |Run(events).pushed|
    ensures Run(events).turns[t].chunks == Speaks(TakenBy(Run(events).pushed, Run(events).fates, t) + later)
  {
    EveryRunConserves(events);
    var s := Run(events);
    assert TurnExact(s, t);
    SpeaksIsChunks(TakenBy(s.pushed, s.fates, t), later);
  }
}
