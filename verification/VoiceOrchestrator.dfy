/**
 The turn orchestrator of a realtime voice call: after the user stops, a race timer
 and the text brain's answer compete to start the one reply of that round.
 */
module VoiceOrchestrator {
  import opened Wrappers

  // ---------- states and events ----------

  /**
   live: the scheduled, not cancelled timers by handle, with the round they were given;
   awaiting: the round in which each suspended injection started.
   */
  datatype State = State(round: nat, openRound: nat, repliedRound: nat, raceHandle: Option<nat>,
                         muted: bool, closed: bool, live: map<nat, nat>, nextHandle: nat,
                         awaiting: seq<nat>, replies: seq<nat>)

  /** An injection is two events, before and after its await, so that anything may happen in between. */
  datatype Event =
    | UserStarted
    | UserStopped
    | InjectStarts(text: string)
    | InjectResumes(k: nat, failed: bool)
    | SetMuted(muted: bool)
    | TimerFires(handle: nat)
    | Close

  const INITIAL := State(0, 0, 0, None, false, false, map[], 0, [], [])

  function CancelTimer(s: State): State {
    if s.raceHandle.None? then s else s.(raceHandle := None, live := s.live - {s.raceHandle.value})
  }

  function StartTimer(s: State): State {
    s.(raceHandle := Some(s.nextHandle), live := s.live[s.nextHandle := s.round], nextHandle := s.nextHandle + 1)
  }

  function DoReply(s: State, r: nat): State {
    if r <= s.repliedRound then s
    else
      var answered := CancelTimer(s.(repliedRound := r));
      answered.(replies := answered.replies + [r])
  }

  function OnUserStarted(s: State): State {
    if s.closed then s else CancelTimer(s).(openRound := 0)
  }

  function OnUserStopped(s: State): State {
    if s.closed then s
    else
      var waiting := CancelTimer(s.(round := s.round + 1, openRound := s.round + 1));
      if s.muted then waiting else StartTimer(waiting)
  }

  function OnInjectStarts(s: State, text: string): State {
    if s.closed || text == "" then s else s.(awaiting := s.awaiting + [s.round])
  }

  /** The closed flag is not looked at again after the await. */
  function OnInjectResumes(s: State, k: nat, failed: bool): State {
    if k >= |s.awaiting| then s
    else
      var resumed := s.(awaiting := s.awaiting[..k] + s.awaiting[k + 1..]);
      if !failed && !s.muted && s.openRound != 0 && s.openRound > s.repliedRound then DoReply(resumed, s.openRound)
      else resumed
  }

  function OnSetMuted(s: State, muted: bool): State {
    if muted then CancelTimer(s.(muted := true)) else s.(muted := false)
  }

  function OnTimerFires(s: State, handle: nat): State {
    if handle !in s.live then s
    else
      var r := s.live[handle];
      var fired := s.(live := s.live - {handle}, raceHandle := None);
      if s.closed || s.muted then fired
      else if r == s.openRound && r > s.repliedRound then DoReply(fired, r)
      else fired
  }

  function OnClose(s: State): State {
    CancelTimer(s.(closed := true))
  }

  function Step(s: State, e: Event): State {
    match e
    case UserStarted => OnUserStarted(s)
    case UserStopped => OnUserStopped(s)
    case InjectStarts(text) => OnInjectStarts(s, text)
    case InjectResumes(k, failed) => OnInjectResumes(s, k, failed)
    case SetMuted(muted) => OnSetMuted(s, muted)
    case TimerFires(handle) => OnTimerFires(s, handle)
    case Close => OnClose(s)
  }

  function Run(events: seq<Event>): State {
    if events == [] then INITIAL else Step(Run(events[..|events| - 1]), events[|events| - 1])
  }

  lemma NothingRun()
    ensures Run([]) == INITIAL
  {
  }

  lemma RunsTo(events: seq<Event>, e: Event, t: State, more: seq<Event>)
    requires t == Step(Run(events), e) && more == events + [e]
    ensures Run(more) == t
  {
    assert more[..|events|] == events;
  }

  // ---------- the classes ----------

  /** The event loop's timers: a cancelled handle never fires. */
  class EventLoop {
    var live: map<nat, nat>
    var nextHandle: nat

    constructor ()
      ensures live == map[] && nextHandle == 0
    {
      live, nextHandle := map[], 0;
    }

    method CallLater(round: nat) returns (handle: nat)
      modifies this
      ensures handle == old(nextHandle) && nextHandle == handle + 1 && live == old(live)[handle := round]
    {
      handle := nextHandle;
      live := live[handle := round];
      nextHandle := nextHandle + 1;
    }

    method Cancel(handle: nat)
      modifies this`live
      ensures live == old(live) - {handle}
    {
      live := live - {handle};
    }
  }

  class Orchestrator {
    const loop: EventLoop
    var round: nat
    var openRound: nat
    var repliedRound: nat
    var raceHandle: Option<nat>
    var muted: bool
    var closed: bool
    var awaiting: seq<nat>
    var replies: seq<nat>

    constructor (loop: EventLoop)
      requires loop.live == map[] && loop.nextHandle == 0
      ensures this.loop == loop && Value() == INITIAL
    {
      this.loop := loop;
      round, openRound, repliedRound := 0, 0, 0;
      raceHandle := None;
      muted, closed := false, false;
      awaiting, replies := [], [];
    }

    ghost function Value(): State
      reads this, loop
    {
      State(round, openRound, repliedRound, raceHandle, muted, closed, loop.live, loop.nextHandle, awaiting, replies)
    }

    method CancelRaceTimer()
      modifies this`raceHandle, loop
      ensures Value() == CancelTimer(old(Value()))
    {
      if raceHandle.Some? {
        loop.Cancel(raceHandle.value);
        raceHandle := None;
      }
    }

    method Reply(r: nat)
      modifies this`repliedRound, this`raceHandle, this`replies, loop
      ensures Value() == DoReply(old(Value()), r)
    {
      if r <= repliedRound {
        return;
      }
      repliedRound := r;
      CancelRaceTimer();
      replies := replies + [r];
    }

    method NotifyUserStarted()
      modifies this, loop
      ensures Value() == OnUserStarted(old(Value()))
    {
      if closed {
        return;
      }
      CancelRaceTimer();
      openRound := 0;
    }

    method NotifyUserStopped()
      modifies this, loop
      ensures Value() == OnUserStopped(old(Value()))
    {
      if closed {
        return;
      }
      round := round + 1;
      openRound := round;
      CancelRaceTimer();
      if muted {
        return;
      }
      var handle := loop.CallLater(round);
      raceHandle := Some(handle);
    }

    method StartInject(text: string)
      modifies this`awaiting
      ensures Value() == OnInjectStarts(old(Value()), text)
    {
      if closed || text == "" {
        return;
      }
      awaiting := awaiting + [round];
    }

    method ResumeInject(k: nat, failed: bool)
      modifies this, loop
      ensures Value() == OnInjectResumes(old(Value()), k, failed)
    {
      if k >= |awaiting| {
        return;
      }
      awaiting := awaiting[..k] + awaiting[k + 1..];
      if failed {
        return;
      }
      if !muted && openRound != 0 && openRound > repliedRound {
        Reply(openRound);
      }
    }

    method Mute(on: bool)
      modifies this, loop
      ensures Value() == OnSetMuted(old(Value()), on)
    {
      muted := on;
      if muted {
        CancelRaceTimer();
      }
    }

    /** The loop runs a due timer: it leaves the schedule and calls back with its round. */
    method FireTimer(handle: nat)
      modifies this, loop
      ensures Value() == OnTimerFires(old(Value()), handle)
    {
      if handle !in loop.live {
        return;
      }
      var r := loop.live[handle];
      loop.Cancel(handle);
      raceHandle := None;
      if closed || muted {
        return;
      }
      if r == openRound && r > repliedRound {
        Reply(r);
      }
    }

    method Shutdown()
      modifies this, loop
      ensures Value() == OnClose(old(Value()))
    {
      closed := true;
      CancelRaceTimer();
    }
  }

  // ---------- invariants of every interleaving ----------

  ghost predicate Increasing(rounds: seq<nat>) {
    forall i, j | 0 <= i < j < |rounds| :: rounds[i] < rounds[j]
  }

  /** At most one live timer, known to the orchestrator and due to answer the open round. */
  ghost predicate TimerInv(s: State) {
    && (s.raceHandle.None? ==> s.live == map[])
    && (s.raceHandle.Some? ==>
          && s.live == map[s.raceHandle.value := s.openRound]
          && s.raceHandle.value < s.nextHandle
          && s.openRound == s.round > s.repliedRound
          && !s.muted && !s.closed)
  }

  ghost predicate RoundInv(s: State) {
    && (s.openRound == 0 || s.openRound == s.round)
    && s.repliedRound <= s.round
    && Increasing(s.replies)
    && (forall r | r in s.replies :: 0 < r <= s.repliedRound)
    && (s.replies != [] ==> s.replies[|s.replies| - 1] == s.repliedRound)
    && (s.replies == [] ==> s.repliedRound == 0)
  }

  lemma StepKeepsInvariants(s: State, e: Event)
    requires TimerInv(s) && RoundInv(s)
    ensures TimerInv(Step(s, e)) && RoundInv(Step(s, e))
  {
    hide Increasing;
    if s.raceHandle.Some? {
      assert s.live - {s.raceHandle.value} == map[];
    }
    if s.openRound > s.repliedRound {
      AppendLater(s.replies, s.openRound);
    }
  }

  lemma AppendLater(rounds: seq<nat>, r: nat)
    requires Increasing(rounds) && (rounds != [] ==> rounds[|rounds| - 1] < r)
    ensures Increasing(rounds + [r])
  {
  }

  /** Whatever the interleaving, including injections suspended at their await, the invariants hold. */
  lemma {:induction false} RunKeepsInvariants(events: seq<Event>)
    ensures TimerInv(Run(events)) && RoundInv(Run(events))
  {
    if events != [] {
      hide Step, TimerInv, RoundInv;
      RunKeepsInvariants(events[..|events| - 1]);
      StepKeepsInvariants(Run(events[..|events| - 1]), events[|events| - 1]);
    } else {
      assert TimerInv(INITIAL) && RoundInv(INITIAL);
    }
  }

  /** At most one timer is live, and one that fires always replies, to the open round. */
  lemma FiringTimerReplies(events: seq<Event>, handle: nat)
    ensures |Run(events).live| <= 1
    ensures handle in Run(events).live ==>
              && Run(events).live[handle] == Run(events).openRound == Run(events).round
              && Step(Run(events), TimerFires(handle)).replies == Run(events).replies + [Run(events).openRound]
  {
    RunKeepsInvariants(events);
    var s := Run(events);
    if s.raceHandle.Some? {
      assert s.live.Keys == {s.raceHandle.value};
      assert |s.live| == 1;
    }
  }

  /** Whether the call was muted at some point since the open round opened. */
  ghost function MutedSinceOpen(events: seq<Event>): bool {
    if events == [] then false
    else
      var before, e := events[..|events| - 1], events[|events| - 1];
      match e
      case UserStopped => if Run(before).closed then MutedSinceOpen(before) else Run(before).muted
      case SetMuted(muted) => muted || MutedSinceOpen(before)
      case _ => MutedSinceOpen(before)
  }

  /** An open, unanswered round of an open call that was not muted meanwhile has its timer running. */
  lemma {:induction false} UnansweredHasTimer(events: seq<Event>)
    ensures
      var s := Run(events);
      s.openRound > s.repliedRound && !s.closed && !MutedSinceOpen(events) ==> s.raceHandle.Some? && !s.muted
  {
    if events != [] {
      var before, e := events[..|events| - 1], events[|events| - 1];
      UnansweredHasTimer(before);
      RunKeepsInvariants(before);
      UnansweredStep(Run(before), e);
    }
  }

  lemma UnansweredStep(s: State, e: Event)
    requires TimerInv(s) && RoundInv(s)
    ensures
      var t := Step(s, e);
      t.openRound > t.repliedRound && !t.closed && t.raceHandle.None? ==>
        || (e.UserStopped? && s.muted)
        || (e.SetMuted? && e.muted)
        || (!e.UserStopped? && s.openRound > s.repliedRound && !s.closed && s.raceHandle.None?)
    ensures
      var t := Step(s, e);
      t.muted ==> e == SetMuted(true) || s.muted
  {
  }

  // ---------- reply safety ----------

  /** A step adds at most one reply: to the open round, later than all before, and never while muted. */
  lemma ReplyIsSafe(events: seq<Event>, e: Event)
    ensures
      var s, t := Run(events), Step(Run(events), e);
      t.replies == s.replies ||
      (t.replies == s.replies + [s.openRound]
       && !s.muted && s.openRound == s.round
       && (forall r | r in s.replies :: r < s.openRound)
       && (e.InjectResumes? ==> e.k < |s.awaiting| && !e.failed)
       && (e.InjectResumes? || (e.TimerFires? && !s.closed)))
  {
    RunKeepsInvariants(events);
  }

  /** The rounds replied to are strictly increasing and never outnumber the finished user turns. */
  lemma AtMostOneReplyPerTurn(events: seq<Event>)
    ensures Increasing(Run(events).replies)
    ensures |Run(events).replies| <= Run(events).round
    ensures forall r | r in Run(events).replies :: 0 < r <= Run(events).round
  {
    RunKeepsInvariants(events);
    IncreasingIsShort(Run(events).replies, Run(events).round);
  }

  lemma {:induction false} IncreasingIsShort(rounds: seq<nat>, bound: nat)
    requires Increasing(rounds) && forall r | r in rounds :: 0 < r <= bound
    ensures |rounds| <= bound
  {
    if rounds != [] {
      var n := |rounds| - 1;
      assert rounds[n] in rounds;
      assert forall r | r in rounds[..n] :: r in rounds;
      assert forall r | r in rounds[..n] :: r < rounds[n];
      IncreasingIsShort(rounds[..n], rounds[n] - 1);
    }
  }

  /** The user's turns that finished before the call was closed. */
  ghost function TurnsHeard(events: seq<Event>): nat {
    if events == [] then 0
    else
      var before, e := events[..|events| - 1], events[|events| - 1];
      TurnsHeard(before) + if e == UserStopped && Close !in before then 1 else 0
  }

  /** The user, heard by the open call, spoke again after the turn numbered r. */
  ghost predicate SpokenOver(events: seq<Event>, r: nat) {
    if events == [] then false
    else
      var before, e := events[..|events| - 1], events[|events| - 1];
      SpokenOver(before, r) || (e == UserStarted && Close !in before && r <= TurnsHeard(before))
  }

  lemma StepRounds(s: State, e: Event)
    ensures Step(s, e).closed == (s.closed || e == Close)
    ensures Step(s, e).round == if e == UserStopped && !s.closed then s.round + 1 else s.round
    ensures Step(s, e).openRound == if s.closed then s.openRound
                                    else if e == UserStopped then s.round + 1
                                    else if e == UserStarted then 0 else s.openRound
  {
  }

  /** Rounds number the user turns the open call heard. */
  lemma {:induction false} RoundsCountTurns(events: seq<Event>)
    ensures Run(events).closed <==> Close in events
    ensures Run(events).round == TurnsHeard(events)
  {
    if events != [] {
      hide Step;
      var before, e := events[..|events| - 1], events[|events| - 1];
      assert events == before + [e];
      RoundsCountTurns(before);
      StepRounds(Run(before), e);
    }
  }

  lemma {:induction false} OpenRoundNotSpokenOver(events: seq<Event>)
    ensures Run(events).openRound != 0 ==> !SpokenOver(events, Run(events).openRound)
    ensures forall r: nat | SpokenOver(events, r) :: r <= TurnsHeard(events)
  {
    if events != [] {
      hide Step;
      var before, e := events[..|events| - 1], events[|events| - 1];
      OpenRoundNotSpokenOver(before);
      RoundsCountTurns(before);
      StepRounds(Run(before), e);
    }
  }

  /** No round is answered after the user, heard by the open call, has spoken over it. */
  lemma NeverAnswersSpokenOver(events: seq<Event>, e: Event, r: nat)
    requires Step(Run(events), e).replies == Run(events).replies + [r]
    ensures !SpokenOver(events, r)
  {
    hide Step, SpokenOver;
    ReplyIsOpenRound(events, e, r);
    OpenRoundNotSpokenOver(events);
  }

  lemma ReplyIsOpenRound(events: seq<Event>, e: Event, r: nat)
    requires Step(Run(events), e).replies == Run(events).replies + [r]
    ensures r == Run(events).openRound == Run(events).round > 0
  {
    hide Step;
    ReplyIsSafe(events, e);
    RunKeepsInvariants(events);
    StepKeepsInvariants(Run(events), e);
    var s, t := Run(events), Step(Run(events), e);
    assert |t.replies| == |s.replies| + 1 && t.replies[|s.replies|] == r;
    assert r in t.replies;
  }

  // ---------- exactly when a reply happens ----------

  ghost predicate MutedNow(events: seq<Event>) {
    if events == [] then false
    else
      var e := events[|events| - 1];
      if e.SetMuted? then e.muted else MutedNow(events[..|events| - 1])
  }

  lemma StepMuted(s: State, e: Event)
    ensures Step(s, e).muted == if e.SetMuted? then e.muted else s.muted
  {
  }

  /** The open round is the last turn heard, unless the user has spoken over it. */
  lemma {:induction false} OpenRoundExactly(events: seq<Event>)
    ensures Run(events).openRound == if SpokenOver(events, TurnsHeard(events)) then 0 else TurnsHeard(events)
    ensures Run(events).muted == MutedNow(events)
  {
    if events != [] {
      hide Step;
      var before, e := events[..|events| - 1], events[|events| - 1];
      OpenRoundExactly(before);
      OpenRoundNotSpokenOver(before);
      RoundsCountTurns(before);
      StepRounds(Run(before), e);
      StepMuted(Run(before), e);
    }
  }

  /** The last turn heard waits for its reply: the user is silent since, and nothing has answered it. */
  ghost predicate Waits(events: seq<Event>) {
    !SpokenOver(events, TurnsHeard(events)) && TurnsHeard(events) > 0 && TurnsHeard(events) !in Run(events).replies
  }

  lemma WaitsMeaning(events: seq<Event>)
    ensures Waits(events) <==> Run(events).openRound > Run(events).repliedRound
  {
    hide SpokenOver, TurnsHeard;
    RunKeepsInvariants(events);
    OpenRoundExactly(events);
    RoundsCountTurns(events);
    var s := Run(events);
    if s.replies != [] {
      assert s.replies[|s.replies| - 1] in s.replies;
    }
  }

  /**
   In every run, a resumed injection replies to the last turn heard if and only if it did not fail, the call is
   not muted, and that turn waits for its reply; it then stops the timer.
   */
  lemma InjectionRepliesExactly(events: seq<Event>, k: nat, failed: bool)
    ensures
      var s, t := Run(events), Step(Run(events), InjectResumes(k, failed));
      if k < |s.awaiting| && !failed && !MutedNow(events) && Waits(events)
      then t.replies == s.replies + [TurnsHeard(events)] && t.live == map[] && t.raceHandle.None?
      else t.replies == s.replies && t.live == s.live && t.raceHandle == s.raceHandle
  {
    hide SpokenOver, TurnsHeard, Waits;
    WaitsMeaning(events);
    RunKeepsInvariants(events);
    OpenRoundExactly(events);
    RoundsCountTurns(events);
    var s := Run(events);
    if s.raceHandle.Some? {
      assert s.live - {s.raceHandle.value} == map[];
    }
  }

  // ---------- injections that answer a later round ----------

  /** An injection remembers how many user turns the call had heard when it started. */
  lemma InjectionStartsInRound(events: seq<Event>, text: string)
    ensures Step(Run(events), InjectStarts(text)).awaiting ==
            if Close !in events && text != "" then Run(events).awaiting + [TurnsHeard(events)]
            else Run(events).awaiting
  {
    RoundsCountTurns(events);
  }

  lemma {:induction false} AwaitingStartedBefore(events: seq<Event>)
    ensures forall r | r in Run(events).awaiting :: r <= Run(events).round
  {
    if events != [] {
      var before, e := events[..|events| - 1], events[|events| - 1];
      AwaitingStartedBefore(before);
      var s := Run(before);
      assert Step(s, e).round >= s.round;
      if e.InjectResumes? && e.k < |s.awaiting| {
        assert forall r | r in s.awaiting[..e.k] + s.awaiting[e.k + 1..] :: r in s.awaiting;
      }
    }
  }

  /**
   When a suspended injection resumes, in any run, it answers a round later than the one it started in
   if and only if the user finished another turn since, that turn is open and unanswered, and the call is not muted.
   */
  lemma AnswersLaterRoundExactly(events: seq<Event>, k: nat)
    requires k < |Run(events).awaiting|
    ensures
      var s, t := Run(events), Step(Run(events), InjectResumes(k, false));
      (exists r :: t.replies == s.replies + [r] && r > s.awaiting[k])
      <==> s.awaiting[k] < TurnsHeard(events) && s.openRound > s.repliedRound && !s.muted
  {
    RunKeepsInvariants(events);
    RoundsCountTurns(events);
    var s, t := Run(events), Step(Run(events), InjectResumes(k, false));
    if s.openRound > s.repliedRound && !s.muted {
      assert t.replies == s.replies + [s.openRound];
      forall r | t.replies == s.replies + [r] ensures r == s.openRound {
        assert t.replies[|s.replies|] == r;
      }
    } else {
      assert t.replies == s.replies;
      forall r ensures t.replies != s.replies + [r] {
        assert |s.replies + [r]| == |s.replies| + 1;
      }
    }
  }

  /** Otherwise it answers its own round or none, never an earlier one. */
  lemma NeverAnswersEarlierRound(events: seq<Event>, k: nat, r: nat)
    requires k < |Run(events).awaiting|
    requires Step(Run(events), InjectResumes(k, false)).replies == Run(events).replies + [r]
    ensures r >= Run(events).awaiting[k]
  {
    hide Step;
    ReplyIsOpenRound(events, InjectResumes(k, false), r);
    RunKeepsInvariants(events);
    AwaitingStartedBefore(events);
    assert Run(events).awaiting[k] in Run(events).awaiting;
  }

  /** The answer to the first turn, still awaited when the user spoke on, becomes the reply to the second turn. */
  lemma StaleInjectionAnswersNextTurn()
    ensures
      var events := [UserStopped, InjectStarts("a"), UserStarted, UserStopped];
      && Run(events).awaiting == [1]
      && Run(events + [InjectResumes(0, false)]).replies == [2]
  {
    var events := [UserStopped, InjectStarts("a"), UserStarted, UserStopped];
    hide Run;
    NothingRun();
    var s1 := State(1, 1, 0, Some(0), false, false, map[0 := 1], 1, [], []);
    var s2 := s1.(awaiting := [1]);
    var s3 := State(1, 0, 0, None, false, false, map[], 1, [1], []);
    var s4 := State(2, 2, 0, Some(1), false, false, map[1 := 2], 2, [1], []);
    var s5 := State(2, 2, 2, None, false, false, map[], 2, [], [2]);
    RunsTo([], UserStopped, s1, [UserStopped]);
    RunsTo([UserStopped], InjectStarts("a"), s2, [UserStopped, InjectStarts("a")]);
    assert s2.live - {0} == map[] && s4.live - {1} == map[];
    RunsTo([UserStopped, InjectStarts("a")], UserStarted, s3, [UserStopped, InjectStarts("a"), UserStarted]);
    RunsTo([UserStopped, InjectStarts("a"), UserStarted], UserStopped, s4, events);
    RunsTo(events, InjectResumes(0, false), s5, events + [InjectResumes(0, false)]);
  }

  // ---------- after the call is closed ----------

  /** The state after more events. */
  function RunFrom(s: State, events: seq<Event>): State
    decreases |events|
  {
    if events == [] then s else RunFrom(Step(s, events[0]), events[1..])
  }

  /**
   Among the events after the close, one of the injections still awaiting resumes well while the call is not
   muted.
   */
  ghost predicate ResumesUnmuted(awaiting: nat, muted: bool, later: seq<Event>)
    decreases |later|
  {
    later != [] &&
    match later[0]
    case InjectResumes(k, failed) =>
      if k >= awaiting then ResumesUnmuted(awaiting, muted, later[1..])
      else (!failed && !muted) || ResumesUnmuted(awaiting - 1, muted, later[1..])
    case SetMuted(on) => ResumesUnmuted(awaiting, on, later[1..])
    case _ => ResumesUnmuted(awaiting, muted, later[1..])
  }

  lemma {:induction false} ClosedRun(s: State, later: seq<Event>)
    requires s.closed && s.raceHandle.None? && s.live == map[]
    ensures
      var t := RunFrom(s, later);
      if s.openRound > s.repliedRound && ResumesUnmuted(|s.awaiting|, s.muted, later)
      then t.replies == s.replies + [s.openRound] else t.replies == s.replies
    decreases |later|
  {
    if later != [] {
      ClosedRun(Step(s, later[0]), later[1..]);
    }
  }

  lemma ClosingState(events: seq<Event>)
    ensures
      var s, c := Run(events), Step(Run(events), Close);
      && c.closed && c.raceHandle.None? && c.live == map[] && c.replies == s.replies && c.awaiting == s.awaiting
      && c.openRound == s.openRound && c.repliedRound == s.repliedRound && c.muted == s.muted
  {
    hide Run;
    RunKeepsInvariants(events);
    StepKeepsInvariants(Run(events), Close);
  }

  /**
   Whatever follows a close, the replies grow by the open round, once, exactly if that round was unanswered and
   one of the injections awaiting at the close resumes well while the call is not muted; otherwise they do not grow.
   */
  lemma RepliesAfterClose(events: seq<Event>, later: seq<Event>)
    ensures
      var s, t := Run(events), RunFrom(Step(Run(events), Close), later);
      if s.openRound > s.repliedRound && ResumesUnmuted(|s.awaiting|, s.muted, later)
      then t.replies == s.replies + [s.openRound] else t.replies == s.replies
  {
    ClosingState(events);
    ClosedRun(Step(Run(events), Close), later);
  }

  lemma {:induction false} NothingAwaiting(muted: bool, later: seq<Event>)
    ensures !ResumesUnmuted(0, muted, later)
    decreases |later|
  {
    if later != [] {
      NothingAwaiting(if later[0].SetMuted? then later[0].muted else muted, later[1..]);
    }
  }

  /**
   A closed call can still answer if and only if an injection was awaiting and the open round unanswered at
   the close.
   */
  lemma AnswersAfterCloseExactly(events: seq<Event>)
    ensures
      var s, c := Run(events), Step(Run(events), Close);
      (exists later :: RunFrom(c, later).replies != c.replies) <==> |s.awaiting| > 0 && s.openRound > s.repliedRound
  {
    hide Step, Run;
    var s, c := Run(events), Step(Run(events), Close);
    ClosingState(events);
    if |s.awaiting| > 0 && s.openRound > s.repliedRound {
      var later := [SetMuted(false), InjectResumes(0, false)];
      assert later[1..] == [InjectResumes(0, false)];
      RepliesAfterClose(events, later);
      assert |RunFrom(c, later).replies| == |c.replies| + 1;
    } else if |s.awaiting| == 0 {
      forall later ensures RunFrom(c, later).replies == c.replies {
        NothingAwaiting(s.muted, later);
        RepliesAfterClose(events, later);
      }
    } else {
      forall later ensures RunFrom(c, later).replies == c.replies {
        RepliesAfterClose(events, later);
      }
    }
  }

  /** After the call is closed at most one more reply happens, and only out of an injection already awaiting. */
  lemma AtMostOneReplyAfterClose(events: seq<Event>, later: seq<Event>)
    ensures
      var closing, t := Run(events), RunFrom(Step(Run(events), Close), later);
      && |closing.replies| <= |t.replies| <= |closing.replies| + 1
      && (t.replies != closing.replies ==> |closing.awaiting| > 0 && closing.openRound > closing.repliedRound)
  {
    hide Step, Run;
    RepliesAfterClose(events, later);
    if |Run(events).awaiting| == 0 {
      NothingAwaiting(Run(events).muted, later);
    }
  }

  // ---------- rounds spoken over unheard ----------

  /** The user spoke again after the turn numbered r, whether or not the call was still open to hear it. */
  ghost predicate SpokenOverAtAll(events: seq<Event>, r: nat) {
    if events == [] then false
    else
      var before, e := events[..|events| - 1], events[|events| - 1];
      SpokenOverAtAll(before, r) || (e == UserStarted && r <= TurnsHeard(before))
  }

  ghost predicate SpeaksAfterClose(events: seq<Event>) {
    if events == [] then false
    else
      var before, e := events[..|events| - 1], events[|events| - 1];
      SpeaksAfterClose(before) || (e == UserStarted && Close in before)
  }

  lemma {:induction false} OpenRoundSpokenOverAtAll(events: seq<Event>)
    ensures Run(events).openRound != 0 ==>
            (SpokenOverAtAll(events, Run(events).openRound) <==> SpeaksAfterClose(events))
    ensures forall r: nat | SpokenOverAtAll(events, r) :: r <= TurnsHeard(events)
    ensures SpeaksAfterClose(events) ==> Close in events
  {
    if events != [] {
      hide Step;
      var before, e := events[..|events| - 1], events[|events| - 1];
      assert events == before + [e];
      OpenRoundSpokenOverAtAll(before);
      RoundsCountTurns(before);
      RunKeepsInvariants(before);
      StepRounds(Run(before), e);
    }
  }

  /** In every run, a reply answers a round the user has spoken over exactly if the user spoke after the close. */
  lemma AnswersSpokenOverExactly(events: seq<Event>, e: Event, r: nat)
    requires Step(Run(events), e).replies == Run(events).replies + [r]
    ensures SpokenOverAtAll(events, r) <==> SpeaksAfterClose(events)
  {
    hide Step, SpokenOverAtAll, SpeaksAfterClose;
    ReplyIsOpenRound(events, e, r);
    OpenRoundSpokenOverAtAll(events);
  }

  /** That a closed call answers after the user spoke over it. */
  ghost predicate AnswersOver(c: State, later: seq<Event>, e: Event) {
    UserStarted in later && RunFrom(c, later + [e]).replies != RunFrom(c, later).replies
  }

  /** It can happen after exactly those runs after which a closed call can answer at all. */
  lemma AnswersSpokenOverPossible(events: seq<Event>)
    ensures
      var s, c := Run(events), Step(Run(events), Close);
      (exists later, e :: AnswersOver(c, later, e)) <==> |s.awaiting| > 0 && s.openRound > s.repliedRound
  {
    hide Step, Run;
    var s, c := Run(events), Step(Run(events), Close);
    if |s.awaiting| > 0 && s.openRound > s.repliedRound {
      var later, e := [SetMuted(false), UserStarted], InjectResumes(0, false);
      assert later[1..] == [UserStarted];
      assert (later + [e])[1..] == [UserStarted, e] && (later + [e])[1..][1..] == [e];
      RepliesAfterClose(events, later);
      RepliesAfterClose(events, later + [e]);
      assert !ResumesUnmuted(|s.awaiting|, s.muted, later);
      assert ResumesUnmuted(|s.awaiting|, false, [e]) && ResumesUnmuted(|s.awaiting|, false, [UserStarted, e]) by {
        assert [UserStarted, e][1..] == [e];
      }
      assert ResumesUnmuted(|s.awaiting|, s.muted, later + [e]);
      assert |RunFrom(c, later + [e]).replies| == |RunFrom(c, later).replies| + 1;
      assert AnswersOver(c, later, e);
    } else {
      AnswersAfterCloseExactly(events);
      assert forall later :: RunFrom(c, later).replies == c.replies;
    }
  }

  /** Speaking over a round goes unheard once the call is closed: a suspended injection still answers it. */
  lemma ClosedCallAnswersSpokenOver()
    ensures
      var events := [UserStopped, InjectStarts("a"), Close, UserStarted];
      && Run(events).closed && Run(events).replies == []
      && Run(events + [InjectResumes(0, false)]).replies == [1]
  {
    hide Run;
    NothingRun();
    var events := [UserStopped, InjectStarts("a"), Close, UserStarted];
    var s1 := State(1, 1, 0, Some(0), false, false, map[0 := 1], 1, [], []);
    var s2 := s1.(awaiting := [1]);
    var s3 := State(1, 1, 0, None, false, true, map[], 1, [1], []);
    var s5 := State(1, 1, 1, None, false, true, map[], 1, [], [1]);
    RunsTo([], UserStopped, s1, [UserStopped]);
    RunsTo([UserStopped], InjectStarts("a"), s2, [UserStopped, InjectStarts("a")]);
    assert s2.live - {0} == map[];
    RunsTo([UserStopped, InjectStarts("a")], Close, s3, [UserStopped, InjectStarts("a"), Close]);
    RunsTo([UserStopped, InjectStarts("a"), Close], UserStarted, s3, events);
    RunsTo(events, InjectResumes(0, false), s5, events + [InjectResumes(0, false)]);
  }
}
