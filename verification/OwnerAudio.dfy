/**
 The owner's interjections in a three-way call: detecting that the owner speaks, and
 withholding transcripts while the owner speaks and for a hold time afterwards.
 */
module OwnerAudio {
  import opened Wrappers

  // ---------- the detector ----------

  /** attack is the number of voiced frames in a row that starts a turn. */
  datatype Settings = Settings(threshold: real, attack: int, release: real) {
    predicate Valid() {
      attack >= 1
    }
  }

  datatype Detector = Detector(voicedRun: nat, active: bool, lastVoicedAt: real)

  datatype Frame = Frame(rms: real, now: real)

  const SILENT := Detector(0, false, 0.0)

  predicate Voiced(c: Settings, f: Frame) {
    f.rms >= c.threshold
  }

  function Fed(c: Settings, d: Detector, f: Frame): Detector {
    var heard := if Voiced(c, f) then d.(voicedRun := d.voicedRun + 1, lastVoicedAt := f.now) else d.(voicedRun := 0);
    if !d.active then heard.(active := heard.voicedRun >= c.attack)
    else if !Voiced(c, f) && f.now - heard.lastVoicedAt >= c.release then heard.(active := false)
    else heard
  }

  class OwnerTurnDetector {
    const settings: Settings
    var voicedRun: nat
    var active: bool
    var lastVoicedAt: real

    constructor (threshold: real, attackFrames: int, releaseSec: real)
      ensures settings == Settings(threshold, if attackFrames > 1 then attackFrames else 1, releaseSec)
      ensures settings.Valid() && Value() == SILENT
    {
      settings := Settings(threshold, if attackFrames > 1 then attackFrames else 1, releaseSec);
      voicedRun, active, lastVoicedAt := 0, false, 0.0;
    }

    ghost function Value(): Detector
      reads this
    {
      Detector(voicedRun, active, lastVoicedAt)
    }

    method Feed(rms: real, now: real) returns (speaking: bool)
      modifies this
      ensures Value() == Fed(settings, old(Value()), Frame(rms, now))
      ensures speaking == active
      ensures rms >= settings.threshold ==> voicedRun == old(voicedRun) + 1 && lastVoicedAt == now
      ensures rms < settings.threshold ==> voicedRun == 0 && lastVoicedAt == old(lastVoicedAt)
    {
      var voiced := rms >= settings.threshold;
      if voiced {
        voicedRun := voicedRun + 1;
        lastVoicedAt := now;
      } else {
        voicedRun := 0;
      }
      if !active {
        if voicedRun >= settings.attack {
          active := true;
        }
      } else if !voiced && now - lastVoicedAt >= settings.release {
        active := false;
      }
      return active;
    }
  }

  function Heard(c: Settings, frames: seq<Frame>): Detector {
    if frames == [] then SILENT else Fed(c, Heard(c, frames[..|frames| - 1]), frames[|frames| - 1])
  }

  /** How many voiced frames in a row end the list. */
  function TrailingVoiced(c: Settings, frames: seq<Frame>): nat {
    if frames == [] || frames[|frames| - 1].rms < c.threshold then 0 else 1 + TrailingVoiced(c, frames[..|frames| - 1])
  }

  /** The time of the last voiced frame; the detector starts at 0. */
  function LastVoicedTime(c: Settings, frames: seq<Frame>): real {
    if frames == [] then 0.0
    else if frames[|frames| - 1].rms >= c.threshold then frames[|frames| - 1].now
    else LastVoicedTime(c, frames[..|frames| - 1])
  }

  /** The detector's counters mean what they say, and silence is never as long voiced as an attack. */
  lemma {:induction false} DetectorInvariant(c: Settings, frames: seq<Frame>)
    requires c.Valid()
    ensures Heard(c, frames).voicedRun == TrailingVoiced(c, frames)
    ensures Heard(c, frames).lastVoicedAt == LastVoicedTime(c, frames)
    ensures !Heard(c, frames).active ==> TrailingVoiced(c, frames) < c.attack
  {
    if frames != [] {
      DetectorInvariant(c, frames[..|frames| - 1]);
    }
  }

  /** A turn starts exactly on the attack-th voiced frame in a row. */
  lemma StartsOnAttack(c: Settings, frames: seq<Frame>, f: Frame)
    requires c.Valid() && !Heard(c, frames).active
    ensures Heard(c, frames + [f]).active <==> TrailingVoiced(c, frames + [f]) == c.attack
  {
    assert (frames + [f])[..|frames|] == frames;
    DetectorInvariant(c, frames);
    DetectorInvariant(c, frames + [f]);
  }

  /** A turn ends exactly on an unvoiced frame at least the release time after the last voiced one. */
  lemma EndsAfterRelease(c: Settings, frames: seq<Frame>, f: Frame)
    requires c.Valid() && Heard(c, frames).active
    ensures !Heard(c, frames + [f]).active <==> f.rms < c.threshold && f.now - LastVoicedTime(c, frames) >= c.release
  {
    assert (frames + [f])[..|frames|] == frames;
    DetectorInvariant(c, frames);
  }

  /** How many turns started. */
  function Starts(c: Settings, frames: seq<Frame>): nat {
    if frames == [] then 0
    else
      var before := frames[..|frames| - 1];
      Starts(c, before) + if !Heard(c, before).active && Heard(c, frames).active then 1 else 0
  }

  /** Each turn took its attack frames, and between two turns lies at least one unvoiced frame. */
  lemma {:induction false} StartsBudget(c: Settings, frames: seq<Frame>)
    requires c.Valid()
    ensures Heard(c, frames).active ==> Starts(c, frames) >= 1 && |frames| >= Starts(c, frames) * (c.attack + 1) - 1
    ensures !Heard(c, frames).active ==> |frames| >= Starts(c, frames) * (c.attack + 1) + Heard(c, frames).voicedRun
  {
    if frames != [] {
      var before := frames[..|frames| - 1];
      StartsBudget(c, before);
      DetectorInvariant(c, before);
      Distribute(Starts(c, before), c.attack + 1);
    }
  }

  lemma Distribute(s: nat, k: int)
    ensures (s + 1) * k == s * k + k
    ensures s * (k + 1) == s * k + s
  {
  }

  /** Within n frames at most s turns can start with s * attack + (s - 1) <= n. */
  lemma StartsAreBounded(c: Settings, frames: seq<Frame>)
    requires c.Valid()
    ensures Starts(c, frames) > 0 ==> Starts(c, frames) * c.attack + (Starts(c, frames) - 1) <= |frames|
  {
    hide Starts, Heard;
    StartsBudget(c, frames);
    Distribute(Starts(c, frames), c.attack);
  }

  // ---------- the suppression window ----------

  /** holds: the pending hold timers with their due times; ended: when the last turn ended. */
  datatype Bridge = Bridge(turn: bool, release: Option<nat>, flag: bool, holds: map<nat, real>, nextHold: nat,
                           detector: Detector, ended: Option<real>)

  const IDLE := Bridge(false, None, false, map[], 0, SILENT, None)

  /** Audio frames of the owner's track, its end, and hold timers coming due. */
  datatype Event =
    | AudioFrame(muted: bool, rms: real)
    | TrackEnds
    | HoldElapses(id: nat)

  datatype Timed = Timed(at: real, event: Event)

  function CancelRelease(b: Bridge): Bridge {
    if b.release.None? then b else b.(release := None, holds := b.holds - {b.release.value})
  }

  function Begin(b: Bridge): Bridge {
    CancelRelease(b.(turn := true)).(flag := true)
  }

  /** A finished hold task stays referenced; a new one takes its place. */
  function End(b: Bridge, now: real, hold: real): Bridge {
    b.(turn := false, release := Some(b.nextHold), holds := b.holds[b.nextHold := now + hold],
       nextHold := b.nextHold + 1, ended := Some(now))
  }

  function OnFrame(c: Settings, hold: real, b: Bridge, now: real, muted: bool, rms: real): Bridge {
    if muted then if b.turn then End(b, now, hold) else b
    else
      var detector := Fed(c, b.detector, Frame(rms, now));
      var fed := b.(detector := detector);
      if detector.active && !b.turn then Begin(fed)
      else if b.turn && !detector.active then End(fed, now, hold)
      else fed
  }

  /** A hold timer clears the flag once it is due; a cancelled one never does. */
  function OnHold(b: Bridge, now: real, id: nat): Bridge {
    if id !in b.holds || now < b.holds[id] then b
    else b.(flag := false, holds := b.holds - {id})
  }

  function StepBridge(c: Settings, hold: real, b: Bridge, e: Timed): Bridge {
    match e.event
    case AudioFrame(muted, rms) => OnFrame(c, hold, b, e.at, muted, rms)
    case TrackEnds => if b.turn then End(b, e.at, hold) else b
    case HoldElapses(id) => OnHold(b, e.at, id)
  }

  function RunBridge(c: Settings, hold: real, events: seq<Timed>): Bridge {
    if events == [] then IDLE else StepBridge(c, hold, RunBridge(c, hold, events[..|events| - 1]), events[|events| - 1])
  }

  /** The bridge task of one call: the flag other code reads, the open turn and its hold timer. */
  class OwnerBridge {
    const hold: real
    const detector: OwnerTurnDetector
    var turn: bool
    var release: Option<nat>
    var flag: bool
    var holds: map<nat, real>
    var nextHold: nat
    ghost var ended: Option<real>

    constructor (hold: real, detector: OwnerTurnDetector)
      requires detector.Value() == SILENT
      ensures this.hold == hold && this.detector == detector && Value() == IDLE
    {
      this.hold, this.detector := hold, detector;
      turn, release, flag := false, None, false;
      holds, nextHold, ended := map[], 0, None;
    }

    ghost function Value(): Bridge
      reads this, detector
    {
      Bridge(turn, release, flag, holds, nextHold, detector.Value(), ended)
    }

    method BeginTurn()
      modifies this
      ensures Value() == Begin(old(Value()))
    {
      turn := true;
      if release.Some? {
        holds := holds - {release.value};
        release := None;
      }
      flag := true;
    }

    method EndTurn(now: real)
      modifies this
      ensures Value() == End(old(Value()), now, hold)
    {
      turn := false;
      release := Some(nextHold);
      holds := holds[nextHold := now + hold];
      nextHold := nextHold + 1;
      ended := Some(now);
    }

    method Consume(now: real, muted: bool, rms: real)
      modifies this, detector
      ensures Value() == OnFrame(detector.settings, hold, old(Value()), now, muted, rms)
      ensures muted ==> !turn && flag == old(flag) && detector.Value() == old(detector.Value())
      ensures muted && old(turn) ==> holds == old(holds)[old(nextHold) := now + hold] && ended == Some(now)
      ensures muted && !old(turn) ==> Value() == old(Value())
      ensures !muted ==> turn == detector.active
    {
      if muted {
        if turn {
          EndTurn(now);
        }
        return;
      }
      var active := detector.Feed(rms, now);
      if active && !turn {
        BeginTurn();
      }
      if turn && !active {
        EndTurn(now);
      }
    }

    method TrackEnded(now: real)
      modifies this
      ensures Value() == if old(turn) then End(old(Value()), now, hold) else old(Value())
    {
      if turn {
        EndTurn(now);
      }
    }

    method HoldElapsed(now: real, id: nat)
      modifies this
      ensures Value() == OnHold(old(Value()), now, id)
    {
      if id !in holds || now < holds[id] {
        return;
      }
      flag := false;
      holds := holds - {id};
    }
  }

  /** Event times never run backwards. */
  ghost predicate Ordered(events: seq<Timed>) {
    forall i, j | 0 <= i < j < |events| :: events[i].at <= events[j].at
  }

  /** While a turn is open the flag is up; without a turn it is up exactly while one hold timer is pending. */
  ghost predicate WindowInv(b: Bridge, hold: real) {
    && (b.turn ==> b.flag && b.holds == map[])
    && (!b.turn && b.flag ==>
          b.release.Some? && b.ended.Some? && b.holds == map[b.release.value := b.ended.value + hold])
    && (!b.flag ==> b.holds == map[])
    && (forall id | id in b.holds :: id < b.nextHold)
    && (b.release.Some? ==> b.release.value < b.nextHold)
  }

  lemma WindowStep(c: Settings, hold: real, b: Bridge, e: Timed)
    requires WindowInv(b, hold)
    ensures WindowInv(StepBridge(c, hold, b, e), hold)
  {
    hide Fed;
    if b.release.Some? {
      assert map[b.release.value := 0.0] - {b.release.value} == map[];
      assert b.holds - {b.release.value} == map[];
    }
  }

  lemma {:induction false} WindowHolds(c: Settings, hold: real, events: seq<Timed>)
    ensures WindowInv(RunBridge(c, hold, events), hold)
  {
    if events != [] {
      hide StepBridge, WindowInv;
      WindowHolds(c, hold, events[..|events| - 1]);
      WindowStep(c, hold, RunBridge(c, hold, events[..|events| - 1]), events[|events| - 1]);
    } else {
      assert WindowInv(IDLE, hold);
    }
  }

  /** Whenever transcripts are published, no turn is open and a full hold has passed since the last turn ended. */
  ghost predicate ClearIsLate(b: Bridge, now: real, hold: real) {
    !b.flag && b.ended.Some? ==> b.ended.value + hold <= now
  }

  lemma ClearStep(c: Settings, hold: real, b: Bridge, e: Timed, before: real)
    requires WindowInv(b, hold) && ClearIsLate(b, before, hold) && before <= e.at
    ensures ClearIsLate(StepBridge(c, hold, b, e), e.at, hold)
  {
    hide Fed;
  }

  lemma {:induction false} ClearRun(c: Settings, hold: real, events: seq<Timed>)
    requires Ordered(events)
    ensures events != [] ==> ClearIsLate(RunBridge(c, hold, events), events[|events| - 1].at, hold)
    ensures events == [] ==> RunBridge(c, hold, events).ended.None?
  {
    if events != [] {
      hide StepBridge, ClearIsLate;
      var n := |events| - 1;
      var before := events[..n];
      assert forall i | 0 <= i < n :: before[i] == events[i];
      ClearRun(c, hold, before);
      WindowHolds(c, hold, before);
      var from := if before == [] then events[n].at else before[n - 1].at;
      if before == [] {
        assert ClearIsLate(IDLE, from, hold) by {
          NothingEnded(from, hold);
        }
      }
      ClearStep(c, hold, RunBridge(c, hold, before), events[n], from);
    }
  }

  lemma NothingEnded(now: real, hold: real)
    ensures ClearIsLate(IDLE, now, hold)
  {
  }

  /**
   The red line of the design: at any moment `now` of any run in which a caller transcript is not
   withheld, no owner turn is open, and the last one ended at least a full hold earlier.
   */
  lemma NothingPublishedWithinWindow(c: Settings, hold: real, events: seq<Timed>, now: real)
    requires Ordered(events) && (events != [] ==> events[|events| - 1].at <= now)
    requires !RunBridge(c, hold, events).flag
    ensures !RunBridge(c, hold, events).turn
    ensures RunBridge(c, hold, events).ended.Some? ==> RunBridge(c, hold, events).ended.value + hold <= now
  {
    hide RunBridge;
    WindowHolds(c, hold, events);
    ClearRun(c, hold, events);
  }

  /** Conversely a raised flag without a turn has exactly one pending timer, which clears it when due. */
  lemma HoldReleases(c: Settings, hold: real, events: seq<Timed>)
    requires RunBridge(c, hold, events).flag && !RunBridge(c, hold, events).turn
    ensures
      var b := RunBridge(c, hold, events);
      && |b.holds| == 1 && b.release.Some? && b.release.value in b.holds && b.ended.Some?
      && forall at | at >= b.ended.value + hold :: !StepBridge(c, hold, b, Timed(at, HoldElapses(b.release.value))).flag
  {
    hide RunBridge;
    WindowHolds(c, hold, events);
    var b := RunBridge(c, hold, events);
    assert b.holds.Keys == {b.release.value};
    assert |b.holds| == |b.holds.Keys|;
  }

  /** A muted frame ends an open turn and goes unheard by the detector. */
  lemma MutedFrameEndsTurn(c: Settings, hold: real, events: seq<Timed>, now: real, rms: real)
    ensures
      var b, after := RunBridge(c, hold, events), RunBridge(c, hold, events + [Timed(now, AudioFrame(true, rms))]);
      && !after.turn && after.flag == b.flag && after.detector == b.detector
      && after.ended == (if b.turn then Some(now) else b.ended)
      && (b.turn ==> after.holds == map[b.nextHold := now + hold])
      && (!b.turn ==> after == b)
  {
    var more := events + [Timed(now, AudioFrame(true, rms))];
    assert more[..|events|] == events;
    WindowHolds(c, hold, events);
  }

  /** On an unmuted track the open turn is the detector's verdict after every frame. */
  lemma {:induction false} TurnFollowsDetector(c: Settings, hold: real, events: seq<Timed>)
    requires events != [] && events[|events| - 1].event.AudioFrame? && !events[|events| - 1].event.muted
    ensures RunBridge(c, hold, events).turn == RunBridge(c, hold, events).detector.active
  {
    hide Fed;
  }
}
