/**
 * Pi 2's mission sequencer.  Before lift-off the program listens for
 * ground commands while polling the LO line; on LO it starts the camera
 * and polls SOE; on SOE it starts the ImP, pulses the burn wire for a
 * little over 6000 ms while relaying ImP data, then polls SODS; on SODS it
 * stops recording and closes the pipes, and the program asks for a reboot.
 *
 * The environment enters as finite streams: the levels `digitalRead`
 * returns, the values `millis` returns, the messages the Ethernet pipe
 * delivers and the chunks the ImP pipe delivers.  What the program does to
 * the outside world is recorded, in order, as a trace of events.  When the
 * level or clock stream runs out the run stops there ("halted"): the real
 * program would go on polling.
 */
module Mission {
  import opened Bytes

  // GPIO pins (wiringPi numbering)
  const Lo := 29
  const Soe := 28
  const Sods := 27
  const LaunchModeOut := 10
  const LaunchModeIn := 11
  const BurnWire := 4
  const Alive := 3

  /** The burn wire is released once more than this many milliseconds have passed. */
  const BurnTimeMs := 6000
  /** `poll_input` takes this many samples. */
  const Samples := 5
  /** The most bytes one read of the ImP pipe hands over. */
  const ReadLimit := 255

  type Bit = x: int | 0 <= x < 2

  /*
   * Input debounce
   */

  /** An active-low line is taken as asserted when fewer than 3 of the samples are high. */
  predicate Asserted(samples: seq<Bit>)
  {
    multiset(samples)[1] < 3
  }

  /** poll_input: sum the samples and compare with 3. */
  method PollInput(samples: seq<Bit>) returns (asserted: bool)
    requires |samples| == Samples
    ensures asserted <==> Asserted(samples)
  {
    var count: nat := 0;
    for i := 0 to Samples
      invariant count == multiset(samples[..i])[1]
    {
      assert samples[..i + 1] == samples[..i] + [samples[i]];
      count := count + samples[i];
    }
    assert samples[..Samples] == samples;
    asserted := count < 3;
  }

  lemma {:induction false} LowsAndHighs(s: seq<Bit>)
    ensures multiset(s)[0] + multiset(s)[1] == |s|
  {
    if s != [] {
      LowsAndHighs(s[1..]);
      assert s == [s[0]] + s[1..];
    }
  }

  /** With five samples, asserted means a majority of them read low. */
  lemma AssertedIsMajorityLow(s: seq<Bit>)
    requires |s| == Samples
    ensures Asserted(s) <==> multiset(s)[0] >= 3
  {
    LowsAndHighs(s);
  }

  /** Samples that are everywhere at most as high keep the line asserted. */
  lemma {:induction false} AssertedMonotone(s: seq<Bit>, u: seq<Bit>)
    requires |s| == |u|
    requires forall i :: 0 <= i < |s| ==> u[i] <= s[i]
    ensures multiset(u)[1] <= multiset(s)[1]
    ensures Asserted(s) ==> Asserted(u)
  {
    if s != [] {
      var a, b, s', u' := s[0], u[0], s[1..], u[1..];
      AssertedMonotone(s', u');
      assert b <= a;
      assert s == [a] + s' && u == [b] + u';
      HighsCons(a, s');
      HighsCons(b, u');
    }
  }

  /** A sample in front adds its own value to the number of highs. */
  lemma HighsCons(x: Bit, s: seq<Bit>)
    ensures multiset([x] + s)[1] == x + multiset(s)[1]
  {
    assert multiset([x] + s) == multiset([x]) + multiset(s);
    if x == 0 {
      assert multiset([x])[1] == 0;
    } else {
      assert multiset([x])[1] == 1;
    }
  }

  /** One high sample among lows asserts the line; four highs do not. */
  lemma PollExamples()
    ensures Asserted([1, 0, 0, 0, 0])
    ensures !Asserted([1, 1, 0, 1, 1])
  {
    var low: seq<Bit> := [1, 0, 0, 0, 0];
    var high: seq<Bit> := [1, 1, 0, 1, 1];
    assert multiset(low)[1] == 1;
    assert multiset(high)[1] == 4;
  }

  /*
   * Ground commands before lift-off
   */

  datatype Command =
    | Skip          // empty message
    | MsgTest       // "Mt"
    | MsgReset      // "Mr": reboot, then keep waiting
    | MsgExit       // "Me": the signal handler, which ends the program
    | MsgOther      // 'M' followed by anything else
    | Data          // 'D'
    | Unidentified  // any other first character

  /**
   * The switch on the first two characters.  `msg[1]` of a one-character
   * string is the terminating '\0', which matches no case.
   */
  function Classify(msg: string): (c: Command)
    ensures c == Skip <==> msg == []
    ensures c == Unidentified <==> msg != [] && msg[0] != 'M' && msg[0] != 'D'
    ensures c == Data <==> msg != [] && msg[0] == 'D'
    ensures c == MsgReset <==> |msg| >= 2 && msg[0] == 'M' && msg[1] == 'r'
    ensures c == MsgExit <==> |msg| >= 2 && msg[0] == 'M' && msg[1] == 'e'
    ensures c == MsgTest <==> |msg| >= 2 && msg[0] == 'M' && msg[1] == 't'
  {
    if msg == [] then Skip
    else if msg[0] == 'M' then
      var second := if |msg| >= 2 then msg[1] else '\0';
      if second == 't' then MsgTest
      else if second == 'r' then MsgReset
      else if second == 'e' then MsgExit
      else MsgOther
    else if msg[0] == 'D' then Data
    else Unidentified
  }

  /** Only the first two characters matter. */
  lemma ClassifyIgnoresTail(msg: string, tail: string)
    requires |msg| >= 2
    ensures Classify(msg + tail) == Classify(msg)
  {
    assert (msg + tail)[..2] == msg[..2];
  }

  /*
   * The recorded effects and the monitor that judges them
   */

  datatype Phase = Idle | LiftOff | Experiment | Storage

  function Rank(p: Phase): nat
  {
    match p
    case Idle => 0
    case LiftOff => 1
    case Experiment => 2
    case Storage => 3
  }

  /** The line whose assertion opens each phase. */
  function Trigger(p: Phase): int
    requires p != Idle
  {
    match p
    case LiftOff => Lo
    case Experiment => Soe
    case Storage => Sods
  }

  datatype Reading = Reading(pin: int, asserted: bool)

  datatype Event =
    | PinWrite(pin: int, level: Bit)
    | PinRead(pin: int, level: Bit)
    | Poll(reading: Reading)
    | Received(command: Command)
    | Enter(phase: Phase)
    | ClockRead(now: uint32)
    | Forward(chunk: seq<byte>)
    | StartServer | StartVideo | StopVideo | StartImP
    | CloseEthernet | CloseImP
    | Report        // "Received Unidentified Message"
    | Reboot | Shutdown
    | Exit(code: int)

  /** `millis() - start` in `unsigned int` arithmetic. */
  function Elapsed(start: uint32, now: uint32): uint32
  {
    (now - start) % 0x1_0000_0000
  }

  datatype BurnState =
    | Unfired
    | Armed                                  // driven high, start time not yet read
    | Timing(start: uint32)
    | Expired(start: uint32, end: uint32)    // the loop saw more than 6000 ms
    | Released(start: uint32, end: uint32)   // driven low again

  datatype Watch = Watch(phase: Phase, burn: BurnState, lastPoll: Option<Reading>, ended: bool)

  const Start := Watch(Idle, Unfired, None, false)

  /**
   * What the mission allows next.  A phase is entered only from the one
   * before it and only right after its line polled asserted; storage only
   * once the burn wire is released.  Commands are taken only before
   * lift-off.  The burn wire goes high once, during the experiment phase; the
   * clock is read only while it is high; it goes low only once a clock
   * reading lies more than 6000 ms after the first.  Nothing follows an exit.
   */
  function Step(w: Watch, e: Event): Option<Watch>
  {
    if w.ended then None
    else match e
      case Poll(r) => Some(w.(lastPoll := Some(r)))
      case Enter(p) =>
        if Rank(p) == Rank(w.phase) + 1 && w.lastPoll == Some(Reading(Trigger(p), true))
           && (p == Storage ==> w.burn.Released?)
        then Some(w.(phase := p))
        else None
      case Received(_) => if w.phase == Idle then Some(w) else None
      case PinWrite(pin, level) =>
        if pin != BurnWire then Some(w)
        else if level == 1 then
          if w.phase == Experiment && w.burn == Unfired then Some(w.(burn := Armed)) else None
        else
          if w.burn.Expired? then Some(w.(burn := Released(w.burn.start, w.burn.end))) else None
      case ClockRead(now) =>
        (match w.burn
         case Armed => Some(w.(burn := Timing(now)))
         case Timing(s) =>
           if Elapsed(s, now) > BurnTimeMs then Some(w.(burn := Expired(s, now))) else Some(w)
         case _ => None)
      case Exit(_) => Some(w.(ended := true))
      case _ => Some(w)
  }

  function Then(o: Option<Watch>, e: Event): Option<Watch>
  {
    if o.Some? then Step(o.value, e) else None
  }

  /** The monitor run over a whole trace; None when some event was not allowed. */
  function Monitor(t: seq<Event>): Option<Watch>
  {
    if t == [] then Some(Start) else Then(Monitor(t[..|t| - 1]), t[|t| - 1])
  }

  /** A step changes the phase only by entering the next one, and nothing is accepted after the end. */
  lemma StepAdvancesOnePhase(w: Watch, e: Event)
    ensures w.ended ==> Step(w, e).None?
    ensures Step(w, e).Some? && Step(w, e).value.phase != w.phase ==>
      e.Enter? && Step(w, e).value.phase == e.phase && Rank(e.phase) == Rank(w.phase) + 1
  {
  }

  lemma MonitorSnoc(t: seq<Event>, e: Event)
    ensures Monitor(t + [e]) == Then(Monitor(t), e)
  {
    assert (t + [e])[..|t|] == t;
  }

  /** The levels written to the burn-wire pin, in order. */
  function BurnLevels(t: seq<Event>): seq<Bit>
  {
    if t == [] then []
    else
      var e := t[|t| - 1];
      BurnLevels(t[..|t| - 1]) + if e.PinWrite? && e.pin == BurnWire then [e.level] else []
  }

  /** The phases entered, in order. */
  function Entries(t: seq<Event>): seq<Phase>
  {
    if t == [] then []
    else
      var e := t[|t| - 1];
      Entries(t[..|t| - 1]) + if e.Enter? then [e.phase] else []
  }

  /** The most recent poll result. */
  function LastPoll(t: seq<Event>): Option<Reading>
  {
    if t == [] then None
    else if t[|t| - 1].Poll? then Some(t[|t| - 1].reading)
    else LastPoll(t[..|t| - 1])
  }

  function LevelsSoFar(b: BurnState): seq<Bit>
  {
    match b
    case Unfired => []
    case Released(_, _) => [1, 0]
    case _ => [1]
  }

  function PhasesUpTo(p: Phase): seq<Phase>
  {
    [LiftOff, Experiment, Storage][..Rank(p)]
  }

  /** The burn-wire writes an accepted trace holds are exactly what its burn state says. */
  lemma {:induction false} BurnLevelsFollowState(t: seq<Event>)
    requires Monitor(t).Some?
    ensures BurnLevels(t) == LevelsSoFar(Monitor(t).value.burn)
  {
    if t != [] {
      BurnLevelsFollowState(t[..|t| - 1]);
    }
  }

  /** The burn wire is driven high at most once and low at most once, high first. */
  lemma BurnWireOnce(t: seq<Event>)
    requires Monitor(t).Some?
    ensures BurnLevels(t) <= [1, 0]
  {
    BurnLevelsFollowState(t);
  }

  /** The phases an accepted trace entered are exactly those up to its current phase. */
  lemma {:induction false} EntriesFollowPhase(t: seq<Event>)
    requires Monitor(t).Some?
    ensures Entries(t) == PhasesUpTo(Monitor(t).value.phase)
  {
    if t != [] {
      EntriesFollowPhase(t[..|t| - 1]);
    }
  }

  /** Phases advance only Idle, LO, SOE, SODS, each at most once. */
  lemma PhasesInOrder(t: seq<Event>)
    requires Monitor(t).Some?
    ensures Entries(t) <= [LiftOff, Experiment, Storage]
  {
    EntriesFollowPhase(t);
  }

  /**
   * An accepted trace that reached storage with the burn wire released
   * entered all three phases and drove the wire high then low; one still
   * idle with the wire unfired entered none and never drove it.
   */
  lemma PhasesAndBurn(t: seq<Event>)
    requires Monitor(t).Some?
    ensures var w := Monitor(t).value;
      w.phase == Storage && w.burn.Released? ==> Entries(t) == [LiftOff, Experiment, Storage] && BurnLevels(t) == [1, 0]
    ensures var w := Monitor(t).value;
      w.phase == Idle && w.burn == Unfired ==> Entries(t) == [] && BurnLevels(t) == []
  {
    EntriesFollowPhase(t);
    BurnLevelsFollowState(t);
  }

  /** Rebooting after storage leaves the monitor where it was and completes the mission. */
  lemma RebootAfterStorage(t: seq<Event>)
    requires Monitor(t).Some? && Monitor(t).value.phase == Storage && Monitor(t).value.burn.Released?
    requires !Monitor(t).value.ended
    ensures Monitor(t + [Reboot]) == Monitor(t)
    ensures Entries(t + [Reboot]) == [LiftOff, Experiment, Storage] && BurnLevels(t + [Reboot]) == [1, 0]
  {
    MonitorSnoc(t, Reboot);
    PhasesAndBurn(t + [Reboot]);
  }

  /** The monitor's last poll is the trace's last poll. */
  lemma {:induction false} LastPollTracked(t: seq<Event>)
    requires Monitor(t).Some?
    ensures Monitor(t).value.lastPoll == LastPoll(t)
  {
    if t != [] {
      LastPollTracked(t[..|t| - 1]);
    }
  }

  /** Every prefix of an accepted trace is accepted. */
  lemma {:induction false} PrefixAccepted(t: seq<Event>, k: nat)
    requires k <= |t| && Monitor(t).Some?
    ensures Monitor(t[..k]).Some?
  {
    if k < |t| {
      assert Monitor(t[..|t| - 1]).Some?;
      assert t[..|t| - 1][..k] == t[..k];
      PrefixAccepted(t[..|t| - 1], k);
    } else {
      assert t[..k] == t;
    }
  }

  /** Each phase is entered right after its own line polled asserted. */
  lemma EnteredAfterPoll(t: seq<Event>, k: nat)
    requires Monitor(t).Some? && k < |t| && t[k].Enter?
    ensures t[k].phase != Idle
    ensures LastPoll(t[..k]) == Some(Reading(Trigger(t[k].phase), true))
  {
    PrefixAccepted(t, k + 1);
    assert t[..k + 1][..k] == t[..k];
    LastPollTracked(t[..k]);
  }

  /** Commands are dispatched only while no phase has been entered. */
  lemma ReceivedBeforeLiftOff(t: seq<Event>, k: nat)
    requires Monitor(t).Some? && k < |t| && t[k].Received?
    ensures Entries(t[..k]) == []
  {
    PrefixAccepted(t, k + 1);
    assert t[..k + 1][..k] == t[..k];
    EntriesFollowPhase(t[..k]);
  }

  /** Nothing follows an exit. */
  lemma {:induction false} ExitIsLast(t: seq<Event>, k: nat)
    requires Monitor(t).Some? && k < |t| && t[k].Exit?
    ensures k == |t| - 1
  {
    if k < |t| - 1 {
      PrefixAccepted(t, k + 1);
      EndedStaysEnded(t, k + 1);
      assert false;
    }
  }

  lemma {:induction false} EndedStaysEnded(t: seq<Event>, k: nat)
    requires 0 < k < |t| && Monitor(t[..k]).Some? && t[k - 1].Exit?
    ensures Monitor(t).None?
  {
    if |t| == k + 1 {
      assert t[..|t| - 1] == t[..k];
      assert t[..k][..k - 1] == t[..k - 1];
    } else {
      assert t[..|t| - 1][..k] == t[..k];
      EndedStaysEnded(t[..|t| - 1], k);
    }
  }

  /** The burn wire is released only after a clock reading more than 6000 ms past the start. */
  lemma {:induction false} ReleasedAfterTimeout(t: seq<Event>)
    requires Monitor(t).Some?
    ensures Monitor(t).value.burn.Timing? ==> ClockRead(Monitor(t).value.burn.start) in t
    ensures Monitor(t).value.burn.Expired? || Monitor(t).value.burn.Released? ==>
              Elapsed(Monitor(t).value.burn.start, Monitor(t).value.burn.end) > BurnTimeMs
              && ClockRead(Monitor(t).value.burn.start) in t && ClockRead(Monitor(t).value.burn.end) in t
  {
    if t != [] {
      ReleasedAfterTimeout(t[..|t| - 1]);
      assert t == t[..|t| - 1] + [t[|t| - 1]];
    }
  }

  /*
   * The program
   */

  /** The environment, as the streams still to be read. */
  datatype Env = Env(levels: seq<Bit>, clock: seq<uint32>, inbox: seq<string>, imp: seq<seq<byte>>)

  /** What one read of the ImP pipe hands over: at most 255 bytes of the next chunk. */
  function NextChunk(imp: seq<seq<byte>>): (c: seq<byte>)
    ensures |c| <= ReadLimit
    ensures imp != [] ==> c <= imp[0]
  {
    if imp == [] then [] else if |imp[0]| <= ReadLimit then imp[0] else imp[0][..ReadLimit]
  }

  /** What is left in the ImP pipe after that read. */
  function RestOf(imp: seq<seq<byte>>): seq<seq<byte>>
  {
    if imp == [] then []
    else if |imp[0]| <= ReadLimit then imp[1..]
    else [imp[0][ReadLimit..]] + imp[1..]
  }

  lemma ReadLosesNothing(imp: seq<seq<byte>>)
    requires imp != []
    ensures NextChunk(imp) + Flatten(RestOf(imp)) == Flatten(imp)
  {
    assert imp == [imp[0]] + imp[1..];
    if |imp[0]| > ReadLimit {
      assert imp[0] == imp[0][..ReadLimit] + imp[0][ReadLimit..];
    }
  }

  function Flatten(ss: seq<seq<byte>>): seq<byte>
  {
    if ss == [] then [] else ss[0] + Flatten(ss[1..])
  }

  function Forwarded(c: seq<byte>): seq<Event>
  {
    if c == [] then [] else [Forward(c)]
  }

  /** What signal_handler does: stop the camera, close both pipes, shut down, exit with status 1. */
  const HandlerEffects := [StopVideo, CloseEthernet, CloseImP, Shutdown, Exit(1)]

  /** What one message received before lift-off makes the program do. */
  function Effects(c: Command): seq<Event>
  {
    match c
    case Skip => []
    case MsgReset => [Received(c), Reboot]
    case MsgExit => [Received(c)] + HandlerEffects
    case Unidentified => [Received(c), Report]
    case _ => [Received(c)]
  }

  /** A message yields effects exactly when it is not empty, and they begin with its command being received. */
  lemma EffectsStartWithReceipt(c: Command)
    ensures Effects(c) == [] <==> c == Skip
    ensures Effects(c) != [] ==> Effects(c)[0] == Received(c)
  {
  }

  datatype Outcome = Completed | Exited | Halted

  /*
   * What the program does, as functions of the environment streams.  Each
   * loop of raspi2.cpp is a recursive function that takes one pass at a
   * time from the streams and says which events the pass emits; the methods
   * of Pi2 below are proved to emit exactly these events and to leave
   * exactly the remaining streams.
   */

  /** The result of a loop: the events it emitted, the streams left, and how it ended. */
  datatype Pass = Pass(events: seq<Event>, rest: Env, seen: bool, exited: bool)

  /** The next message strread() hands over, or "" when none has arrived. */
  function NextMessage(inbox: seq<string>): string
  {
    if inbox == [] then "" else inbox[0]
  }

  function RestMessages(inbox: seq<string>): seq<string>
  {
    if inbox == [] then [] else inbox[1..]
  }

  /**
   * The loop of main before lift-off: each pass polls LO, then reads one
   * message and dispatches it.  It ends after the pass in which LO polled
   * asserted or the message was "Me"; it halts when the levels run out.
   */
  function AwaitFrom(env: Env): (r: Pass)
    decreases |env.levels|
  {
    if |env.levels| < Samples then Pass([], env, false, false)
    else
      var asserted := Asserted(env.levels[..Samples]);
      var c := Classify(NextMessage(env.inbox));
      var next := env.(levels := env.levels[Samples..], inbox := RestMessages(env.inbox));
      var events := [Poll(Reading(Lo, asserted))] + Effects(c);
      if c == MsgExit then Pass(events, next, asserted, true)
      else if asserted then Pass(events, next, true, false)
      else
        var r := AwaitFrom(next);
        Pass(events + r.events, r.rest, r.seen, r.exited)
  }

  /**
   * A loop polling one line until it is asserted (LO_SIGNAL's wait for SOE,
   * and SOE_SIGNAL's wait for SODS, which relays one ImP read after each
   * poll); it halts when the levels run out.
   */
  function Await(pin: int, relay: bool, env: Env): (r: Pass)
    decreases |env.levels|
  {
    if |env.levels| < Samples then Pass([], env, false, false)
    else
      var asserted := Asserted(env.levels[..Samples]);
      var polled := env.(levels := env.levels[Samples..]);
      var next := if relay then polled.(imp := RestOf(polled.imp)) else polled;
      var events := [Poll(Reading(pin, asserted))] + (if relay then Forwarded(NextChunk(polled.imp)) else []);
      if asserted then Pass(events, next, true, false)
      else
        var r := Await(pin, relay, next);
        Pass(events + r.events, r.rest, r.seen, r.exited)
  }

  /** The result of the burn-wire loop: the events, the streams left, whether the time ran out, and the last clock reading. */
  datatype Timed = Timed(events: seq<Event>, rest: Env, ok: bool, end: uint32)

  /**
   * The burn-wire loop of SOE_SIGNAL: each pass reads the clock and stops
   * once more than 6000 ms have passed since start; otherwise it relays one
   * ImP read.  It halts when the clock readings run out.
   */
  function BurnLoop(start: uint32, env: Env): (r: Timed)
    decreases |env.clock|
  {
    if env.clock == [] then Timed([], env, false, 0)
    else
      var now := env.clock[0];
      var next := env.(clock := env.clock[1..]);
      if Elapsed(start, now) > BurnTimeMs then Timed([ClockRead(now)], next, true, now)
      else
        var r := BurnLoop(start, next.(imp := RestOf(next.imp)));
        Timed([ClockRead(now)] + Forwarded(NextChunk(next.imp)) + r.events, r.rest, r.ok, r.end)
  }

  /** The result of the whole burn-wire pulse, with the start time. */
  datatype Pulsed = Pulsed(events: seq<Event>, rest: Env, ok: bool, start: uint32, end: uint32)

  /** The burn-wire pulse: drive it high, read the start time, run the loop, drive it low. */
  function Pulse(env: Env): Pulsed
  {
    if env.clock == [] then Pulsed([PinWrite(BurnWire, 1)], env, false, 0, 0)
    else
      var start := env.clock[0];
      var t := BurnLoop(start, env.(clock := env.clock[1..]));
      Pulsed([PinWrite(BurnWire, 1), ClockRead(start)] + t.events + (if t.ok then [PinWrite(BurnWire, 0)] else []),
             t.rest, t.ok, start, t.end)
  }

  /** What SODS_SIGNAL does once SODS polled asserted. */
  const SodsEffects := [Enter(Storage), StopVideo, CloseEthernet, CloseImP]

  /** The result of a phase function: the events, the streams left, and whether it reached storage. */
  datatype Phased = Phased(events: seq<Event>, rest: Env, finished: bool)

  /** SOE_SIGNAL: start the ImP, pulse the burn wire, then relay ImP data while polling SODS. */
  function SoeRun(env: Env): Phased
  {
    var p := Pulse(env);
    var head := [Enter(Experiment), StartImP] + p.events;
    if !p.ok then Phased(head, p.rest, false)
    else
      var w := Await(Sods, true, p.rest);
      Phased(head + w.events + (if w.seen then SodsEffects else []), w.rest, w.seen)
  }

  /** LO_SIGNAL: start the camera, poll SOE until asserted, then SOE_SIGNAL. */
  function LoRun(env: Env): Phased
  {
    var w := Await(Soe, false, env);
    var head := [Enter(LiftOff), StartVideo] + w.events;
    if !w.seen then Phased(head, w.rest, false)
    else
      var s := SoeRun(w.rest);
      Phased(head + s.events, s.rest, s.finished)
  }

  /** The result of main: the events, the streams left, and how it ended. */
  datatype Execution = Execution(events: seq<Event>, rest: Env, outcome: Outcome)

  /** main after its set-up: take commands until LO, then LO_SIGNAL and a reboot. */
  function Operation(env: Env): Execution
  {
    var a := AwaitFrom(env);
    if a.exited then Execution(a.events, a.rest, Exited)
    else if !a.seen then Execution(a.events, a.rest, Halted)
    else
      var l := LoRun(a.rest);
      if !l.finished then Execution(a.events + l.events, l.rest, Halted)
      else Execution(a.events + l.events + [Reboot], l.rest, Completed)
  }

  /**
   * main: raise LAUNCH_MODE_OUT, read LAUNCH_MODE_IN, raise ALIVE, start the
   * server, then the operation.
   */
  function Program(env: Env): Execution
  {
    if env.levels == [] then Execution([PinWrite(LaunchModeOut, 1)], env, Halted)
    else
      var setUp := [PinWrite(LaunchModeOut, 1), PinRead(LaunchModeIn, env.levels[0]), PinWrite(Alive, 1), StartServer];
      var x := Operation(env.(levels := env.levels[1..]));
      Execution(setUp + x.events, x.rest, x.outcome)
  }

  /** The commands a trace received, in order. */
  function Commands(t: seq<Event>): seq<Command>
  {
    if t == [] then [] else (if t[0].Received? then [t[0].command] else []) + Commands(t[1..])
  }

  /** The commands a sequence of messages carries: one per non-empty message. */
  function CommandsOf(msgs: seq<string>): seq<Command>
  {
    if msgs == [] then [] else (if msgs[0] == [] then [] else [Classify(msgs[0])]) + CommandsOf(msgs[1..])
  }

  /** The readings a trace polled, in order. */
  function Readings(t: seq<Event>): seq<Reading>
  {
    if t == [] then [] else (if t[0].Poll? then [t[0].reading] else []) + Readings(t[1..])
  }

  lemma {:induction false} CommandsConcat(a: seq<Event>, b: seq<Event>)
    ensures Commands(a + b) == Commands(a) + Commands(b)
  {
    if a != [] {
      CommandsConcat(a[1..], b);
      assert (a + b)[0] == a[0] && (a + b)[1..] == a[1..] + b;
    } else {
      assert a + b == b;
    }
  }

  lemma {:induction false} ReadingsConcat(a: seq<Event>, b: seq<Event>)
    ensures Readings(a + b) == Readings(a) + Readings(b)
  {
    if a != [] {
      ReadingsConcat(a[1..], b);
      assert (a + b)[0] == a[0] && (a + b)[1..] == a[1..] + b;
    } else {
      assert a + b == b;
    }
  }

  /** A trace without Received events carries no command; without Poll events, no reading. */
  lemma {:induction false} Quiet(t: seq<Event>)
    requires forall k :: 0 <= k < |t| ==> !t[k].Received? && !t[k].Poll?
    ensures Commands(t) == [] && Readings(t) == []
  {
    if t != [] {
      assert forall k :: 0 <= k < |t[1..]| ==> t[1..][k] == t[k + 1];
      Quiet(t[1..]);
    }
  }

  /** One pass of the pre-lift-off loop: one LO reading, then the message's command, if any. */
  lemma PassEvents(r: Reading, c: Command)
    ensures Commands([Poll(r)] + Effects(c)) == (if c == Skip then [] else [c])
    ensures Readings([Poll(r)] + Effects(c)) == [r]
  {
    var e := [Poll(r)] + Effects(c);
    assert e[1..] == Effects(c);
    if c != Skip {
      Quiet(Effects(c)[1..]);
    }
  }

  /** One pass of a polling loop: the reading, then at most a relayed chunk. */
  lemma PollEvents(r: Reading, relayed: seq<Event>)
    requires relayed == [] || (|relayed| == 1 && relayed[0].Forward?)
    ensures Commands([Poll(r)] + relayed) == [] && Readings([Poll(r)] + relayed) == [r]
  {
    var e := [Poll(r)] + relayed;
    assert e[1..] == relayed;
    if relayed != [] {
      assert e[1..][1..] == [];
    }
  }

  /** Readings all of one line, all but the last not asserted, and the last asserted when the line was seen. */
  predicate PolledUntil(rs: seq<Reading>, pin: int, seen: bool)
  {
    (forall k :: 0 <= k < |rs| ==> rs[k].pin == pin)
    && (forall k :: 0 <= k < |rs| - 1 ==> !rs[k].asserted)
    && (seen ==> |rs| > 0 && rs[|rs| - 1].asserted)
  }

  lemma PolledUntilCons(pin: int, rs: seq<Reading>, seen: bool)
    requires PolledUntil(rs, pin, seen)
    ensures PolledUntil([Reading(pin, false)] + rs, pin, seen)
  {
    var r := [Reading(pin, false)] + rs;
    assert forall k :: 1 <= k < |r| ==> r[k] == rs[k - 1];
  }

  lemma CommandsOfCons(m: string, ms: seq<string>)
    ensures CommandsOf([m] + ms) == (if m == [] then [] else [Classify(m)]) + CommandsOf(ms)
  {
    assert ([m] + ms)[1..] == ms;
  }

  /** The pre-lift-off loop reads the inbox from the front and leaves the clock and the ImP pipe alone. */
  lemma {:induction false} AwaitConsumes(env: Env)
    ensures var r := AwaitFrom(env);
      |r.rest.inbox| <= |env.inbox| && r.rest.inbox == env.inbox[|env.inbox| - |r.rest.inbox|..]
      && r.rest.clock == env.clock && r.rest.imp == env.imp
    decreases |env.levels|
  {
    if |env.levels| >= Samples {
      var next := env.(levels := env.levels[Samples..], inbox := RestMessages(env.inbox));
      var c := Classify(NextMessage(env.inbox));
      var r := if c == MsgExit || Asserted(env.levels[..Samples]) then next else AwaitFrom(next).rest;
      if !(c == MsgExit || Asserted(env.levels[..Samples])) {
        AwaitConsumes(next);
      }
      assert AwaitFrom(env).rest == r;
      if env.inbox != [] {
        SuffixOfTail(env.inbox, r.inbox);
      }
    }
  }

  /**
   * The pre-lift-off loop reads one message per pass and receives exactly
   * the commands those messages carry, in order: the commands of the whole
   * inbox are the ones received followed by those of the messages left.
   */
  lemma {:induction false} AwaitReadsInOrder(env: Env)
    ensures var r := AwaitFrom(env); CommandsOf(env.inbox) == Commands(r.events) + CommandsOf(r.rest.inbox)
    decreases |env.levels|
  {
    if |env.levels| >= Samples {
      var asserted := Asserted(env.levels[..Samples]);
      var m := NextMessage(env.inbox);
      var c := Classify(m);
      var next := env.(levels := env.levels[Samples..], inbox := RestMessages(env.inbox));
      var events := [Poll(Reading(Lo, asserted))] + Effects(c);
      PassEvents(Reading(Lo, asserted), c);
      if env.inbox != [] {
        CommandsOfCons(m, next.inbox);
        assert env.inbox == [m] + next.inbox;
      }
      if c != MsgExit && !asserted {
        AwaitReadsInOrder(next);
        var r := AwaitFrom(next);
        assert AwaitFrom(env) == Pass(events + r.events, r.rest, r.seen, r.exited);
        CommandsConcat(events, r.events);
      } else {
        assert AwaitFrom(env) == Pass(events, next, asserted, c == MsgExit);
      }
    }
  }

  /** The pre-lift-off loop ends in an exit only when the last message it read was "Me". */
  lemma {:induction false} AwaitExit(env: Env)
    ensures var r := AwaitFrom(env); var n := |env.inbox| - |r.rest.inbox|;
      r.exited ==> 0 < n <= |env.inbox| && Classify(env.inbox[n - 1]) == MsgExit
    decreases |env.levels|
  {
    AwaitConsumes(env);
    if |env.levels| >= Samples {
      var c := Classify(NextMessage(env.inbox));
      var next := env.(levels := env.levels[Samples..], inbox := RestMessages(env.inbox));
      if c != MsgExit && !Asserted(env.levels[..Samples]) {
        AwaitExit(next);
        AwaitConsumes(next);
        var r := AwaitFrom(next);
        assert AwaitFrom(env).rest == r.rest && AwaitFrom(env).exited == r.exited;
        var n := |next.inbox| - |r.rest.inbox|;
        if r.exited {
          assert env.inbox[n] == env.inbox[1..][n - 1];
        }
      } else {
        assert AwaitFrom(env).rest == next && AwaitFrom(env).exited == (c == MsgExit);
      }
    }
  }

  /** The pre-lift-off loop reads only LO, and ends on LO asserted unless it ended in an exit or halted. */
  lemma {:induction false} AwaitPollsLo(env: Env)
    ensures var r := AwaitFrom(env); PolledUntil(Readings(r.events), Lo, r.seen && !r.exited)
    decreases |env.levels|
  {
    if |env.levels| >= Samples {
      var asserted := Asserted(env.levels[..Samples]);
      var c := Classify(NextMessage(env.inbox));
      var next := env.(levels := env.levels[Samples..], inbox := RestMessages(env.inbox));
      var events := [Poll(Reading(Lo, asserted))] + Effects(c);
      PassEvents(Reading(Lo, asserted), c);
      if c != MsgExit && !asserted {
        AwaitPollsLo(next);
        ReadingsConcat(events, AwaitFrom(next).events);
        PolledUntilCons(Lo, Readings(AwaitFrom(next).events), AwaitFrom(next).seen && !AwaitFrom(next).exited);
      }
    }
  }

  /**
   * A polling loop reads only the line it waits for, and ends on it
   * asserted unless it halted; it receives no command and touches neither
   * the inbox nor the clock, nor the ImP pipe unless it relays.
   */
  lemma {:induction false} AwaitPollsOneLine(pin: int, relay: bool, env: Env)
    ensures var r := Await(pin, relay, env);
      PolledUntil(Readings(r.events), pin, r.seen) && Commands(r.events) == [] && !r.exited
      && r.rest.inbox == env.inbox && r.rest.clock == env.clock && (!relay ==> r.rest.imp == env.imp)
    decreases |env.levels|
  {
    if |env.levels| >= Samples {
      var asserted := Asserted(env.levels[..Samples]);
      var polled := env.(levels := env.levels[Samples..]);
      var relayed := if relay then Forwarded(NextChunk(polled.imp)) else [];
      var events := [Poll(Reading(pin, asserted))] + relayed;
      PollEvents(Reading(pin, asserted), relayed);
      if !asserted {
        var next := if relay then polled.(imp := RestOf(polled.imp)) else polled;
        AwaitPollsOneLine(pin, relay, next);
        var r := Await(pin, relay, next);
        CommandsConcat(events, r.events);
        ReadingsConcat(events, r.events);
        PolledUntilCons(pin, Readings(r.events), r.seen);
      }
    }
  }

  /**
   * The burn wire is released at the first clock reading more than 6000 ms
   * after the start, and every reading before it lies within 6000 ms; when
   * the readings run out first, all of them lay within 6000 ms.
   */
  lemma {:induction false} BurnStopsAtFirstTimeout(start: uint32, env: Env)
    ensures var r := BurnLoop(start, env); var n := |env.clock| - |r.rest.clock|;
      |r.rest.clock| <= |env.clock| && r.rest.clock == env.clock[n..]
      && (r.ok ==> 0 < n && r.end == env.clock[n - 1] && Elapsed(start, r.end) > BurnTimeMs)
      && (forall k :: 0 <= k < n && (r.ok ==> k < n - 1) ==> Elapsed(start, env.clock[k]) <= BurnTimeMs)
      && (!r.ok ==> r.rest.clock == [])
      && r.rest.levels == env.levels && r.rest.inbox == env.inbox
    decreases |env.clock|
  {
    if env.clock != [] && Elapsed(start, env.clock[0]) <= BurnTimeMs {
      var next := env.(clock := env.clock[1..]);
      var relayed := next.(imp := RestOf(next.imp));
      BurnStopsAtFirstTimeout(start, relayed);
      var r := BurnLoop(start, relayed);
      var n := |relayed.clock| - |r.rest.clock|;
      assert env.clock[1..][n..] == env.clock[n + 1..];
      forall k | 0 <= k < n + 1 && (r.ok ==> k < n)
        ensures Elapsed(start, env.clock[k]) <= BurnTimeMs
      {
        if k > 0 {
          assert env.clock[k] == env.clock[1..][k - 1];
        }
      }
      if r.ok {
        assert env.clock[n] == env.clock[1..][n - 1];
      }
    }
  }

  /** The program ends in an exit only when a message it read was "Me". */
  lemma ExitNeedsCommand(env: Env)
    requires Program(env).outcome == Exited
    ensures exists k :: 0 <= k < |env.inbox| && Classify(env.inbox[k]) == MsgExit
  {
    OperationExit(env.(levels := env.levels[1..]));
  }

  /** The operation after set-up ends in an exit only when a message it read was "Me". */
  lemma OperationExit(env: Env)
    requires Operation(env).outcome == Exited
    ensures exists k :: 0 <= k < |env.inbox| && Classify(env.inbox[k]) == MsgExit
  {
    AwaitExit(env);
    var n := |env.inbox| - |AwaitFrom(env).rest.inbox|;
    assert Classify(env.inbox[n - 1]) == MsgExit;
  }

  class Pi2 {
    var env: Env
    var flightMode: bool
    var trace: seq<Event>

    constructor (levels: seq<Bit>, clock: seq<uint32>, inbox: seq<string>, imp: seq<seq<byte>>)
      ensures env == Env(levels, clock, inbox, imp)
      ensures !flightMode && trace == []
    {
      env := Env(levels, clock, inbox, imp);
      flightMode := false;
      trace := [];
    }

    /** Record one effect. */
    method Emit(e: Event)
      modifies this
      ensures trace == old(trace) + [e]
      ensures Monitor(trace) == Then(Monitor(old(trace)), e)
      ensures env == old(env) && flightMode == old(flightMode)
    {
      MonitorSnoc(trace, e);
      trace := trace + [e];
    }

    /** poll_input(pin) on the next five levels. */
    method PollLine(pin: int) returns (ok: bool, asserted: bool)
      modifies this
      ensures ok <==> |old(env.levels)| >= Samples
      ensures ok ==> asserted == Asserted(old(env.levels)[..Samples])
      ensures ok ==> env == old(env).(levels := old(env.levels)[Samples..])
      ensures ok ==> trace == old(trace) + [Poll(Reading(pin, asserted))]
      ensures ok ==> Monitor(trace) == Then(Monitor(old(trace)), Poll(Reading(pin, asserted)))
      ensures !ok ==> env == old(env) && trace == old(trace)
      ensures flightMode == old(flightMode)
    {
      if |env.levels| < Samples {
        return false, false;
      }
      asserted := PollInput(env.levels[..Samples]);
      env := env.(levels := env.levels[Samples..]);
      Emit(Poll(Reading(pin, asserted)));
      ok := true;
    }

    /** ethernet_stream.strread(): the next message, or "" when none has arrived. */
    method ReadMessage() returns (msg: string)
      modifies this
      ensures msg == (if old(env.inbox) == [] then "" else old(env.inbox)[0])
      ensures env == old(env).(inbox := if old(env.inbox) == [] then [] else old(env.inbox)[1..])
      ensures trace == old(trace) && flightMode == old(flightMode)
    {
      if env.inbox == [] {
        msg := "";
      } else {
        msg := env.inbox[0];
        env := env.(inbox := env.inbox[1..]);
      }
    }

    /** ImP_stream.binread(buf, 255), echoing what was read to Ethernet when it is not empty. */
    method RelayImP()
      modifies this
      ensures env == old(env).(imp := RestOf(old(env.imp)))
      ensures trace == old(trace) + Forwarded(NextChunk(old(env.imp)))
      ensures Monitor(old(trace)).Some? && !Monitor(old(trace)).value.ended ==> Monitor(trace) == Monitor(old(trace))
      ensures flightMode == old(flightMode)
    {
      var chunk := NextChunk(env.imp);
      env := env.(imp := RestOf(env.imp));
      if chunk != [] {
        Emit(Forward(chunk));
      }
    }

    /** millis(), recorded. */
    method ReadClock() returns (ok: bool, now: uint32)
      modifies this
      ensures ok <==> old(env.clock) != []
      ensures ok ==> now == old(env.clock)[0] && env == old(env).(clock := old(env.clock)[1..])
      ensures ok ==> trace == old(trace) + [ClockRead(now)]
      ensures ok ==> Monitor(trace) == Then(Monitor(old(trace)), ClockRead(now))
      ensures !ok ==> now == 0 && env == old(env) && trace == old(trace)
      ensures flightMode == old(flightMode)
    {
      if env.clock == [] {
        return false, 0;
      }
      now := env.clock[0];
      env := env.(clock := env.clock[1..]);
      Emit(ClockRead(now));
      ok := true;
    }

    /** signal_handler: stop the camera, close both pipes, shut down and exit with status 1. */
    method SignalHandler()
      requires Monitor(trace).Some? && !Monitor(trace).value.ended
      modifies this
      ensures trace == old(trace) + HandlerEffects
      ensures Monitor(trace) == Some(Monitor(old(trace)).value.(ended := true))
      ensures env == old(env) && flightMode == old(flightMode)
    {
      ghost var w := Monitor(trace).value;
      Emit(StopVideo);
      assert Monitor(trace) == Some(w);
      Emit(CloseEthernet);
      assert Monitor(trace) == Some(w);
      ConcatAssoc(old(trace), [StopVideo], [CloseEthernet]);
      Emit(CloseImP);
      assert Monitor(trace) == Some(w);
      ConcatAssoc(old(trace), [StopVideo, CloseEthernet], [CloseImP]);
      Emit(Shutdown);
      assert Monitor(trace) == Some(w);
      ConcatAssoc(old(trace), [StopVideo, CloseEthernet, CloseImP], [Shutdown]);
      Emit(Exit(1));
      ConcatAssoc(old(trace), [StopVideo, CloseEthernet, CloseImP, Shutdown], [Exit(1)]);
    }

    /**
     * The program's main: set up the pins, read the launch-mode line, start the server,
     * then take commands until LO polls asserted, run the mission and reboot.
     */
    method Run() returns (outcome: Outcome)
      requires trace == []
      modifies this
      ensures Monitor(trace).Some?
      ensures old(env.levels) != [] ==> flightMode == (old(env.levels)[0] == 1)
      ensures outcome == Completed ==> Entries(trace) == [LiftOff, Experiment, Storage]
      ensures outcome == Completed ==> BurnLevels(trace) == [1, 0] && trace[|trace| - 1] == Reboot
      ensures outcome == Exited ==> Entries(trace) == [] && BurnLevels(trace) == []
      ensures outcome == Exited ==> |trace| >= 5 && trace[|trace| - 5..] == HandlerEffects
      ensures outcome == Halted ==> |env.levels| < Samples || env.clock == []
      ensures outcome == Exited ==> exists k :: 0 <= k < |old(env.inbox)| && Classify(old(env.inbox)[k]) == MsgExit
      ensures var x := Program(old(env)); trace == x.events && env == x.rest && outcome == x.outcome
    {
      Emit(PinWrite(LaunchModeOut, 1));
      assert Monitor(trace) == Some(Start);
      if env.levels == [] {
        return Halted;
      }
      ghost var e0 := env;
      SetUp();
      ghost var setUp := [PinWrite(LaunchModeOut, 1), PinRead(LaunchModeIn, e0.levels[0]), PinWrite(Alive, 1), StartServer];
      assert trace == setUp;
      ghost var x := Operation(env);
      assert Program(e0) == Execution(setUp + x.events, x.rest, x.outcome);
      outcome := Operate();
    }

    /** The rest of main's set-up: read LAUNCH_MODE_IN into flight_mode, raise ALIVE, start the server. */
    method SetUp()
      requires Monitor(trace) == Some(Start) && env.levels != []
      modifies this
      ensures flightMode == (old(env.levels)[0] == 1)
      ensures env == old(env).(levels := old(env.levels)[1..])
      ensures trace == old(trace) + [PinRead(LaunchModeIn, old(env.levels)[0]), PinWrite(Alive, 1), StartServer]
      ensures Monitor(trace) == Some(Start)
    {
      var level := env.levels[0];
      flightMode := level == 1;
      env := env.(levels := env.levels[1..]);
      Emit(PinRead(LaunchModeIn, level));
      assert Monitor(trace) == Some(Start);
      Emit(PinWrite(Alive, 1));
      assert Monitor(trace) == Some(Start);
      Emit(StartServer);
    }

    /** main after its set-up: the loop before lift-off, then LO_SIGNAL and the reboot. */
    method Operate() returns (outcome: Outcome)
      requires Monitor(trace) == Some(Start)
      modifies this
      ensures Monitor(trace).Some?
      ensures outcome == Completed ==> Entries(trace) == [LiftOff, Experiment, Storage]
      ensures outcome == Completed ==> BurnLevels(trace) == [1, 0] && trace[|trace| - 1] == Reboot
      ensures outcome == Exited ==> Entries(trace) == [] && BurnLevels(trace) == []
      ensures outcome == Exited ==> |trace| >= 5 && trace[|trace| - 5..] == HandlerEffects
      ensures outcome == Halted ==> |env.levels| < Samples || env.clock == []
      ensures outcome == Exited ==> exists k :: 0 <= k < |old(env.inbox)| && Classify(old(env.inbox)[k]) == MsgExit
      ensures flightMode == old(flightMode)
      ensures var x := Operation(old(env)); trace == old(trace) + x.events && env == x.rest && outcome == x.outcome
    {
      ghost var a := AwaitFrom(env);
      var seen, exited := AwaitLiftOff();
      if exited {
        assert Operation(old(env)) == Execution(a.events, a.rest, Exited);
        OperationExit(old(env));
        PhasesAndBurn(trace);
        return Exited;
      }
      if !seen {
        assert Operation(old(env)) == Execution(a.events, a.rest, Halted);
        return Halted;
      }
      ghost var l := LoRun(env);
      var finished := LoSignal();
      if !finished {
        assert Operation(old(env)) == Execution(a.events + l.events, l.rest, Halted);
        ConcatAssoc(old(trace), a.events, l.events);
        return Halted;
      }
      RebootAfterStorage(trace);
      Emit(Reboot);
      assert Operation(old(env)) == Execution(a.events + l.events + [Reboot], l.rest, Completed);
      ConcatAssoc(old(trace), a.events, l.events);
      ConcatAssoc(old(trace), a.events + l.events, [Reboot]);
      outcome := Completed;
    }

    /**
     * The loop of main before lift-off: poll LO, then read and dispatch a
     * message in the same pass, until LO is asserted or a command ends the
     * program.
     */
    method AwaitLiftOff() returns (seen: bool, exited: bool)
      requires Monitor(trace) == Some(Start)
      modifies this
      ensures var r := AwaitFrom(old(env));
        trace == old(trace) + r.events && env == r.rest && seen == r.seen && exited == r.exited
      ensures exited ==> Monitor(trace).Some? && Monitor(trace).value.phase == Idle && Monitor(trace).value.burn == Unfired
      ensures exited ==> |trace| >= 5 && trace[|trace| - 5..] == HandlerEffects
      ensures !exited && seen ==> Monitor(trace) == Some(Watch(Idle, Unfired, Some(Reading(Lo, true)), false))
      ensures !exited && !seen ==> Monitor(trace).Some? && Monitor(trace).value.phase == Idle
      ensures !exited && !seen ==> Monitor(trace).value.burn == Unfired && |env.levels| < Samples
      ensures flightMode == old(flightMode)
    {
      ghost var lp: Option<Reading> := None;
      ghost var r0 := AwaitFrom(env);
      seen, exited := false, false;
      while !seen
        invariant Monitor(trace) == Some(Watch(Idle, Unfired, lp, false))
        invariant seen ==> lp == Some(Reading(Lo, true))
        invariant flightMode == old(flightMode)
        invariant !seen ==> old(trace) + r0.events == trace + AwaitFrom(env).events
        invariant !seen ==> r0 == AwaitFrom(env).(events := r0.events)
        invariant seen ==> trace == old(trace) + r0.events && r0 == Pass(r0.events, env, true, false)
        decreases |env.levels|
      {
        ghost var e := env;
        ghost var before := trace;
        var ok, asserted, command := LiftOffPass(lp);
        if !ok {
          return;
        }
        lp := Some(Reading(Lo, asserted));
        seen := asserted;
        exited := command == MsgExit;
        ghost var events := [Poll(Reading(Lo, asserted))] + Effects(command);
        if exited {
          return;
        }
        if !asserted {
          assert AwaitFrom(e) == Pass(events + AwaitFrom(env).events, AwaitFrom(env).rest, AwaitFrom(env).seen, AwaitFrom(env).exited);
          ConcatAssoc(before, events, AwaitFrom(env).events);
        }
      }
    }

    /** One pass of the loop before lift-off: poll LO, read a message and dispatch it. */
    method LiftOffPass(ghost lp: Option<Reading>) returns (ok: bool, asserted: bool, command: Command)
      requires Monitor(trace) == Some(Watch(Idle, Unfired, lp, false))
      modifies this
      ensures ok <==> |old(env.levels)| >= Samples
      ensures !ok ==> env == old(env) && trace == old(trace)
      ensures ok ==> asserted == Asserted(old(env.levels)[..Samples]) && command == Classify(NextMessage(old(env.inbox)))
      ensures ok ==> env == old(env).(levels := old(env.levels)[Samples..], inbox := RestMessages(old(env.inbox)))
      ensures ok ==> trace == old(trace) + ([Poll(Reading(Lo, asserted))] + Effects(command))
      ensures ok ==> Monitor(trace) == Some(Watch(Idle, Unfired, Some(Reading(Lo, asserted)), command == MsgExit))
      ensures ok && command == MsgExit ==> |trace| >= 5 && trace[|trace| - 5..] == HandlerEffects
      ensures flightMode == old(flightMode)
    {
      var asserted0;
      ok, asserted0 := PollLine(Lo);
      if !ok {
        return false, false, Skip;
      }
      asserted := asserted0;
      assert Monitor(trace) == Some(Watch(Idle, Unfired, Some(Reading(Lo, asserted)), false));
      ghost var before := trace;
      var msg := ReadMessage();
      command := Classify(msg);
      var exited := Dispatch(command);
      ConcatAssoc(old(trace), [Poll(Reading(Lo, asserted))], Effects(command));
    }

    /** The switch on a message received before lift-off; true when it ended the program. */
    method Dispatch(command: Command) returns (exited: bool)
      requires Monitor(trace).Some? && Monitor(trace).value.phase == Idle && !Monitor(trace).value.ended
      modifies this
      ensures exited <==> command == MsgExit
      ensures trace == old(trace) + Effects(command)
      ensures Monitor(trace) == Some(Monitor(old(trace)).value.(ended := exited))
      ensures exited ==> |trace| >= 5 && trace[|trace| - 5..] == HandlerEffects
      ensures env == old(env) && flightMode == old(flightMode)
    {
      exited := false;
      if command == Skip {
        return;
      }
      ghost var w := Monitor(trace).value;
      Emit(Received(command));
      assert Monitor(trace) == Some(w);
      match command {
        case MsgReset =>
          Emit(Reboot);
          assert Monitor(trace) == Some(w);
          assert trace == old(trace) + [Received(command), Reboot];
          assert Effects(command) == [Received(command), Reboot];
        case MsgExit =>
          SignalHandler();
          exited := true;
          assert trace == old(trace) + [Received(command)] + HandlerEffects;
          assert trace[|trace| - 5..] == HandlerEffects;
          ConcatAssoc(old(trace), [Received(command)], HandlerEffects);
        case Unidentified =>
          Emit(Report);
          assert Monitor(trace) == Some(w);
          assert trace == old(trace) + [Received(command), Report];
          assert Effects(command) == [Received(command), Report];
        case _ =>
      }
    }

    /** LO_SIGNAL: start the camera, then poll SOE until it is asserted. */
    method LoSignal() returns (finished: bool)
      requires Monitor(trace) == Some(Watch(Idle, Unfired, Some(Reading(Lo, true)), false))
      modifies this
      ensures var l := LoRun(old(env)); trace == old(trace) + l.events && env == l.rest && finished == l.finished
      ensures Monitor(trace).Some?
      ensures finished ==> Monitor(trace).value.phase == Storage && Monitor(trace).value.burn.Released?
      ensures finished ==> !Monitor(trace).value.ended
      ensures !finished ==> |env.levels| < Samples || env.clock == []
      ensures flightMode == old(flightMode)
    {
      Emit(Enter(LiftOff));
      Emit(StartVideo);
      ConcatAssoc(old(trace), [Enter(LiftOff)], [StartVideo]);
      assert trace == old(trace) + [Enter(LiftOff), StartVideo];
      var received, lp := AwaitLine(Soe, false, Watch(LiftOff, Unfired, Some(Reading(Lo, true)), false));
      ghost var w := Await(Soe, false, old(env));
      ConcatAssoc(old(trace), [Enter(LiftOff), StartVideo], w.events);
      if !received {
        return false;
      }
      ghost var mid := trace;
      finished := SoeSignal();
      ConcatAssoc(old(trace), [Enter(LiftOff), StartVideo] + w.events, trace[|mid|..]);
      assert trace == mid + trace[|mid|..];
    }

    /**
     * The polling loops of LO_SIGNAL and SOE_SIGNAL: poll a line until it
     * is asserted, relaying one ImP read after each poll when asked to.
     */
    method AwaitLine(pin: int, relay: bool, ghost w: Watch) returns (seen: bool, ghost lp: Option<Reading>)
      requires Monitor(trace) == Some(w) && !w.ended
      modifies this
      ensures var r := Await(pin, relay, old(env)); trace == old(trace) + r.events && env == r.rest && seen == r.seen
      ensures Monitor(trace) == Some(w.(lastPoll := lp))
      ensures seen ==> lp == Some(Reading(pin, true))
      ensures !seen ==> |env.levels| < Samples
      ensures flightMode == old(flightMode)
    {
      ghost var r0 := Await(pin, relay, env);
      lp := w.lastPoll;
      seen := false;
      while !seen
        invariant Monitor(trace) == Some(w.(lastPoll := lp))
        invariant seen ==> lp == Some(Reading(pin, true))
        invariant flightMode == old(flightMode)
        invariant !seen ==> old(trace) + r0.events == trace + Await(pin, relay, env).events
        invariant !seen ==> r0 == Await(pin, relay, env).(events := r0.events)
        invariant seen ==> trace == old(trace) + r0.events && r0 == Pass(r0.events, env, true, false)
        decreases |env.levels|
      {
        ghost var e := env;
        ghost var before := trace;
        var ok, asserted := PollLine(pin);
        if !ok {
          assert trace + [] == trace;
          return;
        }
        lp := Some(Reading(pin, asserted));
        seen := asserted;
        ghost var chunk := if relay then Forwarded(NextChunk(env.imp)) else [];
        if relay {
          RelayImP();
        }
        assert trace == before + [Poll(Reading(pin, asserted))] + chunk;
        ConcatAssoc(before, [Poll(Reading(pin, asserted))], chunk);
        if !asserted {
          ghost var r := Await(pin, relay, env);
          assert Await(pin, relay, e) == Pass([Poll(Reading(pin, false))] + chunk + r.events, r.rest, r.seen, r.exited);
          ConcatAssoc(before, [Poll(Reading(pin, false))] + chunk, r.events);
        }
      }
    }

    /**
     * SOE_SIGNAL: start the ImP, drive the burn wire high, relay ImP data
     * until more than 6000 ms have passed, drive it low, then relay ImP data
     * while polling SODS until it is asserted.
     */
    method SoeSignal() returns (finished: bool)
      requires Monitor(trace) == Some(Watch(LiftOff, Unfired, Some(Reading(Soe, true)), false))
      modifies this
      ensures var r := SoeRun(old(env)); trace == old(trace) + r.events && env == r.rest && finished == r.finished
      ensures Monitor(trace).Some?
      ensures finished ==> Monitor(trace).value.phase == Storage && Monitor(trace).value.burn.Released?
      ensures finished ==> !Monitor(trace).value.ended
      ensures !finished ==> |env.levels| < Samples || env.clock == []
      ensures flightMode == old(flightMode)
    {
      ghost var lp: Option<Reading> := Some(Reading(Soe, true));
      Emit(Enter(Experiment));
      assert Monitor(trace) == Some(Watch(Experiment, Unfired, lp, false));
      Emit(StartImP);
      assert Monitor(trace) == Some(Watch(Experiment, Unfired, lp, false));
      ghost var p := Pulse(env);
      ConcatAssoc(old(trace), [Enter(Experiment)], [StartImP]);
      assert trace == old(trace) + [Enter(Experiment), StartImP];
      var ok, start, end := BurnPulse();
      ghost var head := trace;
      ConcatAssoc(old(trace), [Enter(Experiment), StartImP], p.events);
      if !ok {
        return false;
      }
      ghost var w := Await(Sods, true, env);
      var received;
      received, lp := AwaitLine(Sods, true, Watch(Experiment, Released(start, end), lp, false));
      ConcatAssoc(old(trace), [Enter(Experiment), StartImP] + p.events, w.events);
      if !received {
        return false;
      }
      SodsSignal();
      ConcatAssoc(old(trace), [Enter(Experiment), StartImP] + p.events + w.events, SodsEffects);
      finished := true;
    }

    /**
     * The burn-wire pulse of SOE_SIGNAL: drive the pin high, read the start
     * time, wait until more than 6000 ms have passed, drive the pin low.
     */
    method BurnPulse() returns (ok: bool, start: uint32, end: uint32)
      requires Monitor(trace).Some? && Monitor(trace).value.phase == Experiment
      requires Monitor(trace).value.burn == Unfired && !Monitor(trace).value.ended
      modifies this
      ensures var p := Pulse(old(env));
        trace == old(trace) + p.events && env == p.rest && ok == p.ok && start == p.start && end == p.end
      ensures Monitor(trace).Some?
      ensures ok ==> Monitor(trace) == Some(old(Monitor(trace)).value.(burn := Released(start, end)))
      ensures ok ==> Elapsed(start, end) > BurnTimeMs
      ensures !ok ==> env.clock == []
      ensures env.levels == old(env.levels) && flightMode == old(flightMode)
    {
      ghost var w := Monitor(trace).value;
      Emit(PinWrite(BurnWire, 1));
      assert Monitor(trace) == Some(w.(burn := Armed));
      ok, start := ReadClock();
      if !ok {
        return false, 0, 0;
      }
      ConcatAssoc(old(trace), [PinWrite(BurnWire, 1)], [ClockRead(start)]);
      assert trace == old(trace) + [PinWrite(BurnWire, 1), ClockRead(start)];
      ghost var t := BurnLoop(start, env);
      ok, end := BurnTimer(start, w);
      ConcatAssoc(old(trace), [PinWrite(BurnWire, 1), ClockRead(start)], t.events);
      if !ok {
        assert t.events + [] == t.events;
        return;
      }
      Emit(PinWrite(BurnWire, 0));
      ConcatAssoc(old(trace), [PinWrite(BurnWire, 1), ClockRead(start)] + t.events, [PinWrite(BurnWire, 0)]);
    }

    /**
     * The loop of the burn-wire pulse: on each pass read the clock and stop
     * once more than 6000 ms have passed since start, relaying ImP data
     * otherwise.
     */
    method BurnTimer(start: uint32, ghost w: Watch) returns (ok: bool, end: uint32)
      requires Monitor(trace) == Some(w.(burn := Timing(start))) && !w.ended
      modifies this
      ensures var t := BurnLoop(start, old(env)); trace == old(trace) + t.events && env == t.rest && ok == t.ok && end == t.end
      ensures ok ==> Monitor(trace) == Some(w.(burn := Expired(start, end))) && Elapsed(start, end) > BurnTimeMs
      ensures !ok ==> Monitor(trace) == Some(w.(burn := Timing(start))) && env.clock == []
      ensures env.levels == old(env.levels) && flightMode == old(flightMode)
    {
      ghost var t0 := BurnLoop(start, env);
      end := 0;
      while true
        invariant Monitor(trace) == Some(w.(burn := Timing(start)))
        invariant env.levels == old(env.levels) && flightMode == old(flightMode)
        invariant old(trace) + t0.events == trace + BurnLoop(start, env).events
        invariant t0 == BurnLoop(start, env).(events := t0.events)
        decreases |env.clock|
      {
        ghost var e := env;
        ghost var before := trace;
        var expired;
        ok, end, expired := BurnPass(start, w);
        if !ok {
          assert trace + [] == trace;
          return;
        }
        if expired {
          assert BurnLoop(start, e) == Timed([ClockRead(end)], env, true, end);
          return;
        }
        ghost var chunk := Forwarded(NextChunk(e.imp));
        ghost var t := BurnLoop(start, env);
        assert BurnLoop(start, e) == Timed([ClockRead(end)] + chunk + t.events, t.rest, t.ok, t.end);
        ConcatAssoc(before, [ClockRead(end)] + chunk, t.events);
      }
    }

    /** One pass of the burn-wire loop: read the clock, and relay ImP data unless the time is up. */
    method BurnPass(start: uint32, ghost w: Watch) returns (ok: bool, end: uint32, expired: bool)
      requires Monitor(trace) == Some(w.(burn := Timing(start))) && !w.ended
      modifies this
      ensures ok <==> old(env.clock) != []
      ensures !ok ==> env == old(env) && trace == old(trace) && end == 0
      ensures ok ==> end == old(env.clock)[0] && (expired <==> Elapsed(start, end) > BurnTimeMs)
      ensures ok && expired ==> env == old(env).(clock := old(env.clock)[1..]) && trace == old(trace) + [ClockRead(end)]
      ensures ok && expired ==> Monitor(trace) == Some(w.(burn := Expired(start, end)))
      ensures ok && !expired ==> env == old(env).(clock := old(env.clock)[1..], imp := RestOf(old(env.imp)))
      ensures ok && !expired ==> trace == old(trace) + ([ClockRead(end)] + Forwarded(NextChunk(old(env.imp))))
      ensures ok && !expired ==> Monitor(trace) == Some(w.(burn := Timing(start)))
      ensures flightMode == old(flightMode)
    {
      ok, end := ReadClock();
      if !ok {
        return false, 0, false;
      }
      var time := Elapsed(start, end);
      expired := time > BurnTimeMs;
      if expired {
        return;
      }
      ghost var read := trace;
      RelayImP();
      ConcatAssoc(old(trace), [ClockRead(end)], trace[|read|..]);
      assert trace == read + trace[|read|..];
    }

    /** SODS_SIGNAL: stop the camera and close both pipes. */
    method SodsSignal()
      requires Monitor(trace).Some? && Monitor(trace).value.phase == Experiment
      requires Monitor(trace).value.burn.Released? && !Monitor(trace).value.ended
      requires Monitor(trace).value.lastPoll == Some(Reading(Sods, true))
      modifies this
      ensures trace == old(trace) + [Enter(Storage), StopVideo, CloseEthernet, CloseImP]
      ensures Monitor(trace) == Some(Monitor(old(trace)).value.(phase := Storage))
      ensures env == old(env) && flightMode == old(flightMode)
    {
      ghost var w := Monitor(trace).value.(phase := Storage);
      Emit(Enter(Storage));
      assert Monitor(trace) == Some(w);
      Emit(StopVideo);
      assert Monitor(trace) == Some(w);
      Emit(CloseEthernet);
      assert Monitor(trace) == Some(w);
      Emit(CloseImP);
    }
  }
}
