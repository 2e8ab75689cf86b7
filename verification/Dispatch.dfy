/** Starting one process per router and collecting their results over a bounded channel. A step is
    one action of the dispatcher or of one process, in any interleaving. */
module Dispatch {
  /** What happens when the dispatcher gets to a router: its process starts (and will end with or
      without an error), it cannot be resolved or reached, or a local resource is missing. */
  datatype Attempt = Started(ok: bool) | Unreachable | NoResource

  datatype Config = Config(attempts: seq<Attempt>, stopOnError: bool, singleRouter: bool, windows: bool)

  /** A process: running, about to send its result, done sending, and gone from the wait group. */
  datatype Stage = Running | Ready | Sent | Left

  datatype Process = Process(ok: bool, stage: Stage)

  /** On Windows the dispatcher runs each process itself. */
  datatype Phase = Looping | Inline | Collecting | Joined | ChannelClosed | Exited(code: int)

  datatype State = State(
    phase: Phase,
    next: nat,
    processes: seq<Process>,
    channel: seq<nat>,
    processesStarted: nat,
    received: seq<nat>,
    waiting: int,
    fatalErr: bool,
    dispatchFailed: bool)

  datatype Action =
    | Launch
    | Fail
    | GiveUp
    | Resume
    | EndLoop
    | Finish(process: nat)
    | Send(process: nat)
    | Leave(process: nat)
    | Receive
    | Join
    | CloseChannel
    | Exit

  function Start(): (s: State)
  {
    State(Looping, 0, [], [], 0, [], 0, false, false)
  }

  function Capacity(cfg: Config): (n: nat) { |cfg.attempts| }

  predicate InStage(s: State, p: nat, stage: Stage)
  {
    p < |s.processes| && s.processes[p].stage == stage
  }

  predicate Enabled(cfg: Config, s: State, a: Action)
  {
    match a
    case Launch => s.phase.Looping? && s.next < |cfg.attempts| && cfg.attempts[s.next].Started?
    case Fail => s.phase.Looping? && s.next < |cfg.attempts| && cfg.attempts[s.next].Unreachable?
    case GiveUp => s.phase.Looping? && s.next < |cfg.attempts| && cfg.attempts[s.next].NoResource?
    case Resume => s.phase.Inline? && s.processes != [] && InStage(s, |s.processes| - 1, Left)
    case EndLoop => s.phase.Looping? && s.next >= |cfg.attempts|
    case Finish(p) => !s.phase.Exited? && InStage(s, p, Running)
    case Send(p) => !s.phase.Exited? && InStage(s, p, Ready) && |s.channel| < Capacity(cfg)
    case Leave(p) => !s.phase.Exited? && InStage(s, p, Sent)
    case Receive => s.phase.Collecting? && |s.received| < s.processesStarted && s.channel != []
    case Join => s.phase.Collecting? && |s.received| == s.processesStarted && s.waiting == 0
    case CloseChannel => s.phase.Joined?
    case Exit => s.phase.ChannelClosed?
  }

  function Moved(s: State, p: nat, stage: Stage): (r: State)
    requires p < |s.processes|
  {
    s.(processes := s.processes[p := s.processes[p].(stage := stage)])
  }

  function Next(cfg: Config, s: State, a: Action): (r: State)
    requires Enabled(cfg, s, a)
  {
    match a
    case Launch =>
      var t := s.(next := s.next + 1, processes := s.processes + [Process(cfg.attempts[s.next].ok, Running)]);
      if cfg.windows then t.(phase := Inline)
      else t.(waiting := s.waiting + 1, processesStarted := s.processesStarted + 1)
    case Fail =>
      if !cfg.stopOnError && !cfg.singleRouter then s.(next := s.next + 1)
      else s.(fatalErr := true, dispatchFailed := true, phase := Collecting)
    case GiveUp => s.(phase := Exited(1))
    case Resume => s.(phase := Looping, processesStarted := s.processesStarted + 1)
    case EndLoop => s.(phase := Collecting)
    case Finish(p) => Moved(s, p, Ready)
    case Send(p) => Moved(s, p, if cfg.windows then Left else Sent).(channel := s.channel + [p])
    case Leave(p) => Moved(s, p, Left).(waiting := s.waiting - 1)
    case Receive =>
      s.(channel := s.channel[1..], received := s.received + [s.channel[0]],
         fatalErr := s.fatalErr || (s.channel[0] < |s.processes| && !s.processes[s.channel[0]].ok))
    case Join => s.(phase := Joined)
    case CloseChannel => s.(phase := ChannelClosed)
    case Exit => s.(phase := Exited(if s.fatalErr then 1 else 0))
  }

  predicate CanRun(cfg: Config, s: State, actions: seq<Action>)
    decreases |actions|
  {
    actions == [] || (Enabled(cfg, s, actions[0]) && CanRun(cfg, Next(cfg, s, actions[0]), actions[1..]))
  }

  function AfterRun(cfg: Config, s: State, actions: seq<Action>): (r: State)
    requires CanRun(cfg, s, actions)
    decreases |actions|
  {
    if actions == [] then s else AfterRun(cfg, Next(cfg, s, actions[0]), actions[1..])
  }

  // ----- counting processes by stage

  predicate HasSent(p: Process) { p.stage.Sent? || p.stage.Left? }

  /** Processes that have sent their result, and processes the wait group still counts. */
  function SentCount(ps: seq<Process>): (n: nat)
  {
    if |ps| == 0 then 0 else SentCount(ps[..|ps| - 1]) + if HasSent(ps[|ps| - 1]) then 1 else 0
  }

  function OutCount(ps: seq<Process>): (n: nat)
  {
    if |ps| == 0 then 0 else OutCount(ps[..|ps| - 1]) + if ps[|ps| - 1].stage.Left? then 0 else 1
  }

  /** Steps a process still has before it, with a send weighing what it leaves to receive. */
  function Weight(stage: Stage): (n: nat)
  {
    match stage case Running => 4 case Ready => 3 case Sent => 1 case Left => 0
  }

  function Work(ps: seq<Process>): (n: nat)
  {
    if |ps| == 0 then 0 else Work(ps[..|ps| - 1]) + Weight(ps[|ps| - 1].stage)
  }

  lemma {:induction false} CountsMove(ps: seq<Process>, i: nat, p: Process)
    requires i < |ps|
    ensures SentCount(ps[i := p]) == SentCount(ps) - (if HasSent(ps[i]) then 1 else 0) + (if HasSent(p) then 1 else 0)
    ensures OutCount(ps[i := p]) == OutCount(ps) - (if ps[i].stage.Left? then 0 else 1) + (if p.stage.Left? then 0 else 1)
    ensures Work(ps[i := p]) == Work(ps) - Weight(ps[i].stage) + Weight(p.stage)
  {
    var before := ps[..|ps| - 1];
    if i == |ps| - 1 {
      assert ps[i := p][..|ps| - 1] == before;
    } else {
      assert ps[i := p][..|ps| - 1] == before[i := p];
      CountsMove(before, i, p);
    }
  }

  lemma CountsAppend(ps: seq<Process>, p: Process)
    ensures SentCount(ps + [p]) == SentCount(ps) + (if HasSent(p) then 1 else 0)
    ensures OutCount(ps + [p]) == OutCount(ps) + (if p.stage.Left? then 0 else 1)
    ensures Work(ps + [p]) == Work(ps) + Weight(p.stage)
  {
    assert (ps + [p])[..|ps|] == ps;
  }

  lemma {:induction false} CountBounds(ps: seq<Process>)
    ensures SentCount(ps) <= |ps| && OutCount(ps) <= |ps|
    ensures (exists k :: 0 <= k < |ps| && !HasSent(ps[k])) ==> SentCount(ps) < |ps|
    ensures SentCount(ps) == |ps| ==> forall k :: 0 <= k < |ps| ==> HasSent(ps[k])
    ensures OutCount(ps) == 0 <==> forall k :: 0 <= k < |ps| ==> ps[k].stage.Left?
    ensures (forall k :: 0 <= k < |ps| ==> HasSent(ps[k])) ==> SentCount(ps) == |ps|
  {
    if |ps| > 0 {
      CountBounds(ps[..|ps| - 1]);
      assert forall k :: 0 <= k < |ps| - 1 ==> ps[..|ps| - 1][k] == ps[k];
    }
  }

  // ----- the invariant

  predicate InLoop(s: State) { s.phase.Looping? || s.phase.Inline? }

  ghost predicate CountInv(cfg: Config, s: State)
  {
    |s.processes| <= s.next <= |cfg.attempts|
    && |s.processes| == s.processesStarted + (if s.phase.Inline? then 1 else 0)
    && SentCount(s.processes) == |s.received| + |s.channel|
    && s.waiting == (if cfg.windows then 0 else OutCount(s.processes))
    && (s.phase.Inline? ==> cfg.windows)
    && (InLoop(s) ==> s.received == [])
    && ((s.phase.Joined? || s.phase.ChannelClosed?) ==> |s.received| == |s.processes| && OutCount(s.processes) == 0)
    && (cfg.windows ==> forall p :: 0 <= p < |s.processes| - (if s.phase.Inline? then 1 else 0) ==> s.processes[p].stage.Left?)
    && (cfg.windows ==> forall p :: 0 <= p < |s.processes| ==> !s.processes[p].stage.Sent?)
  }

  predicate EndedBadly(s: State, p: nat)
  {
    p < |s.processes| && !s.processes[p].ok
  }

  /** Every process that has sent is in the channel or received, and nothing else is. */
  ghost predicate ResultInv(cfg: Config, s: State)
  {
    (forall p: nat :: p in s.received || p in s.channel <==> p < |s.processes| && HasSent(s.processes[p]))
    && (s.fatalErr <==> s.dispatchFailed || exists p :: p in s.received && EndedBadly(s, p))
  }

  /** Whether the dispatcher goes on to the next router after one it cannot reach. */
  predicate Tolerant(cfg: Config) { !cfg.stopOnError && !cfg.singleRouter }

  /** How the processes started for the first n routers will end, in order. */
  function Outcomes(attempts: seq<Attempt>, n: nat): (oks: seq<bool>)
    requires n <= |attempts|
  {
    if n == 0 then []
    else Outcomes(attempts, n - 1) + if attempts[n - 1].Started? then [attempts[n - 1].ok] else []
  }

  function OkFlags(ps: seq<Process>): (oks: seq<bool>)
  {
    seq(|ps|, i requires 0 <= i < |ps| => ps[i].ok)
  }

  /** The processes are those of the routers gone through, all of which were started or tolerated;
      the loop is left at the end or at the router that made dispatch fail. */
  ghost predicate AttemptInv(cfg: Config, s: State)
  {
    s.next <= |cfg.attempts|
    && OkFlags(s.processes) == Outcomes(cfg.attempts, s.next)
    && (forall k :: 0 <= k < s.next ==> cfg.attempts[k].Started? || (cfg.attempts[k].Unreachable? && Tolerant(cfg)))
    && (s.dispatchFailed ==> s.next < |cfg.attempts| && cfg.attempts[s.next].Unreachable? && !Tolerant(cfg))
    && (!InLoop(s) && !s.phase.Exited? && !s.dispatchFailed ==> s.next == |cfg.attempts|)
  }

  /** The dispatcher gave up at a router for want of a local resource. */
  predicate GaveUp(cfg: Config, s: State)
  {
    s.next < |cfg.attempts| && cfg.attempts[s.next].NoResource?
  }

  ghost predicate ExitInv(cfg: Config, s: State)
  {
    s.phase.Exited? ==>
      (GaveUp(cfg, s) && !s.dispatchFailed && s.phase.code == 1)
      || (|s.received| == |s.processes| == s.processesStarted
          && (!s.dispatchFailed ==> s.next == |cfg.attempts|)
          && s.phase.code in {0, 1}
          && (s.phase.code == 0 <==> !s.dispatchFailed && forall p :: 0 <= p < |s.processes| ==> s.processes[p].ok))
  }

  ghost predicate Inv(cfg: Config, s: State)
  {
    CountInv(cfg, s) && ResultInv(cfg, s) && ExitInv(cfg, s) && AttemptInv(cfg, s) && (InLoop(s) ==> !s.dispatchFailed)
  }

  lemma StartInv(cfg: Config)
    ensures Inv(cfg, Start())
  {
  }

  /** A step of one process. */
  predicate OfProcess(a: Action) { a.Finish? || a.Send? || a.Leave? }

  lemma ProcessCounts(cfg: Config, s: State, a: Action)
    requires Inv(cfg, s) && Enabled(cfg, s, a) && OfProcess(a)
    ensures CountInv(cfg, Next(cfg, s, a))
    ensures Work(Next(cfg, s, a).processes) + |Next(cfg, s, a).channel| < Work(s.processes) + |s.channel|
  {
    hide ResultInv, ExitInv, SentCount, OutCount, Work;
    var p := a.process;
    var stage := match a case Finish(_) => Ready case Leave(_) => Left case _ => if cfg.windows then Left else Sent;
    CountsMove(s.processes, p, s.processes[p].(stage := stage));
    CountBounds(s.processes);
  }

  lemma LaunchCounts(cfg: Config, s: State)
    requires Inv(cfg, s) && Enabled(cfg, s, Launch)
    ensures CountInv(cfg, Next(cfg, s, Launch))
    ensures Work(Next(cfg, s, Launch).processes) == Work(s.processes) + 4
  {
    CountsAppend(s.processes, Process(cfg.attempts[s.next].ok, Running));
    hide ResultInv, ExitInv, SentCount, OutCount, Work;
  }

  lemma DispatcherCounts(cfg: Config, s: State, a: Action)
    requires Inv(cfg, s) && Enabled(cfg, s, a) && !OfProcess(a) && !a.Launch?
    ensures CountInv(cfg, Next(cfg, s, a)) && Next(cfg, s, a).processes == s.processes
  {
    CountBounds(s.processes);
    hide ResultInv, ExitInv, SentCount, OutCount;
  }

  lemma NextCounts(cfg: Config, s: State, a: Action)
    requires Inv(cfg, s) && Enabled(cfg, s, a)
    ensures CountInv(cfg, Next(cfg, s, a))
  {
    if OfProcess(a) { ProcessCounts(cfg, s, a); }
    else if a.Launch? { LaunchCounts(cfg, s); }
    else { DispatcherCounts(cfg, s, a); }
    hide Inv, CountInv, Next;
  }

  lemma ReceiveResults(cfg: Config, s: State)
    requires ResultInv(cfg, s) && Enabled(cfg, s, Receive)
    ensures ResultInv(cfg, Next(cfg, s, Receive))
  {
    var r, first := Next(cfg, s, Receive), s.channel[0];
    assert s.channel == [first] + r.channel;
    forall p: nat
      ensures p in r.received <==> p in s.received || p == first
      ensures p in s.channel <==> p == first || p in r.channel
      ensures EndedBadly(r, p) <==> EndedBadly(s, p)
    {
    }
    assert first in r.received && first < |s.processes| by { assert first in s.channel; }
    if exists p :: p in s.received && EndedBadly(s, p) {
      var p :| p in s.received && EndedBadly(s, p);
      assert p in r.received && EndedBadly(r, p);
    }
    if exists p :: p in r.received && EndedBadly(r, p) {
      var p :| p in r.received && EndedBadly(r, p);
      assert EndedBadly(s, p) && (p in s.received || p == first);
    }
  }

  lemma OtherResults(cfg: Config, s: State, a: Action)
    requires ResultInv(cfg, s) && Enabled(cfg, s, a) && !a.Receive?
    requires InLoop(s) ==> s.received == [] && !s.dispatchFailed
    ensures ResultInv(cfg, Next(cfg, s, a))
  {
    var r := Next(cfg, s, a);
    assert r.received == s.received;
    assert forall p: nat :: p in s.received ==> p < |s.processes|;
    assert forall p: nat :: p in s.received ==> (EndedBadly(r, p) <==> EndedBadly(s, p));
  }

  lemma NextResults(cfg: Config, s: State, a: Action)
    requires Inv(cfg, s) && Enabled(cfg, s, a)
    ensures ResultInv(cfg, Next(cfg, s, a))
  {
    if a.Receive? { ReceiveResults(cfg, s); } else { OtherResults(cfg, s, a); }
    hide ResultInv, Next;
  }

  lemma AllReceived(cfg: Config, s: State)
    requires Inv(cfg, s) && s.phase.ChannelClosed?
    ensures s.fatalErr <==> s.dispatchFailed || exists p :: 0 <= p < |s.processes| && !s.processes[p].ok
  {
    CountBounds(s.processes);
    assert s.channel == [];
    assert forall p: nat :: p < |s.processes| ==> p in s.received;
    assert forall p: nat :: p in s.received && EndedBadly(s, p) ==> !s.processes[p].ok;
    if p: nat :| p < |s.processes| && !s.processes[p].ok { assert EndedBadly(s, p); }
  }

  lemma NextAttempts(cfg: Config, s: State, a: Action)
    requires AttemptInv(cfg, s) && Enabled(cfg, s, a) && (InLoop(s) ==> !s.dispatchFailed)
    ensures AttemptInv(cfg, Next(cfg, s, a))
  {
    var r := Next(cfg, s, a);
    if OfProcess(a) { assert OkFlags(r.processes) == OkFlags(s.processes); }
    if a.Launch? { assert OkFlags(r.processes) == OkFlags(s.processes) + [cfg.attempts[s.next].ok]; }
  }

  lemma NextExit(cfg: Config, s: State, a: Action)
    requires Inv(cfg, s) && Enabled(cfg, s, a)
    ensures ExitInv(cfg, Next(cfg, s, a)) && (InLoop(Next(cfg, s, a)) ==> !Next(cfg, s, a).dispatchFailed)
  {
    hide SentCount, OutCount, Outcomes, OkFlags, Tolerant;
    if a.Exit? { AllReceived(cfg, s); }
    hide ResultInv;
  }

  lemma NextInv(cfg: Config, s: State, a: Action)
    requires Inv(cfg, s) && Enabled(cfg, s, a)
    ensures Inv(cfg, Next(cfg, s, a))
  {
    NextAttempts(cfg, s, a);
    NextCounts(cfg, s, a);
    NextResults(cfg, s, a);
    NextExit(cfg, s, a);
    hide Next, CountInv, ResultInv, ExitInv, AttemptInv, InLoop;
  }

  lemma {:induction false} RunInv(cfg: Config, s: State, actions: seq<Action>)
    requires Inv(cfg, s) && CanRun(cfg, s, actions)
    ensures Inv(cfg, AfterRun(cfg, s, actions))
    decreases |actions|
  {
    if actions != [] {
      NextInv(cfg, s, actions[0]);
      RunInv(cfg, Next(cfg, s, actions[0]), actions[1..]);
    }
  }

  ghost predicate Reachable(cfg: Config, s: State)
  {
    exists actions :: CanRun(cfg, Start(), actions) && AfterRun(cfg, Start(), actions) == s
  }

  lemma ReachableInv(cfg: Config, s: State)
    requires Reachable(cfg, s)
    ensures Inv(cfg, s)
  {
    var actions :| CanRun(cfg, Start(), actions) && AfterRun(cfg, Start(), actions) == s;
    StartInv(cfg);
    RunInv(cfg, Start(), actions);
  }

  // ----- the theorems

  /** No send ever blocks, on any platform and at any moment. */
  lemma SendNeverBlocks(cfg: Config, s: State, p: nat)
    requires Reachable(cfg, s) && !s.phase.Exited? && InStage(s, p, Ready)
    ensures Enabled(cfg, s, Send(p))
  {
    ReachableInv(cfg, s);
    CountBounds(s.processes);
    assert !HasSent(s.processes[p]);
  }

  /** Once the channel is closed every process has sent its result and left. */
  lemma NoSendAfterClose(cfg: Config, s: State)
    requires Reachable(cfg, s) && s.phase.ChannelClosed?
    ensures |s.received| == s.processesStarted == |s.processes| && s.channel == []
    ensures forall p :: 0 <= p < |s.processes| ==> s.processes[p].stage.Left?
  {
    ReachableInv(cfg, s);
    CountBounds(s.processes);
  }

  lemma {:induction false} OutcomesMeaning(attempts: seq<Attempt>, n: nat)
    requires n <= |attempts|
    ensures (forall i :: 0 <= i < |Outcomes(attempts, n)| ==> Outcomes(attempts, n)[i])
            <==> forall k :: 0 <= k < n && attempts[k].Started? ==> attempts[k].ok
  {
    if n > 0 {
      OutcomesMeaning(attempts, n - 1);
      var before := Outcomes(attempts, n - 1);
      assert forall i :: 0 <= i < |before| ==> Outcomes(attempts, n)[i] == before[i];
      if attempts[n - 1].Started? { assert Outcomes(attempts, n)[|before|] == attempts[n - 1].ok; }
    }
  }

  /** A router that leaves the status alone: its process ends well, or it is passed over. */
  predicate EndsWell(cfg: Config, attempt: Attempt)
  {
    attempt == Started(true) || (attempt.Unreachable? && Tolerant(cfg))
  }

  lemma AllEndWell(cfg: Config, s: State)
    requires AttemptInv(cfg, s) && s.next == |cfg.attempts|
    ensures (forall p :: 0 <= p < |s.processes| ==> s.processes[p].ok)
            <==> forall k :: 0 <= k < |cfg.attempts| ==> EndsWell(cfg, cfg.attempts[k])
  {
    OutcomesMeaning(cfg.attempts, s.next);
    var oks := Outcomes(cfg.attempts, s.next);
    assert forall p :: 0 <= p < |s.processes| ==> s.processes[p].ok == OkFlags(s.processes)[p] == oks[p];
    hide Outcomes, OkFlags;
    forall k | 0 <= k < |cfg.attempts|
      ensures EndsWell(cfg, cfg.attempts[k]) <==> (cfg.attempts[k].Started? ==> cfg.attempts[k].ok)
    {
    }
    if forall p :: 0 <= p < |s.processes| ==> s.processes[p].ok {
      assert forall i :: 0 <= i < |oks| ==> oks[i];
    }
    if forall i :: 0 <= i < |oks| ==> oks[i] {
      assert forall p :: 0 <= p < |s.processes| ==> s.processes[p].ok;
    }
  }

  /** However the steps interleave, the program's status is zero exactly when every router's process
      is started and ends without an error, or is passed over because errors are tolerated. */
  lemma FinalStatus(cfg: Config, s: State)
    requires Reachable(cfg, s) && s.phase.Exited?
    ensures s.phase.code in {0, 1}
    ensures s.phase.code == 0
            <==> forall k :: 0 <= k < |cfg.attempts| ==>
                   cfg.attempts[k] == Started(true)
                   || (cfg.attempts[k].Unreachable? && !cfg.stopOnError && !cfg.singleRouter)
  {
    ReachableInv(cfg, s);
    if s.next == |cfg.attempts| {
      AllEndWell(cfg, s);
      hide EndsWell, CountInv, ResultInv;
    } else {
      assert !EndsWell(cfg, cfg.attempts[s.next]);
      hide EndsWell, CountInv, ResultInv;
    }
  }

  lemma {:induction false} OutcomesCount(attempts: seq<Attempt>, n: nat)
    requires n <= |attempts|
    ensures |Outcomes(attempts, n)| == |set k: nat | k < n && attempts[k].Started?|
  {
    if n > 0 {
      OutcomesCount(attempts, n - 1);
      var before := set k: nat | k < n - 1 && attempts[k].Started?;
      var all := set k: nat | k < n && attempts[k].Started?;
      if attempts[n - 1].Started? { assert all == before + {n - 1}; } else { assert all == before; }
    }
  }

  /** The dispatcher goes through the routers in order and starts one process for each that it can
      reach; it leaves none out but those behind the first that it cannot reach without being told to
      go on, or at which a local resource is missing. */
  lemma StartedExactly(cfg: Config, s: State)
    requires Reachable(cfg, s) && s.phase.Exited?
    ensures s.next <= |cfg.attempts| && |s.processes| == |set k: nat | k < s.next && cfg.attempts[k].Started?|
    ensures forall k :: 0 <= k < s.next ==>
              cfg.attempts[k].Started? || (cfg.attempts[k].Unreachable? && !cfg.stopOnError && !cfg.singleRouter)
    ensures s.next < |cfg.attempts| ==>
              cfg.attempts[s.next].NoResource?
              || (cfg.attempts[s.next].Unreachable? && (cfg.stopOnError || cfg.singleRouter))
  {
    ReachableInv(cfg, s);
    OutcomesCount(cfg.attempts, s.next);
    assert |OkFlags(s.processes)| == |s.processes|;
  }

  /** Unless a local resource was missing, the program ends with exactly as many results received
      as processes started. */
  lemma AllCollected(cfg: Config, s: State)
    requires Reachable(cfg, s) && s.phase.Exited? && !GaveUp(cfg, s)
    ensures |s.received| == s.processesStarted == |s.processes|
  {
    ReachableInv(cfg, s);
  }

  /** Until the program exits somebody can move. */
  lemma NeverStuck(cfg: Config, s: State) returns (a: Action)
    requires Reachable(cfg, s) && !s.phase.Exited?
    ensures Enabled(cfg, s, a)
  {
    ReachableInv(cfg, s);
    CountBounds(s.processes);
    if p: nat :| p < |s.processes| && !s.processes[p].stage.Left? {
      a := match s.processes[p].stage case Running => Finish(p) case Ready => Send(p) case _ => Leave(p);
      if a.Send? { SendNeverBlocks(cfg, s, p); }
    } else {
      match s.phase
      case Looping =>
        if s.next >= |cfg.attempts| { a := EndLoop; }
        else { a := match cfg.attempts[s.next] case Started(_) => Launch case Unreachable => Fail case NoResource => GiveUp; }
      case Inline => a := Resume;
      case Collecting => a := if |s.received| < s.processesStarted then Receive else Join;
      case Joined => a := CloseChannel;
      case ChannelClosed => a := Exit;
    }
  }

  function PhaseRank(phase: Phase): (n: nat)
  {
    match phase
    case Inline => 6
    case Looping => 5
    case Collecting => 4
    case Joined => 3
    case ChannelClosed => 2
    case Exited(_) => 0
  }

  /** Bounds the steps still to come. */
  function Remaining(cfg: Config, s: State): (n: int)
  {
    6 * (|cfg.attempts| - s.next) + Work(s.processes) + |s.channel| + PhaseRank(s.phase)
  }

  /** Every step brings the end nearer, so with NeverStuck every run ends in an exit. */
  lemma StepsRunOut(cfg: Config, s: State, a: Action)
    requires Reachable(cfg, s) && Enabled(cfg, s, a)
    ensures 0 <= Remaining(cfg, Next(cfg, s, a)) < Remaining(cfg, s)
  {
    ReachableInv(cfg, s);
    hide ResultInv, ExitInv, SentCount, OutCount, Work;
    if OfProcess(a) {
      ProcessCounts(cfg, s, a);
    } else if a.Launch? {
      LaunchCounts(cfg, s);
    } else {
      DispatcherCounts(cfg, s, a);
    }
  }
}
