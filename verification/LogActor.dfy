/** The logger as a protocol: any number of clients, one worker, three rendezvous channels, a
    one-time stop handshake. A step is one atomic action of one party, or one rendezvous of two. */
module LogActor {
  import opened Bytes

  datatype Call = LogCall(chunk: Text) | GetCall

  datatype Answer = Written | WriteFailed | Contents(bytes: Text)

  /** Where a client is: outside, blocked on the input or output channel, blocked on its reply
      channel, or somewhere in Close. */
  datatype Client =
    | Idle
    | Calling(call: Call)
    | Waiting(call: Call)
    | AtOnce
    | SendingStop
    | AwaitingStop
    | ClosingStop
    | ClosingFile

  /** Where the worker is: in its select, with a request in hand, about to reply, about to confirm
      the stop, or gone. */
  datatype Worker =
    | Selecting
    | Holding(client: nat, call: Call)
    | Answering(client: nat, answer: Answer)
    | StopTaken
    | Exited

  /** The sync.Once of Close: the client that runs its body, while it does. */
  datatype Once = Fresh | Running(client: nat) | Done

  /** `written` is how the write of a served Log ended: None when all of it was stored, or the bytes
      that a failing one left. */
  datatype Event =
    | Invoked(client: nat, call: Call)
    | Served(client: nat, call: Call, written: Option<nat>, answer: Answer)
    | Returned(client: nat, call: Call, answer: Answer)

  datatype State = State(
    clients: seq<Client>,
    worker: Worker,
    chunks: seq<Text>,
    file: Text,
    fileOpen: bool,
    once: Once,
    stopClosed: bool,
    panicked: bool,
    history: seq<Event>)

  datatype Action =
    | Invoke(client: nat, call: Call)
    | BeginClose(client: nat)
    | Receive(client: nat)
    | Serve(written: Option<nat>)
    | Reply
    | EnterOnce(client: nat)
    | TakeStop(client: nat)
    | ConfirmStop(client: nat)
    | CloseStop(client: nat)
    | CloseFile(client: nat)

  // ----- the step relation

  predicate At(s: State, c: nat, where: Client)
  {
    c < |s.clients| && s.clients[c] == where
  }

  /** `Serve(Some(n))` is a write that fails after n bytes; a closed file fails at once. */
  predicate Enabled(s: State, a: Action)
  {
    match a
    case Invoke(c, _) => At(s, c, Idle)
    case BeginClose(c) => At(s, c, Idle)
    case Receive(c) => s.worker.Selecting? && c < |s.clients| && s.clients[c].Calling?
    case Serve(written) =>
      s.worker.Holding?
      && (s.worker.call.LogCall? ==>
            (written.Some? ==> written.value <= |s.worker.call.chunk|) && (!s.fileOpen ==> written == Some(0)))
    case Reply => s.worker.Answering? && s.worker.client < |s.clients| && s.clients[s.worker.client].Waiting?
    case EnterOnce(c) => At(s, c, AtOnce) && !s.once.Running?
    case TakeStop(c) => s.worker.Selecting? && At(s, c, SendingStop)
    case ConfirmStop(c) => s.worker.StopTaken? && At(s, c, AwaitingStop)
    case CloseStop(c) => At(s, c, ClosingStop)
    case CloseFile(c) => At(s, c, ClosingFile)
  }

  function Move(s: State, c: nat, where: Client): (r: State)
    requires c < |s.clients|
  {
    s.(clients := s.clients[c := where])
  }

  function Note(s: State, e: Event): (r: State)
  {
    s.(history := s.history + [e])
  }

  /** The worker deals with the request in its hand. */
  function Handle(s: State, written: Option<nat>): (r: State)
    requires Enabled(s, Serve(written))
  {
    match s.worker.call
    case LogCall(chunk) =>
      if written.None?
      then s.(file := s.file + chunk, chunks := s.chunks + [chunk], worker := Answering(s.worker.client, Written))
      else s.(file := s.file + chunk[..written.value], worker := Answering(s.worker.client, WriteFailed))
    case GetCall => s.(worker := Answering(s.worker.client, Contents(Flatten(s.chunks))))
  }

  function Next(s: State, a: Action): (r: State)
    requires Enabled(s, a)
  {
    match a
    case Invoke(c, call) => Note(Move(s, c, Calling(call)), Invoked(c, call))
    case BeginClose(c) => Move(s, c, AtOnce)
    case Receive(c) => Move(s, c, Waiting(s.clients[c].call)).(worker := Holding(c, s.clients[c].call))
    case Serve(written) =>
      Note(Handle(s, written), Served(s.worker.client, s.worker.call, written, Handle(s, written).worker.answer))
    case Reply =>
      Note(Move(s, s.worker.client, Idle).(worker := Selecting),
           Returned(s.worker.client, s.clients[s.worker.client].call, s.worker.answer))
    case EnterOnce(c) =>
      if s.once.Fresh? then Move(s, c, SendingStop).(once := Running(c)) else Move(s, c, ClosingFile)
    case TakeStop(c) => Move(s, c, AwaitingStop).(worker := StopTaken)
    case ConfirmStop(c) => Move(s, c, ClosingStop).(worker := Exited)
    case CloseStop(c) => Move(s, c, ClosingFile).(panicked := s.panicked || s.stopClosed, stopClosed := true, once := Done)
    case CloseFile(c) => Move(s, c, Idle).(fileOpen := false)
  }

  function Start(clients: nat): (s: State)
  {
    State(seq(clients, _ => Idle), Selecting, [], [], true, Fresh, false, false, [])
  }

  /** The actions can be taken one after the other from s. */
  predicate CanRun(s: State, actions: seq<Action>)
    decreases |actions|
  {
    actions == [] || (Enabled(s, actions[0]) && CanRun(Next(s, actions[0]), actions[1..]))
  }

  function AfterRun(s: State, actions: seq<Action>): (r: State)
    requires CanRun(s, actions)
    decreases |actions|
  {
    if actions == [] then s else AfterRun(Next(s, actions[0]), actions[1..])
  }

  // ----- what a history says

  /** The event is a Log whose write stored the whole chunk. */
  predicate Stored(e: Event) { e.Served? && e.call.LogCall? && e.written.None? }

  /** The chunks whose write succeeded, in the order they were served. */
  function Accepted(history: seq<Event>): (chunks: seq<Text>)
  {
    if |history| == 0 then []
    else
      var e := history[|history| - 1];
      Accepted(history[..|history| - 1]) + if Stored(e) then [e.call.chunk] else []
  }

  /** The bytes a write leaves in the file. */
  function Left(chunk: Text, written: Option<nat>): (bytes: Text)
  {
    if written.Some? && written.value <= |chunk| then chunk[..written.value] else chunk
  }

  /** What the writes left in the file, in the order they were served. */
  function Pieces(history: seq<Event>): (pieces: seq<Text>)
  {
    if |history| == 0 then []
    else
      var e := history[|history| - 1];
      Pieces(history[..|history| - 1]) + if e.Served? && e.call.LogCall? then [Left(e.call.chunk, e.written)] else []
  }

  predicate AnyFailure(history: seq<Event>)
  {
    exists k :: 0 <= k < |history| && history[k].Served? && history[k].call.LogCall? && history[k].written.Some?
  }

  /** The answer a sequential log gives to the call served at position k: a Log is told whether its
      write succeeded, a GetLog gets the chunks whose write had succeeded before it. */
  predicate FitsLog(history: seq<Event>, k: nat)
    requires k < |history|
  {
    history[k].Served? ==>
      match history[k].call
      case LogCall(_) => history[k].answer == if history[k].written.None? then Written else WriteFailed
      case GetCall => history[k].answer == Contents(Flatten(Accepted(history[..k])))
  }

  /** Where one client is in its current call, read off the history; Broken when its events are not
      calls that are each served once and then return once with what they were served. */
  datatype Phase = Quiet | Called(call: Call) | Answered(call: Call, answer: Answer) | Broken

  function PhaseOf(history: seq<Event>, c: nat): (p: Phase)
  {
    if |history| == 0 then Quiet
    else PhaseAfter(PhaseOf(history[..|history| - 1], c), history[|history| - 1], c)
  }

  function PhaseAfter(p: Phase, e: Event, c: nat): (r: Phase)
  {
    if e.client != c then p
    else
      match e
      case Invoked(_, call) => if p.Quiet? then Called(call) else Broken
      case Served(_, call, _, answer) => if p == Called(call) then Answered(call, answer) else Broken
      case Returned(_, call, answer) => if p == Answered(call, answer) then Quiet else Broken
  }

  function ClientPhase(s: State, c: nat): (p: Phase)
    requires c < |s.clients|
  {
    match s.clients[c]
    case Calling(call) => Called(call)
    case Waiting(call) => if s.worker.Answering? then Answered(call, s.worker.answer) else Called(call)
    case _ => Quiet
  }

  // ----- the invariant

  predicate BeforeStop(w: Worker) { w.Selecting? || w.Holding? || w.Answering? }

  predicate Runs(client: Client) { client.SendingStop? || client.AwaitingStop? || client.ClosingStop? }

  /** Only the client in the worker's hand waits for a reply, and only the one inside the Once runs
      the handshake. */
  ghost predicate ClientsInv(s: State)
  {
    (forall c :: 0 <= c < |s.clients| ==>
      (s.clients[c].Waiting? ==> (s.worker.Holding? || s.worker.Answering?) && s.worker.client == c)
      && (Runs(s.clients[c]) ==> s.once == Running(c))
      && (s.clients[c].ClosingFile? ==> s.once.Done?))
    && (s.worker.Holding? ==> At(s, s.worker.client, Waiting(s.worker.call)))
    && (s.worker.Answering? ==> s.worker.client < |s.clients| && s.clients[s.worker.client].Waiting?)
    && (s.once.Running? ==> s.once.client < |s.clients| && Runs(s.clients[s.once.client]))
  }

  /** The handshake is in step, stop is closed once, and the file outlives the worker. */
  ghost predicate StopInv(s: State)
  {
    !s.panicked
    && (s.stopClosed <==> s.once.Done?)
    && (s.once.Fresh? ==> BeforeStop(s.worker))
    && (s.once.Done? ==> s.worker.Exited?)
    && (!s.fileOpen ==> s.once.Done?)
    && (s.once.Running? && s.once.client < |s.clients| ==>
          match s.clients[s.once.client]
          case SendingStop => BeforeStop(s.worker)
          case AwaitingStop => s.worker.StopTaken?
          case _ => s.worker.Exited?)
  }

  ghost predicate HistoryInv(s: State)
  {
    s.chunks == Accepted(s.history)
    && (forall k :: 0 <= k < |s.history| ==> s.history[k].client < |s.clients| && FitsLog(s.history, k))
    && (forall c :: 0 <= c < |s.clients| ==> PhaseOf(s.history, c) == ClientPhase(s, c))
    && s.file == Flatten(Pieces(s.history))
  }

  ghost predicate Inv(s: State)
  {
    ClientsInv(s) && StopInv(s) && HistoryInv(s)
  }

  lemma {:induction false} StartInv(n: nat)
    ensures Inv(Start(n))
  {
  }

  /** The action is a step of a call, as opposed to a step of Close. */
  predicate OfCall(a: Action) { a.Invoke? || a.Receive? || a.Serve? || a.Reply? }

  lemma CallClientsInv(s: State, a: Action)
    requires ClientsInv(s) && StopInv(s) && Enabled(s, a) && OfCall(a)
    ensures ClientsInv(Next(s, a)) && StopInv(Next(s, a))
  {
  }

  lemma CloseClientsInv(s: State, a: Action)
    requires ClientsInv(s) && StopInv(s) && Enabled(s, a) && !OfCall(a)
    ensures ClientsInv(Next(s, a)) && StopInv(Next(s, a))
  {
  }

  lemma NextClientsInv(s: State, a: Action)
    requires Inv(s) && Enabled(s, a)
    ensures ClientsInv(Next(s, a)) && StopInv(Next(s, a))
  {
    if OfCall(a) { CallClientsInv(s, a); } else { CloseClientsInv(s, a); }
    hide Next, ClientsInv, StopInv, HistoryInv;
  }

  // ----- adding one event to a history

  lemma NoteAccepted(history: seq<Event>, e: Event)
    ensures Accepted(history + [e]) == Accepted(history) + if Stored(e) then [e.call.chunk] else []
    ensures Pieces(history + [e])
            == Pieces(history) + if e.Served? && e.call.LogCall? then [Left(e.call.chunk, e.written)] else []
  {
    assert (history + [e])[..|history|] == history;
  }

  lemma NotePhase(history: seq<Event>, e: Event, c: nat)
    ensures PhaseOf(history + [e], c) == PhaseAfter(PhaseOf(history, c), e, c)
  {
    assert (history + [e])[..|history|] == history;
  }

  lemma NoteFits(history: seq<Event>, e: Event, k: nat)
    requires k < |history|
    ensures FitsLog(history + [e], k) <==> FitsLog(history, k)
  {
    assert (history + [e])[..k] == history[..k];
  }

  /** The action puts one event, or none, behind the history. */
  predicate Notes(a: Action) { a.Invoke? || a.Serve? || a.Reply? }

  function NotedBy(s: State, a: Action): (e: Event)
    requires Enabled(s, a) && Notes(a)
    ensures Next(s, a).history == s.history + [e]
  {
    Next(s, a).history[|s.history|]
  }

  /** Memory and file after a request was handled. */
  lemma ServeServes(s: State, written: Option<nat>)
    requires Inv(s) && Enabled(s, Serve(written))
    ensures var r := Next(s, Serve(written));
            r.chunks == Accepted(r.history) && r.file == Flatten(Pieces(r.history))
  {
    hide ClientsInv, StopInv, PhaseOf, FitsLog, Flatten;
    var e := NotedBy(s, Serve(written));
    NoteAccepted(s.history, e);
    hide Accepted, Pieces;
    assert Pieces(s.history) + [] == Pieces(s.history);
    if s.worker.call.LogCall? {
      var piece := Left(s.worker.call.chunk, written);
      FlattenAppend(Pieces(s.history), [piece]);
      FlattenOne(piece);
    }
  }

  lemma NextServes(s: State, a: Action)
    requires Inv(s) && Enabled(s, a)
    ensures var r := Next(s, a);
            r.chunks == Accepted(r.history) && r.file == Flatten(Pieces(r.history))
  {
    hide ClientsInv, StopInv, PhaseOf, FitsLog, Flatten, Accepted, Pieces;
    if a.Serve? {
      ServeServes(s, a.written);
    } else if Notes(a) {
      NoteAccepted(s.history, NotedBy(s, a));
      assert Pieces(s.history) + [] == Pieces(s.history);
    }
  }

  lemma NextSize(s: State, a: Action)
    requires Enabled(s, a)
    ensures |Next(s, a).clients| == |s.clients|
  {
  }

  lemma NewEventFits(s: State, a: Action)
    requires Inv(s) && Enabled(s, a) && Notes(a)
    ensures NotedBy(s, a).client < |s.clients| && FitsLog(s.history + [NotedBy(s, a)], |s.history|)
  {
    hide PhaseOf, Pieces, Accepted, StopInv, Flatten;
    assert (s.history + [NotedBy(s, a)])[..|s.history|] == s.history;
  }

  lemma NextFits(s: State, a: Action)
    requires Inv(s) && Enabled(s, a)
    ensures var r := Next(s, a);
            forall k :: 0 <= k < |r.history| ==> r.history[k].client < |r.clients| && FitsLog(r.history, k)
  {
    NextSize(s, a);
    if Notes(a) {
      var e := NotedBy(s, a);
      NewEventFits(s, a);
      hide PhaseOf, Pieces, Accepted, StopInv, ClientsInv, FitsLog, Next;
      forall k | 0 <= k < |s.history| ensures FitsLog(s.history + [e], k) { NoteFits(s.history, e, k); }
    } else {
      SameHistory(s, a);
      hide PhaseOf, Pieces, Accepted, StopInv, ClientsInv, FitsLog, Next;
    }
  }

  lemma SameHistory(s: State, a: Action)
    requires Enabled(s, a) && !Notes(a)
    ensures Next(s, a).history == s.history
  {
  }

  /** The client an action moves in its call, and the phases before and after. */
  lemma NotedPhase(s: State, a: Action, c: nat)
    requires ClientsInv(s) && Enabled(s, a) && Notes(a) && c < |s.clients|
    ensures c < |Next(s, a).clients|
    ensures ClientPhase(Next(s, a), c) == PhaseAfter(ClientPhase(s, c), NotedBy(s, a), c)
  {
    if a.Serve? { ServedPhase(s, a.written, c); } else { OtherNotedPhase(s, a, c); }
    hide ClientsInv, Next, ClientPhase, PhaseAfter;
  }

  lemma ServedPhase(s: State, written: Option<nat>, c: nat)
    requires ClientsInv(s) && Enabled(s, Serve(written)) && c < |s.clients|
    ensures c < |Next(s, Serve(written)).clients|
    ensures ClientPhase(Next(s, Serve(written)), c) == PhaseAfter(ClientPhase(s, c), NotedBy(s, Serve(written)), c)
  {
    hide Flatten;
  }

  lemma OtherNotedPhase(s: State, a: Action, c: nat)
    requires ClientsInv(s) && Enabled(s, a) && (a.Invoke? || a.Reply?) && c < |s.clients|
    ensures c < |Next(s, a).clients|
    ensures ClientPhase(Next(s, a), c) == PhaseAfter(ClientPhase(s, c), NotedBy(s, a), c)
  {
    hide Handle;
  }

  lemma QuietPhase(s: State, a: Action, c: nat)
    requires ClientsInv(s) && Enabled(s, a) && !Notes(a) && c < |s.clients|
    ensures c < |Next(s, a).clients| && Next(s, a).history == s.history
    ensures ClientPhase(Next(s, a), c) == ClientPhase(s, c)
  {
    SameHistory(s, a);
    if a.Receive? {
    } else {
      QuietClose(s, a, c);
      hide Next, ClientsInv, ClientPhase;
    }
  }

  /** Steps of Close are not steps of a call. */
  lemma QuietClose(s: State, a: Action, c: nat)
    requires ClientsInv(s) && Enabled(s, a) && !OfCall(a) && c < |s.clients|
    ensures c < |Next(s, a).clients| && ClientPhase(Next(s, a), c) == ClientPhase(s, c)
  {
    assert s.clients[c].Waiting? ==> Next(s, a).worker == s.worker;
    assert s.clients[c].Calling? || s.clients[c].Waiting? ==> Next(s, a).clients[c] == s.clients[c];
    assert !s.clients[c].Calling? && !s.clients[c].Waiting? ==>
        !Next(s, a).clients[c].Calling? && !Next(s, a).clients[c].Waiting?;
    hide Next, ClientsInv;
  }

  lemma NextPhase(s: State, a: Action, c: nat)
    requires Inv(s) && Enabled(s, a) && c < |s.clients|
    ensures PhaseOf(Next(s, a).history, c) == ClientPhase(Next(s, a), c)
  {
    hide Next, Accepted, Pieces, FitsLog, StopInv, ClientPhase, PhaseOf, PhaseAfter;
    if Notes(a) {
      NotePhase(s.history, NotedBy(s, a), c);
      NotedPhase(s, a, c);
    } else {
      QuietPhase(s, a, c);
    }
  }

  lemma NextHistoryInv(s: State, a: Action)
    requires Inv(s) && Enabled(s, a)
    ensures HistoryInv(Next(s, a))
  {
    NextServes(s, a);
    NextFits(s, a);
    forall c | 0 <= c < |s.clients| ensures PhaseOf(Next(s, a).history, c) == ClientPhase(Next(s, a), c) {
      NextPhase(s, a, c);
    }
    NextSize(s, a);
    hide Next, ClientPhase, PhaseOf, FitsLog, Accepted, Pieces, Flatten, ClientsInv, StopInv;
  }

  lemma {:induction false} RunInv(s: State, actions: seq<Action>)
    requires Inv(s) && CanRun(s, actions)
    ensures Inv(AfterRun(s, actions))
    decreases |actions|
  {
    if actions != [] {
      NextClientsInv(s, actions[0]);
      NextHistoryInv(s, actions[0]);
      RunInv(Next(s, actions[0]), actions[1..]);
    }
  }
}
