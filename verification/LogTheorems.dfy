/** What every interleaving of the logger guarantees: a linear order of the calls that explains all
    replies, one reply per call, no deadlock before the stop, and a file that outlives its writer. */
module LogTheorems {
  import opened Bytes
  import opened LogActor

  /** A state that any number of clients can reach. */
  ghost predicate Reachable(s: State)
  {
    exists n: nat, actions :: CanRun(Start(n), actions) && AfterRun(Start(n), actions) == s
  }

  lemma ReachableInv(s: State)
    requires Reachable(s)
    ensures Inv(s)
  {
    var n: nat, actions :| CanRun(Start(n), actions) && AfterRun(Start(n), actions) == s;
    StartInv(n);
    RunInv(Start(n), actions);
  }

  // ----- the calls of one client

  /** The event is the service of this call with this answer. */
  predicate ServedWith(e: Event, c: nat, call: Call, answer: Answer)
  {
    e.Served? && e.client == c && e.call == call && e.answer == answer
  }

  lemma {:induction false} CalledSince(h: seq<Event>, c: nat, call: Call) returns (i: nat)
    requires PhaseOf(h, c) == Called(call)
    ensures i < |h| && h[i] == Invoked(c, call)
    ensures forall m :: i < m < |h| ==> h[m].client != c
  {
    if h[|h| - 1].client == c {
      i := |h| - 1;
    } else {
      i := CalledSince(h[..|h| - 1], c, call);
    }
  }

  lemma {:induction false} AnsweredSince(h: seq<Event>, c: nat, call: Call, answer: Answer) returns (i: nat, j: nat)
    requires PhaseOf(h, c) == Answered(call, answer)
    ensures i < j < |h| && h[i] == Invoked(c, call) && ServedWith(h[j], c, call, answer)
    ensures forall m :: i < m < |h| && m != j ==> h[m].client != c
  {
    if h[|h| - 1].client == c {
      i := CalledSince(h[..|h| - 1], c, call);
      j := |h| - 1;
    } else {
      i, j := AnsweredSince(h[..|h| - 1], c, call, answer);
    }
  }

  /** A call that returned was invoked before, served in between with the very reply it returned,
      and its client did nothing else meanwhile. */
  lemma {:induction false} ReturnInterval(h: seq<Event>, c: nat, k: nat) returns (i: nat, j: nat)
    requires k < |h| && h[k].Returned? && h[k].client == c && PhaseOf(h, c) != Broken
    ensures i < j < k && h[i] == Invoked(c, h[k].call) && ServedWith(h[j], c, h[k].call, h[k].answer)
    ensures forall m :: i < m < k && m != j ==> h[m].client != c
    decreases |h|
  {
    var before := h[..|h| - 1];
    if k == |h| - 1 {
      i, j := AnsweredSince(before, c, h[k].call, h[k].answer);
    } else {
      i, j := ReturnInterval(before, c, k);
    }
  }

  ghost predicate SoundHistory(h: seq<Event>)
  {
    (forall k :: 0 <= k < |h| ==> FitsLog(h, k) && PhaseOf(h, h[k].client) != Broken)
  }

  /** Between two replies to a client lies another call of that client: no call is answered twice. */
  lemma OneReplyPerCall(h: seq<Event>, c: nat, k: nat, l: nat) returns (i: nat)
    requires SoundHistory(h) && k < l < |h|
    requires h[k].Returned? && h[k].client == c && h[l].Returned? && h[l].client == c
    ensures k < i < l && h[i] == Invoked(c, h[l].call)
  {
    var j;
    i, j := ReturnInterval(h, c, l);
    assert h[l].client == c;
  }

  // ----- linearizability

  lemma {:induction false} AcceptedSplit(h: seq<Event>, j: nat, m: nat) returns (later: seq<Text>)
    requires j < m <= |h| && Stored(h[j])
    ensures Accepted(h[..m]) == Accepted(h[..j]) + [h[j].call.chunk] + later
    decreases m
  {
    assert h[..m][..m - 1] == h[..m - 1];
    if m == j + 1 {
      later := [];
    } else {
      var before := AcceptedSplit(h, j, m - 1);
      later := before + Accepted(h[..m])[|Accepted(h[..m - 1])|..];
    }
  }

  /** A call that returned before another was invoked is served before it. */
  lemma ServedInRealTimeOrder(h: seq<Event>, p: nat, q: nat, r: nat) returns (j: nat, k: nat)
    requires SoundHistory(h) && p < q < r < |h|
    requires h[p].Returned? && h[q].Invoked? && h[r].Returned? && h[q].client == h[r].client
    requires forall m :: q < m < r ==> !(h[m].Invoked? && h[m].client == h[r].client)
    ensures j < p < q < k < r
    ensures ServedWith(h[j], h[p].client, h[p].call, h[p].answer)
    ensures ServedWith(h[k], h[r].client, h[r].call, h[r].answer)
  {
    var i, i';
    i, j := ReturnInterval(h, h[p].client, p);
    i', k := ReturnInterval(h, h[r].client, r);
    assert i' == q;
  }

  /** The reply to a GetLog is the concatenation, in service order, of the chunks accepted up to the
      moment it was served, which lies inside the call. */
  lemma GetLogReply(h: seq<Event>, r: nat) returns (i: nat, k: nat)
    requires SoundHistory(h) && r < |h| && h[r].Returned? && h[r].call.GetCall?
    ensures i < k < r && h[i] == Invoked(h[r].client, GetCall) && h[k].Served? && h[k].client == h[r].client
    ensures h[r].answer == Contents(Flatten(Accepted(h[..k])))
  {
    i, k := ReturnInterval(h, h[r].client, r);
    assert FitsLog(h, k);
  }

  /** A Log returns nil if and only if its write, which lies inside the call, stored the whole chunk. */
  lemma LogReply(h: seq<Event>, r: nat) returns (i: nat, k: nat)
    requires SoundHistory(h) && r < |h| && h[r].Returned? && h[r].call.LogCall?
    ensures i < k < r && h[i] == Invoked(h[r].client, h[r].call)
    ensures h[k].Served? && h[k].client == h[r].client && h[k].call == h[r].call
    ensures h[r].answer == if h[k].written.None? then Written else WriteFailed
  {
    i, k := ReturnInterval(h, h[r].client, r);
    assert FitsLog(h, k);
  }

  /** Every chunk whose Log returned without error before the GetLog began is in the reply. */
  lemma GetLogSeesEarlierLogs(h: seq<Event>, p: nat, q: nat, r: nat) returns (earlier: seq<Text>, later: seq<Text>)
    requires SoundHistory(h) && p < q < r < |h|
    requires h[p].Returned? && h[p].call.LogCall? && h[p].answer.Written?
    requires h[q] == Invoked(h[r].client, GetCall) && h[r].Returned? && h[r].call.GetCall?
    requires forall m :: q < m < r ==> !(h[m].Invoked? && h[m].client == h[r].client)
    ensures h[r].answer == Contents(Flatten(earlier + [h[p].call.chunk] + later))
  {
    var j, k := ServedInRealTimeOrder(h, p, q, r);
    assert FitsLog(h, k);
    earlier := Accepted(h[..j]);
    later := AcceptedSplit(h, j, k);
  }

  lemma {:induction false} NothingLost(h: seq<Event>)
    requires !AnyFailure(h)
    ensures Pieces(h) == Accepted(h)
  {
    if |h| > 0 {
      var before, e := h[..|h| - 1], h[|h| - 1];
      assert forall k :: 0 <= k < |before| ==> before[k] == h[k];
      NothingLost(before);
    }
  }

  /** In every reachable state the history is sound, the copy in memory holds the chunks whose write
      succeeded, and the file holds what every write left of its chunk: the same bytes as long as no
      write failed. */
  lemma ReachableHistories(s: State)
    requires Reachable(s)
    ensures SoundHistory(s.history)
    ensures s.chunks == Accepted(s.history)
    ensures s.file == Flatten(Pieces(s.history))
    ensures !AnyFailure(s.history) ==> s.file == Flatten(Accepted(s.history))
  {
    ReachableInv(s);
    if !AnyFailure(s.history) { NothingLost(s.history); }
    forall k | 0 <= k < |s.history| ensures FitsLog(s.history, k) && PhaseOf(s.history, s.history[k].client) != Broken {
      assert PhaseOf(s.history, s.history[k].client) == ClientPhase(s, s.history[k].client);
    }
  }

  // ----- the stop handshake

  /** The stop channel is never closed twice, and while the worker can still write the file is open,
      so a write never meets a closed file. */
  lemma FileOutlivesWorker(s: State)
    requires Reachable(s)
    ensures !s.panicked
    ensures !s.worker.Exited? ==> s.fileOpen && !s.stopClosed
    ensures s.worker.Holding? && s.worker.call.LogCall? ==> Enabled(s, Serve(None))
  {
    ReachableInv(s);
  }

  /** Actions that finish what is under way, as opposed to a client starting something new. */
  predicate Internal(a: Action) { !a.Invoke? && !a.BeginClose? }

  ghost predicate CanMove(s: State)
  {
    exists a :: Internal(a) && Enabled(s, a)
  }

  /** The only reachable states in which nobody under way can go on: all clients that are not idle
      are calling a worker that has gone. */
  ghost predicate Abandoned(s: State)
  {
    s.worker.Exited? && forall c :: 0 <= c < |s.clients| ==> s.clients[c].Idle? || s.clients[c].Calling?
  }

  lemma MoveOfClient(s: State, c: nat)
    requires Inv(s) && c < |s.clients| && !s.clients[c].Idle?
    ensures CanMove(s) || (s.worker.Exited? && s.clients[c].Calling?)
  {
    hide HistoryInv;
    if s.worker.Holding? {
      assert Enabled(s, Serve(Some(0)));
    } else if s.worker.Answering? {
      assert Enabled(s, Reply);
    } else if s.once.Running? {
      var d := s.once.client;
      match s.clients[d]
      case SendingStop => assert Enabled(s, TakeStop(d));
      case AwaitingStop => assert Enabled(s, ConfirmStop(d));
      case ClosingStop => assert Enabled(s, CloseStop(d));
    } else {
      match s.clients[c]
      case Calling(_) => if s.worker.Selecting? { assert Enabled(s, Receive(c)); }
      case AtOnce => assert Enabled(s, EnterOnce(c));
      case ClosingFile => assert Enabled(s, CloseFile(c));
    }
  }

  /** Deadlock happens exactly in abandoned states; in particular never before the stop is taken. */
  lemma DeadlockExactly(s: State)
    requires Reachable(s)
    requires exists c :: 0 <= c < |s.clients| && !s.clients[c].Idle?
    ensures !CanMove(s) <==> Abandoned(s)
    ensures BeforeStop(s.worker) ==> CanMove(s)
  {
    ReachableInv(s);
    if !CanMove(s) {
      forall c | 0 <= c < |s.clients| ensures s.clients[c].Idle? || s.clients[c].Calling? {
        if !s.clients[c].Idle? { MoveOfClient(s, c); }
      }
      var c :| 0 <= c < |s.clients| && !s.clients[c].Idle?;
      MoveOfClient(s, c);
    }
    if Abandoned(s) {
      forall a | Internal(a) ensures !Enabled(s, a) {}
    }
  }

  lemma RunCons(s: State, a: Action, rest: seq<Action>)
    requires Enabled(s, a) && CanRun(Next(s, a), rest)
    ensures CanRun(s, [a] + rest) && AfterRun(s, [a] + rest) == AfterRun(Next(s, a), rest)
  {
    assert ([a] + rest)[1..] == rest;
  }

  /** The states of a run in which client 0 calls GetLog, client 1 closes the logger, and the worker
      takes the stop first. */
  function Abandoning(k: nat): (s: State)
    requires k <= 7
  {
    var history := [Invoked(0, GetCall)];
    var call := Calling(GetCall);
    match k
    case 0 => Start(2)
    case 1 => State([call, Idle], Selecting, [], [], true, Fresh, false, false, history)
    case 2 => State([call, AtOnce], Selecting, [], [], true, Fresh, false, false, history)
    case 3 => State([call, SendingStop], Selecting, [], [], true, Running(1), false, false, history)
    case 4 => State([call, AwaitingStop], StopTaken, [], [], true, Running(1), false, false, history)
    case 5 => State([call, ClosingStop], Exited, [], [], true, Running(1), false, false, history)
    case 6 => State([call, ClosingFile], Exited, [], [], true, Done, true, false, history)
    case _ => State([call, Idle], Exited, [], [], false, Done, true, false, history)
  }

  const ABANDONING: seq<Action> :=
    [Invoke(0, GetCall), BeginClose(1), EnterOnce(1), TakeStop(1), ConfirmStop(1), CloseStop(1), CloseFile(1)]

  lemma AbandoningStep(k: nat)
    requires k < 7
    ensures Enabled(Abandoning(k), ABANDONING[k]) && Next(Abandoning(k), ABANDONING[k]) == Abandoning(k + 1)
  {
    var r := Next(Abandoning(k), ABANDONING[k]);
    assert r.clients == Abandoning(k + 1).clients;
    assert r.history == Abandoning(k + 1).history;
  }

  lemma {:induction false} AbandoningRun(k: nat)
    requires k <= 7
    ensures CanRun(Abandoning(k), ABANDONING[k..]) && AfterRun(Abandoning(k), ABANDONING[k..]) == Abandoning(7)
    decreases 7 - k
  {
    if k < 7 {
      AbandoningStep(k);
      hide Abandoning, Next, Enabled;
      AbandoningRun(k + 1);
      assert ABANDONING[k..] == [ABANDONING[k]] + ABANDONING[k + 1..];
      RunCons(Abandoning(k), ABANDONING[k], ABANDONING[k + 1..]);
    }
  }

  lemma AbandoningReachable()
    ensures Reachable(Abandoning(7))
  {
    AbandoningRun(0);
    assert ABANDONING[0..] == ABANDONING;
    assert Abandoning(0) == Start(2);
    hide CanRun, AfterRun, Abandoning, Start;
  }

  /** From then on client 0 is stuck. */
  lemma AbandonedReachable()
    ensures Reachable(Abandoning(7)) && Abandoned(Abandoning(7)) && !CanMove(Abandoning(7))
    ensures Abandoning(7).clients[0] == Calling(GetCall)
  {
    hide Reachable, CanMove;
    AbandoningReachable();
    assert !Abandoning(7).clients[0].Idle?;
    DeadlockExactly(Abandoning(7));
  }

  /** A request the worker has accepted is answered within two steps of the worker, whatever the
      write does. */
  lemma AcceptedIsAnswered(s: State, c: nat, written: Option<nat>) returns (actions: seq<Action>)
    requires Reachable(s) && c < |s.clients| && s.clients[c].Waiting?
    requires s.worker.Holding? ==> Enabled(s, Serve(written))
    ensures |actions| <= 2 && CanRun(s, actions)
    ensures AfterRun(s, actions).clients == s.clients[c := Idle] && AfterRun(s, actions).worker.Selecting?
  {
    ReachableInv(s);
    if s.worker.Holding? {
      var t := Next(s, Serve(written));
      assert Enabled(t, Reply);
      actions := [Serve(written), Reply];
      assert actions[1..] == [Reply] && [Reply][1..] == [];
      assert CanRun(Next(t, Reply), []);
      assert CanRun(t, [Reply]) && AfterRun(t, [Reply]) == Next(t, Reply);
    } else {
      assert Enabled(s, Reply);
      actions := [Reply];
      assert actions[1..] == [];
      assert CanRun(Next(s, Reply), []);
    }
  }

  lemma StaysCalling(s: State, c: nat, a: Action)
    requires ClientsInv(s) && StopInv(s) && (s.worker.StopTaken? || s.worker.Exited?)
    requires c < |s.clients| && s.clients[c].Calling? && Enabled(s, a)
    ensures var t := Next(s, a);
            (t.worker.StopTaken? || t.worker.Exited?) && c < |t.clients| && t.clients[c] == s.clients[c]
  {
  }

  /** A request still on its channel when the stop is taken is never answered. */
  lemma {:induction false} LeftBehind(s: State, c: nat, actions: seq<Action>)
    requires Inv(s) && (s.worker.StopTaken? || s.worker.Exited?)
    requires c < |s.clients| && s.clients[c].Calling? && CanRun(s, actions)
    ensures c < |AfterRun(s, actions).clients| && AfterRun(s, actions).clients[c] == s.clients[c]
    decreases |actions|
  {
    if actions != [] {
      var t := Next(s, actions[0]);
      NextClientsInv(s, actions[0]);
      NextHistoryInv(s, actions[0]);
      StaysCalling(s, c, actions[0]);
      hide Next, ClientsInv, StopInv, HistoryInv;
      LeftBehind(t, c, actions[1..]);
    }
  }
}
