/** The worker loop of the logger: it owns the queue, writes the file, and answers each request the
    way the protocol's worker does. */
module LogWorker {
  import opened Bytes
  import opened LogQueue
  import opened LogActor

  class File {
    var contents: Text

    constructor ()
      ensures contents == []
    {
      contents := [];
    }

    /** A write that stores everything, or fails after `written` bytes. */
    method Write(b: array<Byte>, written: Option<nat>) returns (ok: bool)
      requires written.Some? ==> written.value <= b.Length
      modifies this
      ensures ok <==> written.None?
      ensures contents == old(contents) + if ok then b[..] else b[..written.value]
    {
      ok := written.None?;
      contents := contents + if ok then b[..] else b[..written.value];
    }
  }

  /** What the select loop takes off its channels; the outcome of a write is part of the input. */
  datatype Message = Input(d: array<Byte>, written: Option<nat>) | Out | Stop

  function CallOf(m: Message): (call: Call)
    requires !m.Stop?
    reads if m.Input? then {m.d} else {}
  {
    match m case Input(d, _) => LogCall(d[..]) case Out => GetCall
  }

  predicate Possible(m: Message)
  {
    m.Input? && m.written.Some? ==> m.written.value <= m.d.Length
  }

  /** The protocol's worker with one request in hand. */
  function Desk(chunks: seq<Text>, file: Text, call: Call): (s: State)
  {
    State([Waiting(call)], Holding(0, call), chunks, file, true, Fresh, false, false, [])
  }

  method Answer(q: Queue, f: File, m: Message) returns (answer: LogActor.Answer)
    requires q.Valid() && f !in q.repr && !m.Stop? && Possible(m)
    requires m.Input? ==> m.d !in q.repr
    modifies q.repr, f
    ensures q.Valid() && fresh(q.repr - old(q.repr)) && f !in q.repr
    ensures var s := Desk(old(q.contents), old(f.contents), old(CallOf(m)));
            var written := if m.Input? then m.written else None;
            Enabled(s, Serve(written))
            && Handle(s, written) == s.(chunks := q.contents, file := f.contents, worker := Answering(0, answer))
  {
    match m
    case Input(d, written) =>
      var ok := f.Write(d, written);
      if !ok {
        return WriteFailed;
      }
      q.Push(d);
      return Written;
    case Out =>
      var b := q.GetAll();
      return LogActor.Contents(b[..]);
  }

  /** Serving the messages before the first stop, one after the other. */
  datatype Outcome = Outcome(chunks: seq<Text>, file: Text, answers: seq<LogActor.Answer>)

  datatype Job = Job(call: Call, written: Option<nat>)

  predicate Doable(jobs: seq<Job>)
  {
    forall k :: 0 <= k < |jobs| ==> Enabled(Desk([], [], jobs[k].call), Serve(jobs[k].written))
  }

  function ServeAll(chunks: seq<Text>, file: Text, jobs: seq<Job>): (r: Outcome)
    requires Doable(jobs)
  {
    if |jobs| == 0 then Outcome(chunks, file, [])
    else
      var before := ServeAll(chunks, file, jobs[..|jobs| - 1]);
      var last := jobs[|jobs| - 1];
      assert Enabled(Desk([], [], last.call), Serve(last.written));
      var s := Handle(Desk(before.chunks, before.file, last.call), last.written);
      Outcome(s.chunks, s.file, before.answers + [s.worker.answer])
  }

  /** One more job. */
  lemma ServeMore(chunks: seq<Text>, file: Text, jobs: seq<Job>, job: Job, answer: LogActor.Answer, done: State)
    requires Doable(jobs) && Enabled(Desk([], [], job.call), Serve(job.written))
    requires var before := ServeAll(chunks, file, jobs);
             var s := Desk(before.chunks, before.file, job.call);
             Enabled(s, Serve(job.written)) && Handle(s, job.written) == done && done.worker == Answering(0, answer)
    ensures Doable(jobs + [job])
    ensures ServeAll(chunks, file, jobs + [job])
            == Outcome(done.chunks, done.file, ServeAll(chunks, file, jobs).answers + [answer])
  {
    assert (jobs + [job])[..|jobs|] == jobs;
  }

  /** The chunks among these jobs whose write succeeded. */
  function Kept(jobs: seq<Job>): (chunks: seq<Text>)
  {
    if |jobs| == 0 then []
    else
      var last := jobs[|jobs| - 1];
      Kept(jobs[..|jobs| - 1]) + if last.call.LogCall? && last.written.None? then [last.call.chunk] else []
  }

  /** What the writes of these jobs leave in the file. */
  function Remains(jobs: seq<Job>): (pieces: seq<Text>)
  {
    if |jobs| == 0 then []
    else
      var last := jobs[|jobs| - 1];
      Remains(jobs[..|jobs| - 1]) + if last.call.LogCall? then [Left(last.call.chunk, last.written)] else []
  }

  /** A Log is told whether its write succeeded; a GetLog gets the chunks whose write succeeded before. */
  predicate Answered(jobs: seq<Job>, k: nat, answer: LogActor.Answer)
    requires k < |jobs|
  {
    match jobs[k].call
    case LogCall(_) => answer == if jobs[k].written.None? then Written else WriteFailed
    case GetCall => answer == LogActor.Contents(Flatten(Kept(jobs[..k])))
  }

  lemma RemainsMore(jobs: seq<Job>)
    requires jobs != []
    ensures var last := jobs[|jobs| - 1];
            Flatten(Remains(jobs))
            == Flatten(Remains(jobs[..|jobs| - 1])) + if last.call.LogCall? then Left(last.call.chunk, last.written) else []
  {
    var before, last := Remains(jobs[..|jobs| - 1]), jobs[|jobs| - 1];
    if last.call.LogCall? {
      FlattenAppend(before, [Left(last.call.chunk, last.written)]);
      FlattenOne(Left(last.call.chunk, last.written));
    } else {
      assert before + [] == before;
    }
  }

  /** What the last job adds. */
  lemma ServeLast(file: Text, jobs: seq<Job>)
    requires Doable(jobs) && jobs != []
    ensures Doable(jobs[..|jobs| - 1])
    ensures var before, r, last := ServeAll([], file, jobs[..|jobs| - 1]), ServeAll([], file, jobs), jobs[|jobs| - 1];
            r.answers == before.answers + [match last.call
                                           case LogCall(_) => if last.written.None? then Written else WriteFailed
                                           case GetCall => LogActor.Contents(Flatten(before.chunks))]
            && r.chunks == before.chunks + (if last.call.LogCall? && last.written.None? then [last.call.chunk] else [])
            && r.file == before.file + if last.call.LogCall? then Left(last.call.chunk, last.written) else []
  {
    hide Flatten;
  }

  lemma {:induction false} ServeAllMeaning(file: Text, jobs: seq<Job>)
    requires Doable(jobs)
    ensures var r := ServeAll([], file, jobs);
            |r.answers| == |jobs| && r.chunks == Kept(jobs) && r.file == file + Flatten(Remains(jobs))
            && forall k :: 0 <= k < |jobs| ==> Answered(jobs, k, r.answers[k])
  {
    if |jobs| > 0 {
      var before := jobs[..|jobs| - 1];
      ServeLast(file, jobs);
      ServeAllMeaning(file, before);
      RemainsMore(jobs);
      hide ServeAll, Doable, Flatten, Remains, Left;
      forall k | 0 <= k < |before| ensures jobs[..k] == before[..k] {}
    }
  }

  function JobOf(m: Message): (job: Job)
    requires !m.Stop?
    reads if m.Input? then {m.d} else {}
  {
    Job(CallOf(m), if m.Input? then m.written else None)
  }

  lemma ServeNone(file: Text)
    ensures Doable([]) && ServeAll([], file, []) == Outcome([], file, [])
  {
  }

  /** The worker, for any input up to and including a stop: its replies are those of the protocol's
      worker, so each Log is told whether its write succeeded and each GetLog gets the chunks stored
      before it; it reports whether it was stopped, and it takes nothing after the stop. */
  method Work(f: File, inbox: seq<Message>) returns (answers: seq<LogActor.Answer>, stopped: bool, ghost jobs: seq<Job>)
    requires forall m :: m in inbox ==> Possible(m)
    modifies f
    ensures |jobs| <= |inbox| && stopped == (|jobs| < |inbox|)
    ensures stopped ==> inbox[|jobs|].Stop?
    ensures forall k :: 0 <= k < |jobs| ==> !inbox[k].Stop? && jobs[k] == JobOf(inbox[k])
    ensures Doable(jobs) && ServeAll([], old(f.contents), jobs).answers == answers
    ensures |answers| == |jobs| && f.contents == old(f.contents) + Flatten(Remains(jobs))
    ensures forall k :: 0 <= k < |answers| && inbox[k].Input? ==>
              answers[k] == if inbox[k].written.None? then Written else WriteFailed
    ensures forall k :: 0 <= k < |answers| && inbox[k].Out? ==>
              answers[k] == LogActor.Contents(Flatten(Kept(jobs[..k])))
  {
    hide Handle, Doable, ServeAll, Kept, Remains, Flatten;
    var q := new Queue();
    assert Doable([]) && ServeAll([], f.contents, []) == Outcome([], f.contents, []) by { ServeNone(f.contents); }
    answers, stopped := [], false;
    jobs := [];
    for i := 0 to |inbox|
      invariant q.Valid() && fresh(q.repr) && f !in q.repr
      invariant |jobs| == i && Doable(jobs)
      invariant forall k :: 0 <= k < i ==> !inbox[k].Stop? && jobs[k] == JobOf(inbox[k])
      invariant ServeAll([], old(f.contents), jobs) == Outcome(q.contents, f.contents, answers)
    {
      if inbox[i].Stop? {
        ServeAllMeaning(old(f.contents), jobs);
        return answers, true, jobs;
      }
      ghost var job := JobOf(inbox[i]);
      ghost var start := Desk(q.contents, f.contents, job.call);
      var answer := Answer(q, f, inbox[i]);
      ServeMore([], old(f.contents), jobs, job, answer,
                start.(chunks := q.contents, file := f.contents, worker := Answering(0, answer)));
      answers := answers + [answer];
      jobs := jobs + [job];
    }
    ServeAllMeaning(old(f.contents), jobs);
  }
}
