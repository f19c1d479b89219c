/** What whole calls of CBonTuner come to, and that the steps of TunerSystem add up to it. */
module TunerCalls {
  import opened Bytes
  import opened Options
  import opened Connection
  import opened RingState
  import opened RingSystem
  import opened TunerSystem
  import opened TunerRuns
  import Http = HttpHeader

  /** The fields that a call changes. */
  datatype Fields = Fields(ring: Ring, conn: Conn, created: bool, valid: bool, cur: Channel)

  function FieldsOf(d: Driver): Fields {
    Fields(d.sys.ring, d.conn, d.created, d.valid, d.cur)
  }

  function Closed(f: Fields): Fields {
    f.(conn := CLOSED, created := false, valid := false, cur := NoChannel)
  }

  /** OpenTuner, whose requests leave the connection closed. */
  function Opened(f: Fields, ok: bool): Fields {
    Closed(f).(created := ok)
  }

  /** SetChannel from a refused answer, or from a thread that does not start. */
  function Hung(f: Fields): Fields {
    f.(conn := CLOSED, valid := false, cur := NoChannel)
  }

  /** SetChannel from an accepted answer on. */
  function Started(f: Fields, ch: Channel, ok: bool): Fields {
    var p := f.(ring := Purged(f.ring));
    if ok then p.(valid := true, cur := ch) else Hung(p)
  }

  /** SetChannel past its checks, with the connection of an accepted answer, if there is one. */
  function Retuned(f: Fields, stream: Option<Conn>, ch: Channel, ok: bool): Fields {
    if stream.None? then Hung(f) else Started(f.(conn := stream.value, valid := false), ch, ok)
  }

  /** The connection that an accepted answer leaves for the receive thread. */
  function StreamOf(answer: Step): Option<Conn>
    requires answer.Respond?
  {
    if !Accepted(answer) then None
    else
      var r := Http.Receive([], answer.chunks, answer.reset);
      Some(Conn(true, r.rest, r.unread))
  }

  // ----- the steps of a call -----

  function StopRun(d: Driver, queued: nat): seq<Step> {
    if d.valid then [ShutSocket(queued)] + ([AskShutdown] + ([Join] + [ClearShutdown])) else []
  }

  function CloseRun(d: Driver, queued: nat): seq<Step> {
    [Close] + (StopRun(d, queued) + [FinishClose])
  }

  function OpenRun(d: Driver, queued: nat, ok: bool): seq<Step> {
    [Open] + (StopRun(d, queued) + ([FinishClose] + [FinishOpen(ok)]))
  }

  function TuneRun(d: Driver, queued: nat, ch: Channel, answer: Step, ok: bool): seq<Step> {
    [Tune(ch)] + (StopRun(d, queued) + ([answer] + StartRun(answer, ok)))
  }

  function StartRun(answer: Step, ok: bool): seq<Step> {
    if Accepted(answer) then [Publish] + ([PurgeOld] + [Spawn(ok)]) else []
  }

  /** Any receive thread has left its loop, and no shutdown request stands. */
  predicate AtRest(d: Driver) {
    && WellFormed(d.sys) && d.sys.producer.NotPutting? && !d.sys.ring.shutdown
    && (d.valid ==> d.thread.Exited?)
  }

  /** Between calls every reachable state whose thread has left its loop is at rest. */
  lemma RestsBetweenCalls(d: Driver)
    requires DriverInv(d) && d.control.Idle? && (d.thread.NoThread? || d.thread.Exited?)
    ensures AtRest(d)
  {
  }

  lemma RunOne(d: Driver, st: Step)
    requires WellFormed(d.sys) && CanStep(d, st)
    ensures Behaves(d, [st]) && After(d, [st]) == Next(d, st)
  {
    assert [st][1..] == [];
    assert Behaves(Next(d, st), []);
  }

  lemma RunCons(d: Driver, st: Step, sts: seq<Step>)
    requires WellFormed(d.sys) && CanStep(d, st) && Behaves(Next(d, st), sts)
    ensures Behaves(d, [st] + sts) && After(d, [st] + sts) == After(Next(d, st), sts)
  {
    assert ([st] + sts)[1..] == sts;
  }

  lemma ConcatStep(d: Driver, a: seq<Step>, b: seq<Step>)
    requires a != [] && WellFormed(d.sys) && CanStep(d, a[0]) && Behaves(Next(d, a[0]), a[1..] + b)
    ensures Behaves(d, a + b) && After(d, a + b) == After(Next(d, a[0]), a[1..] + b)
  {
    var st, rest := a[0], a[1..] + b;
    assert a + b == [st] + rest;
    RunCons(d, st, rest);
  }

  lemma {:induction false} RunConcat(d: Driver, a: seq<Step>, b: seq<Step>)
    requires Behaves(d, a) && Behaves(After(d, a), b)
    ensures Behaves(d, a + b) && After(d, a + b) == After(After(d, a), b)
    decreases |a|
  {
    if a == [] {
      assert a + b == b;
    } else {
      RunConcat(Next(d, a[0]), a[1..], b);
      ConcatStep(d, a, b);
    }
  }

  /** waitForRecvThreadFinish: the thread is gone, the socket shut, and everything else as it was. */
  function Stopped(d: Driver, queued: nat): Driver {
    if d.valid then
      d.(conn := d.conn.(wire := d.conn.wire[..Min(queued, |d.conn.wire|)]), thread := NoThread, valid := false)
    else d
  }

  lemma StopSteps(d: Driver, goal: Goal, queued: nat)
    requires AtRest(d) && d.valid && d.control == Shutting(goal)
    ensures Behaves(d, StopRun(d, queued))
    ensures After(d, StopRun(d, queued)) == Proceed(Stopped(d, queued), goal)
  {
    var d1 := Next(d, ShutSocket(queued));
    var d2 := Next(d1, AskShutdown);
    var d3 := Next(d2, Join);
    RunOne(d3, ClearShutdown);
    RunCons(d2, Join, [ClearShutdown]);
    RunCons(d1, AskShutdown, [Join] + [ClearShutdown]);
    RunCons(d, ShutSocket(queued), [AskShutdown] + ([Join] + [ClearShutdown]));
    ClearIsProceed(d, d3, goal, queued);
  }

  lemma ClearIsProceed(d: Driver, d3: Driver, goal: Goal, queued: nat)
    requires AtRest(d) && d.valid && WellFormed(d3.sys) && d3.control == Clearing(goal)
    requires d3 == Stopped(d, queued).(sys := Apply(d.sys, RequestShutdown), control := Clearing(goal))
    ensures CanStep(d3, ClearShutdown) && Next(d3, ClearShutdown) == Proceed(Stopped(d, queued), goal)
  {
  }

  /** From a call's first step to the end of waitForRecvThreadFinish. */
  lemma StopFrom(d: Driver, goal: Goal, queued: nat)
    requires AtRest(d)
    ensures Behaves(StopThen(d, goal), StopRun(d, queued))
    ensures After(StopThen(d, goal), StopRun(d, queued)) == Proceed(Stopped(d, queued), goal)
  {
    if d.valid {
      StopSteps(d.(control := Shutting(goal)), goal, queued);
    }
  }

  // ----- the steps make the call -----

  lemma CloseSteps(d: Driver, queued: nat)
    requires AtRest(d) && d.control.Idle?
    ensures Behaves(d, CloseRun(d, queued))
    ensures var t := After(d, CloseRun(d, queued));
            t.control.Idle? && FieldsOf(t) == Closed(FieldsOf(d))
  {
    var d0 := d.(cur := NoChannel);
    var d1 := Proceed(Stopped(d0, queued), ToClose);
    StopFrom(d0, ToClose, queued);
    RunOne(d1, FinishClose);
    RunConcat(StopThen(d0, ToClose), StopRun(d, queued), [FinishClose]);
    RunCons(d, Close, StopRun(d, queued) + [FinishClose]);
  }

  lemma OpenSteps(d: Driver, queued: nat, ok: bool)
    requires AtRest(d) && d.control.Idle?
    ensures Behaves(d, OpenRun(d, queued, ok))
    ensures var t := After(d, OpenRun(d, queued, ok));
            t.control.Idle? && FieldsOf(t) == Opened(FieldsOf(d), ok)
  {
    var d0 := d.(cur := NoChannel);
    var d1 := Proceed(Stopped(d0, queued), ToOpen);
    StopFrom(d0, ToOpen, queued);
    RunOne(Next(d1, FinishClose), FinishOpen(ok));
    RunCons(d1, FinishClose, [FinishOpen(ok)]);
    RunConcat(StopThen(d0, ToOpen), StopRun(d, queued), [FinishClose] + [FinishOpen(ok)]);
    RunCons(d, Open, StopRun(d, queued) + ([FinishClose] + [FinishOpen(ok)]));
  }

  /** From the server's answer on. */
  lemma AnswerSteps(d: Driver, ch: Channel, answer: Step, ok: bool)
    requires AtRest(d) && d.control == Requesting(ch) && !d.valid && answer.Respond? && CanStep(d, answer)
    ensures Behaves(d, [answer] + StartRun(answer, ok))
    ensures var t := After(d, [answer] + StartRun(answer, ok));
            t.control.Idle? && FieldsOf(t) == Retuned(FieldsOf(d), StreamOf(answer), ch, ok)
  {
    var d1 := Next(d, answer);
    if Accepted(answer) {
      var d2 := Next(d1, Publish);
      var d3 := Next(d2, PurgeOld);
      RunOne(d3, Spawn(ok));
      RunCons(d2, PurgeOld, [Spawn(ok)]);
      RunCons(d1, Publish, [PurgeOld] + [Spawn(ok)]);
    }
    RunCons(d, answer, StartRun(answer, ok));
  }

  lemma TuneSteps(d: Driver, queued: nat, ch: Channel, answer: Step, ok: bool)
    requires AtRest(d) && d.control.Idle? && d.created && ch.Tuned?
    requires answer.Respond? && Http.Delivers(answer.chunks, answer.stream)
    ensures Behaves(d, TuneRun(d, queued, ch, answer, ok))
    ensures var t := After(d, TuneRun(d, queued, ch, answer, ok));
            t.control.Idle? && FieldsOf(t) == Retuned(FieldsOf(d), StreamOf(answer), ch, ok)
  {
    var d1 := Proceed(Stopped(d, queued), ToTune(ch));
    StopFrom(d, ToTune(ch), queued);
    AnswerSteps(d1, ch, answer, ok);
    RunConcat(StopThen(d, ToTune(ch)), StopRun(d, queued), [answer] + StartRun(answer, ok));
    RunCons(d, Tune(ch), StopRun(d, queued) + ([answer] + StartRun(answer, ok)));
  }
}
