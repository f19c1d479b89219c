/** Theorems about whole runs of the data path. */
module TunerRuns {
  import opened Bytes
  import opened RingState
  import opened RingSystem
  import opened RingRuns
  import opened TunerSystem
  import Http = HttpHeader
  import HttpChunking

  predicate Behaves(d: Driver, sts: seq<Step>)
    decreases |sts|
  {
    sts == [] || (WellFormed(d.sys) && CanStep(d, sts[0]) && Behaves(Next(d, sts[0]), sts[1..]))
  }

  function After(d: Driver, sts: seq<Step>): Driver
    requires Behaves(d, sts)
    decreases |sts|
  {
    if sts == [] then d else After(Next(d, sts[0]), sts[1..])
  }

  lemma {:induction false} RunKeeps(d: Driver, sts: seq<Step>)
    requires DriverInv(d) && Behaves(d, sts)
    ensures DriverInv(After(d, sts))
    decreases |sts|
  {
    if sts != [] {
      StepKeeps(d, sts[0]);
      RunKeeps(Next(d, sts[0]), sts[1..]);
    }
  }

  lemma InitHolds(d: Driver)
    requires DriverInit(d)
    ensures DriverInv(d)
  {
    InitBalances(d.sys);
  }

  /**
   The life cycle over every run of Open, Close and SetChannel, whatever fails on
   the way. Between operations a receive thread is held exactly when a channel is
   current, and then there is a connection and no standing shutdown request. The
   socket stays open as long as a receive thread exists, and a shutdown request is
   withdrawn only when there is none.
   */
  lemma Lifecycle(d: Driver, sts: seq<Step>)
    requires DriverInit(d) && Behaves(d, sts)
    ensures var t := After(d, sts);
            && (t.control.Idle? ==> (t.valid <==> t.cur.Tuned?) && (t.valid ==> t.created && !t.sys.ring.shutdown))
            && (!t.thread.NoThread? ==> t.valid && t.conn.open)
            && (WellFormed(t.sys) && CanStep(t, ClearShutdown) ==> t.thread.NoThread?)
  {
    InitHolds(d);
    RunKeeps(d, sts);
  }

  /**
   What the host gets is always a stretch of one response body: the bytes delivered
   since the last purge continue the body where that purge cut it, without a gap.
   */
  lemma DeliveredIsStretchOfBody(d: Driver, sts: seq<Step>)
    requires DriverInit(d) && Behaves(d, sts)
    ensures var t := After(d, sts);
            && t.before + t.log.got <= t.body
            && Wf(t.sys.ring) && t.before + (t.log.got + Queue(t.sys.ring)) <= t.body
  {
    InitHolds(d);
    RunKeeps(d, sts);
    var t := After(d, sts);
    assert t.before + t.log.got <= t.before + t.log.put;
  }

  // ----- end to end -----

  /** body is announced and its bytes are not in the ring yet, or they are the session's, from the start. */
  predicate InSession(d: Driver, body: seq<byte>) {
    if d.control.Publishing? || d.control.Purging? then d.next == body else d.body == body && d.before == []
  }

  predicate Undisturbed(sts: seq<Step>) {
    forall st :: st in sts ==> !st.Respond? && st != Host(Purge)
  }

  lemma StepStaysInSession(d: Driver, st: Step, body: seq<byte>)
    requires WellFormed(d.sys) && CanStep(d, st) && InSession(d, body) && !st.Respond? && st != Host(Purge)
    ensures InSession(Next(d, st), body)
  {
  }

  lemma {:induction false} SessionLasts(d: Driver, sts: seq<Step>, body: seq<byte>)
    requires DriverInv(d) && Behaves(d, sts) && InSession(d, body) && Undisturbed(sts)
    ensures DriverInv(After(d, sts)) && InSession(After(d, sts), body)
    decreases |sts|
  {
    if sts != [] {
      assert sts[0] in sts;
      StepKeeps(d, sts[0]);
      StepStaysInSession(d, sts[0], body);
      SessionLasts(Next(d, sts[0]), sts[1..], body);
    }
  }

  /**
   End to end. Once SetChannel has purged the ring for an accepted response, and
   until the next response or a purge by the host, everything delivered is a prefix
   of the bytes after that response's final header: for every interleaving, for
   every chunking, and even if a get was copying old bytes when the ring was purged.
   */
  lemma RetuneDeliversNewBody(d: Driver, answer: Step, sts: seq<Step>)
    requires DriverInv(d) && CanStep(d, answer) && Accepted(answer)
    requires Behaves(Next(d, answer), sts) && Undisturbed(sts)
    ensures var t := After(Next(d, answer), sts);
            && DriverInv(t)
            && (!t.control.Publishing? && !t.control.Purging? ==>
                  t.log.got <= Body(answer) && t.log.got + Queue(t.sys.ring) <= Body(answer))
  {
    StepKeeps(d, answer);
    SessionLasts(Next(d, answer), sts, Body(answer));
    var t := After(Next(d, answer), sts);
    assert [] + t.log.put == t.log.put;
    assert t.log.got <= t.log.put;
  }

  /** An answer is accepted exactly if the server was reached and its final code is 200. */
  lemma AcceptedExactly(answer: Step)
    requires answer.Respond?
    ensures var a := Http.Meaning(Http.Receive([], answer.chunks, answer.reset));
            && (Accepted(answer) <==> answer.reached && a.Answer? && a.code == 200)
            && (Accepted(answer) ==> Body(answer) == a.body)
  {
  }

  /** Acceptance and body are functions of the response alone where the reference reading is definite. */
  lemma BodyIsReference(answer: Step)
    requires answer.Respond? && Http.Delivers(answer.chunks, answer.stream)
    requires Http.Judge(answer.stream, answer.reset).Definite?
    ensures var a := Http.Judge(answer.stream, answer.reset).answer;
            && (Accepted(answer) <==> answer.reached && a.Answer? && a.code == 200)
            && (Accepted(answer) ==> Body(answer) == a.body)
  {
    AcceptedExactly(answer);
    HttpChunking.SettledAnswer(answer.chunks, answer.stream, answer.reset);
  }

  // ----- nothing is missing either -----

  /**
   While a receive thread is at work between two operations, what went into the ring,
   what the thread holds and what the connection still has make up the whole body.
   */
  predicate Whole(d: Driver) {
    d.control.Spawning? || (d.control.Idle? && d.valid) ==>
      && Served(d) + Coming(d) == d.body
      && (d.thread.Exited? ==> d.conn.held == d.conn.wire == [])
  }

  lemma PutKeepsWhole(d: Driver, st: Step)
    requires DriverInv(d) && Whole(d) && CanStep(d, st) && (st.Put? || st.Host?)
    ensures Whole(Next(d, st))
  {
    EventServes(d, st.e);
    var d' := Next(d, st);
    Regroup(Served(d), InHand(d.sys.producer), d.conn.held + d.conn.wire);
    Regroup(Served(d'), InHand(d'.sys.producer), d.conn.held + d.conn.wire);
  }

  lemma RecvKeepsWhole(d: Driver, n: nat)
    requires DriverInv(d) && Whole(d) && CanStep(d, Recv(n))
    ensures Whole(ApplyRecv(d, n))
  {
    var d' := ApplyRecv(d, n);
    if d'.thread.InPut? {
      assert Coming(d') == Coming(d);
    }
  }

  lemma PurgeKeepsWhole(d: Driver)
    requires DriverInv(d) && CanStep(d, PurgeOld)
    ensures Whole(Next(d, PurgeOld))
  {
    var d' := Next(d, PurgeOld);
    assert Served(d') == [];
    assert Coming(d') == d.conn.held + d.conn.wire;
    assert [] + Coming(d') == Coming(d');
  }

  lemma ControlKeepsWhole(d: Driver, st: Step)
    requires DriverInv(d) && Whole(d) && CanStep(d, st) && ControlStep(st) && !st.PurgeOld?
    ensures Whole(Next(d, st))
  {
  }

  lemma {:induction false} RunKeepsWhole(d: Driver, sts: seq<Step>)
    requires DriverInv(d) && Whole(d) && Behaves(d, sts)
    ensures DriverInv(After(d, sts)) && Whole(After(d, sts))
    decreases |sts|
  {
    if sts != [] {
      var st := sts[0];
      StepKeeps(d, st);
      match st {
        case Put(e) => PutKeepsWhole(d, st);
        case Host(e) => PutKeepsWhole(d, st);
        case Recv(n) => RecvKeepsWhole(d, n);
        case PurgeOld => PurgeKeepsWhole(d);
        case _ => ControlKeepsWhole(d, st);
      }
      RunKeepsWhole(Next(d, st), sts[1..]);
    }
  }

  /**
   A receive thread that ends by itself has put the whole body: got and still queued
   bytes, behind those dropped by purges of the host, are all of it.
   */
  lemma WholeBodyArrives(d: Driver, sts: seq<Step>)
    requires DriverInit(d) && Behaves(d, sts)
    ensures var t := After(d, sts);
            t.control.Idle? && t.thread.Exited? ==>
              Wf(t.sys.ring) && t.before + (t.log.got + Queue(t.sys.ring)) == t.body
    ensures var t := After(d, sts);
            t.control.Idle? && t.valid ==>
              (t.before + t.log.put) + (InHand(t.sys.producer) + (t.conn.held + t.conn.wire)) == t.body
  {
    InitHolds(d);
    RunKeepsWhole(d, sts);
  }

  // ----- shutdown progress -----

  predicate OwnStep(st: Step) {
    st.Recv? || st.Put?
  }

  lemma {:induction false} OffsetsSize(n: nat)
    ensures |Offsets(n)| == n
    decreases n
  {
    if n > 0 {
      OffsetsSize(n - 1);
    }
  }

  /** Work left in the receive thread's current turn. */
  function TurnLeft(d: Driver): nat {
    match d.thread
    case NoThread => 0
    case Exited => 0
    case AtRecv => 1
    case InPut =>
      match d.sys.producer
      case NotPutting => 0
      case Ready(src) => |src| + 3
      case Blocked(src) => |src| + 4
      case Writing(src, todo) => |todo| + 2
  }

  function Measure(d: Driver): nat {
    4 * (|d.conn.held| + |d.conn.wire|) + TurnLeft(d)
  }

  lemma RecvDescends(d: Driver, n: nat)
    requires DriverInv(d) && d.control.Joining? && CanStep(d, Recv(n))
    ensures Measure(ApplyRecv(d, n)) < Measure(d)
  {
  }

  lemma PutDescends(d: Driver, e: Event)
    requires DriverInv(d) && d.control.Joining? && CanStep(d, Put(e))
    ensures Measure(Next(d, Put(e))) < Measure(d)
  {
    if e.PutPass? {
      OffsetsSize(|d.sys.producer.src|);
    }
  }

  lemma HostLeavesWork(d: Driver, e: Event)
    requires DriverInv(d) && d.control.Joining? && CanStep(d, Host(e))
    ensures Measure(RingStep(d, e)) == Measure(d)
  {
  }

  /**
   While the control thread joins, with the socket shut down and the shutdown
   requested, each step of the receive thread uses up work, and no other thread
   adds any.
   */
  lemma JoinDescends(d: Driver, st: Step)
    requires DriverInv(d) && d.control.Joining? && CanStep(d, st) && !st.Join?
    ensures Next(d, st).control == d.control
    ensures if OwnStep(st) then Measure(Next(d, st)) < Measure(d) else Measure(Next(d, st)) == Measure(d)
  {
    match st
    case Recv(n) => RecvDescends(d, n);
    case Put(e) => PutDescends(d, e);
    case Host(e) => HostLeavesWork(d, e);
  }

  /** The receive thread needs nobody's help: either it has exited, or it can move by itself. */
  lemma JoinNeverStuck(d: Driver) returns (st: Step)
    requires DriverInv(d) && d.control.Joining?
    ensures CanStep(d, st) && (if d.thread.Exited? then st.Join? else OwnStep(st))
  {
    if d.thread.Exited? {
      st := Join;
    } else if d.thread.AtRecv? {
      st := Recv(Min(DATA_BUF_SIZE, if d.conn.held != [] then |d.conn.held| else |d.conn.wire|));
    } else if d.sys.producer.Ready? {
      st := Put(PutPass);
    } else if d.sys.producer.todo == {} {
      st := Put(PutFinish);
    } else {
      var k :| k in d.sys.producer.todo;
      st := Put(PutByte(k));
    }
  }

  function OwnSteps(sts: seq<Step>): nat {
    if sts == [] then 0 else (if OwnStep(sts[0]) then 1 else 0) + OwnSteps(sts[1..])
  }

  /**
   Hence the join returns: from every reachable state the receive thread exits
   after at most Measure(d) steps of its own, whatever the host does meanwhile.
   */
  lemma {:induction false} JoinReturns(d: Driver, sts: seq<Step>)
    requires DriverInv(d) && d.control.Joining? && Behaves(d, sts) && Join !in sts
    ensures DriverInv(After(d, sts)) && After(d, sts).control == d.control
    ensures OwnSteps(sts) + Measure(After(d, sts)) <= Measure(d)
    decreases |sts|
  {
    if sts != [] {
      assert sts[0] in sts;
      StepKeeps(d, sts[0]);
      JoinDescends(d, sts[0]);
      JoinReturns(Next(d, sts[0]), sts[1..]);
    }
  }

  /** The receive thread's own steps, and no more of them than that, take it to its exit. */
  lemma {:induction false} JoinCompletes(d: Driver) returns (sts: seq<Step>)
    requires DriverInv(d) && d.control.Joining?
    ensures Behaves(d, sts) && |sts| <= Measure(d) && forall st :: st in sts ==> OwnStep(st)
    ensures WellFormed(After(d, sts).sys) && CanStep(After(d, sts), Join)
    decreases Measure(d)
  {
    if d.thread.Exited? {
      sts := [];
    } else {
      var st := JoinNeverStuck(d);
      StepKeeps(d, st);
      JoinDescends(d, st);
      var rest := JoinCompletes(Next(d, st));
      sts := [st] + rest;
    }
  }
}
