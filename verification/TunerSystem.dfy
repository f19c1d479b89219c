/**
 The whole data path under interleaving: the control thread inside OpenTuner,
 SetChannel or CloseTuner, the receive thread, and the host's threads on the ring.
 */
module TunerSystem {
  import opened Bytes
  import opened RingState
  import opened RingSystem
  import opened RingRuns
  import opened Connection
  import Http = HttpHeader

  datatype Thread = NoThread | AtRecv | InPut | Exited

  datatype Channel = NoChannel | Tuned(space: nat, channel: nat)

  datatype Goal = ToTune(ch: Channel) | ToClose | ToOpen

  /** Where the control thread stands: the four steps of waitForRecvThreadFinish, then the rest. */
  datatype Control =
    | Idle
    | Shutting(goal: Goal)
    | Asking(goal: Goal)
    | Joining(goal: Goal)
    | Clearing(goal: Goal)
    | Requesting(ch: Channel)
    | Publishing(ch: Channel)
    | Purging
    | Spawning
    | Closing(goal: Goal)
    | Opening

  /**
   The fields of CBonTuner and of the objects it drives, and four history
   variables: the books of RingRuns, the body of the session whose bytes go
   into the ring, the part of it put before the last purge, and the body that the
   last accepted response announced.
   */
  datatype Driver = Driver(
    sys: State, conn: Conn, created: bool, thread: Thread, valid: bool, cur: Channel, control: Control,
    log: Log, body: seq<byte>, before: seq<byte>, next: seq<byte>)

  datatype Step =
    // control thread
    | Tune(ch: Channel)
    | Close
    | Open
    | ShutSocket(queued: nat)
    | AskShutdown
    | Join
    | ClearShutdown
    | Respond(reached: bool, stream: seq<byte>, chunks: seq<seq<byte>>, reset: bool)
    | Publish
    | PurgeOld
    | Spawn(ok: bool)
    | FinishClose
    | FinishOpen(ok: bool)
    // receive thread
    | Recv(n: nat)
    | Put(e: Event)
    // host threads
    | Host(e: Event)

  /** The answer that SetChannel accepts. */
  predicate Accepted(st: Step) {
    st.Respond? && st.reached && Http.Receive([], st.chunks, st.reset).Ok? && Http.Receive([], st.chunks, st.reset).code == 200
  }

  /** The bytes after the final header of an accepted answer. */
  function Body(st: Step): seq<byte>
    requires Accepted(st)
  {
    var r := Http.Receive([], st.chunks, st.reset);
    r.rest + r.unread
  }

  predicate HostEvent(e: Event) {
    match e
    case GetCall | GetByte(_) | GetCommit | Purge | HostCall | HostLeave | HostSpurious | Sample => true
    case _ => false
  }

  predicate ProducerEvent(e: Event) {
    match e
    case PutPass | PutByte(_) | PutFinish | PutSpurious => true
    case _ => false
  }

  predicate CanStep(d: Driver, st: Step)
    requires WellFormed(d.sys)
  {
    match st
    case Tune(ch) => d.control.Idle? && d.created && ch.Tuned?
    case Close => d.control.Idle?
    case Open => d.control.Idle?
    case ShutSocket(_) => d.control.Shutting?
    case AskShutdown => d.control.Asking? && Enabled(d.sys, RequestShutdown)
    case Join => d.control.Joining? && d.thread.Exited?
    case ClearShutdown => d.control.Clearing? && Enabled(d.sys, ResetShutdown)
    case Respond(reached, stream, chunks, reset) => d.control.Requesting? && Http.Delivers(chunks, stream)
    case Publish => d.control.Publishing?
    case PurgeOld => d.control.Purging? && Enabled(d.sys, Purge)
    case Spawn(_) => d.control.Spawning?
    case FinishClose => d.control.Closing?
    case FinishOpen(_) => d.control.Opening?
    case Recv(n) =>
      && d.thread.AtRecv? && d.sys.producer.NotPutting?
      && (Ended(d.conn) || CanGive(d.conn, DATA_BUF_SIZE, n))
    case Put(e) => d.thread.InPut? && ProducerEvent(e) && Enabled(d.sys, e)
    // a get may pass the m_dwCurChannel test at any time before it takes the mutex
    case Host(e) => HostEvent(e) && Enabled(d.sys, e) && Polite(d.sys, e)
  }

  function RingStep(d: Driver, e: Event): Driver
    requires WellFormed(d.sys) && Enabled(d.sys, e)
  {
    d.(sys := Apply(d.sys, e), log := Record(d.log, d.sys, e),
       before := if e.Purge? then d.before + d.log.put else d.before)
  }

  /** waitForRecvThreadFinish, then the rest of the operation. */
  function StopThen(d: Driver, goal: Goal): Driver {
    if d.valid then d.(control := Shutting(goal)) else Proceed(d, goal)
  }

  function Proceed(d: Driver, goal: Goal): Driver {
    match goal
    case ToTune(ch) => d.(control := Requesting(ch))
    case _ => d.(control := Closing(goal))
  }

  function Hang(d: Driver): Driver {
    d.(conn := CLOSED, cur := NoChannel, control := Idle)
  }

  function Next(d: Driver, st: Step): Driver
    requires WellFormed(d.sys) && CanStep(d, st)
  {
    match st
    case Tune(ch) => StopThen(d, ToTune(ch))
    case Close => StopThen(d.(cur := NoChannel), ToClose)
    case Open => StopThen(d.(cur := NoChannel), ToOpen)
    case ShutSocket(queued) =>
      d.(conn := d.conn.(wire := d.conn.wire[..Min(queued, |d.conn.wire|)]), control := Asking(d.control.goal))
    case AskShutdown => RingStep(d, RequestShutdown).(control := Joining(d.control.goal))
    case Join => d.(thread := NoThread, valid := false, control := Clearing(d.control.goal))
    case ClearShutdown => Proceed(RingStep(d, ResetShutdown), d.control.goal)
    case Respond(reached, stream, chunks, reset) =>
      if !Accepted(st) then Hang(d)
      else
        var r := Http.Receive([], chunks, reset);
        d.(conn := Conn(true, r.rest, r.unread), next := Body(st), control := Publishing(d.control.ch))
    case Publish => d.(cur := d.control.ch, control := Purging)
    case PurgeOld => RingStep(d, Purge).(body := d.next, before := [], control := Spawning)
    case Spawn(ok) => if ok then d.(thread := AtRecv, valid := true, control := Idle) else Hang(d)
    case FinishClose =>
      d.(conn := CLOSED, created := false, control := if d.control.goal.ToOpen? then Opening else Idle)
    case FinishOpen(ok) => d.(created := ok, control := Idle)
    case Recv(n) => ApplyRecv(d, n)
    case Put(e) =>
      RingStep(d, e).(thread := if Out(d.sys, e).PutTrue? then AtRecv else if Out(d.sys, e).PutFalse? then Exited else InPut)
    case Host(e) => RingStep(d, e)
  }

  /** One turn of RecvThread up to the call of put_TsStream. */
  function ApplyRecv(d: Driver, n: nat): Driver
    requires WellFormed(d.sys) && CanStep(d, Recv(n))
  {
    if Ended(d.conn) then d.(thread := Exited)
    else RingStep(d, PutCall(Given(d.conn, n))).(conn := Remaining(d.conn, n), thread := InPut)
  }

  // ----- the invariant -----

  /** Bytes the receive thread has taken from the connection but not put yet. */
  function InHand(p: Producer): seq<byte> {
    if p.NotPutting? then [] else p.src
  }

  predicate ThreadInv(d: Driver) {
    && (d.thread.InPut? <==> !d.sys.producer.NotPutting?)
    && (d.valid <==> !d.thread.NoThread?)
    // the socket is open, and its owner alive, as long as there is a receive thread
    && (d.valid ==> d.created && d.conn.open)
    && (d.valid ==> d.control.Idle? || d.control.Shutting? || d.control.Asking? || d.control.Joining?)
    && (d.control.Shutting? || d.control.Asking? || d.control.Joining? ==> d.valid)
    // a shutdown request stands only from the request to the end of the join
    && (d.control.Joining? ==> d.sys.ring.shutdown)
    && (d.sys.ring.shutdown ==> d.control.Joining? || d.control.Clearing?)
  }

  predicate ControlInv(d: Driver) {
    match d.control
    case Idle => d.valid <==> d.cur.Tuned?
    case Shutting(goal) => GoalInv(d, goal)
    case Asking(goal) => GoalInv(d, goal)
    case Joining(goal) => GoalInv(d, goal)
    case Clearing(goal) => GoalInv(d, goal)
    case Requesting(ch) => d.created && ch.Tuned?
    case Publishing(ch) => d.created && ch.Tuned? && d.conn.open
    case Purging => d.created && d.cur.Tuned? && d.conn.open
    case Spawning => d.created && d.cur.Tuned? && d.conn.open
    case Closing(goal) => d.cur == NoChannel && !goal.ToTune?
    case Opening => d.cur == NoChannel && !d.created
  }

  predicate GoalInv(d: Driver, goal: Goal) {
    if goal.ToTune? then d.created && goal.ch.Tuned? else d.cur == NoChannel
  }

  /** The body bytes that went into the ring so far. */
  function Served(d: Driver): seq<byte> {
    d.before + d.log.put
  }

  /** The body bytes still to go into the ring. */
  function Coming(d: Driver): seq<byte> {
    InHand(d.sys.producer) + (d.conn.held + d.conn.wire)
  }

  predicate Live(d: Driver) {
    d.thread.AtRecv? || d.thread.InPut? || d.control.Spawning?
  }

  /** Every byte of the session is where it should be, in the order of the body. */
  predicate StreamInv(d: Driver) {
    && Served(d) <= d.body
    && (Live(d) ==> Served(d) + Coming(d) <= d.body)
    && (d.control.Publishing? || d.control.Purging? ==> d.next == d.conn.held + d.conn.wire)
  }

  predicate DriverInv(d: Driver) {
    Inv(d.sys) && Balanced(d.log, d.sys) && ThreadInv(d) && ControlInv(d) && StreamInv(d)
  }

  /** CBonTuner's constructor. */
  predicate DriverInit(d: Driver) {
    && Init(d.sys) && d.log == EMPTY_LOG && d.body == d.before == d.next == []
    && d.conn == CLOSED && !d.created && d.thread == NoThread && !d.valid
    && d.cur == NoChannel && d.control == Idle
  }

  // ----- each step keeps it -----

  /** The ring event inside a step, if there is one. */
  lemma RingStepKeeps(d: Driver, e: Event)
    requires DriverInv(d) && Enabled(d.sys, e) && Polite(d.sys, e)
    ensures Inv(RingStep(d, e).sys) && Balanced(RingStep(d, e).log, RingStep(d, e).sys)
  {
    StepBalances(d.log, d.sys, e);
  }

  lemma RingKept(d: Driver, st: Step)
    requires DriverInv(d) && CanStep(d, st)
    ensures Inv(Next(d, st).sys) && Balanced(Next(d, st).log, Next(d, st).sys)
  {
    match st
    case AskShutdown => RingStepKeeps(d, RequestShutdown);
    case ClearShutdown => RingStepKeeps(d, ResetShutdown);
    case PurgeOld => RingStepKeeps(d, Purge);
    case Put(e) => RingStepKeeps(d, e);
    case Host(e) => RingStepKeeps(d, e);
    case Recv(n) =>
      if !Ended(d.conn) {
        RingStepKeeps(d, PutCall(Given(d.conn, n)));
      }
    case _ =>
  }

  predicate ControlStep(st: Step) {
    !st.Recv? && !st.Put? && !st.Host?
  }

  lemma ControlKept(d: Driver, st: Step)
    requires ThreadInv(d) && ControlInv(d) && WellFormed(d.sys) && CanStep(d, st) && ControlStep(st)
    ensures ThreadInv(Next(d, st)) && ControlInv(Next(d, st))
  {
  }

  lemma RecvKept(d: Driver, n: nat)
    requires ThreadInv(d) && ControlInv(d) && WellFormed(d.sys) && CanStep(d, Recv(n))
    ensures ThreadInv(ApplyRecv(d, n)) && ControlInv(ApplyRecv(d, n))
  {
  }

  lemma PutKept(d: Driver, e: Event)
    requires ThreadInv(d) && ControlInv(d) && WellFormed(d.sys) && CanStep(d, Put(e))
    ensures ThreadInv(Next(d, Put(e))) && ControlInv(Next(d, Put(e)))
  {
  }

  lemma HostKept(d: Driver, e: Event)
    requires ThreadInv(d) && ControlInv(d) && WellFormed(d.sys) && CanStep(d, Host(e))
    ensures ThreadInv(RingStep(d, e)) && ControlInv(RingStep(d, e))
  {
  }

  /** A ring event moves bytes from the receive thread's hand into the ring, or drops what it holds. */
  lemma EventServes(d: Driver, e: Event)
    requires WellFormed(d.sys) && Enabled(d.sys, e) && !e.PutCall?
    ensures var d' := RingStep(d, e);
            if Out(d.sys, e).PutFalse? then Served(d') == Served(d)
            else Served(d') + InHand(d'.sys.producer) == Served(d) + InHand(d.sys.producer)
    ensures !e.PutFinish? ==> Served(RingStep(d, e)) == Served(d)
  {
    if e.PutFinish? {
      assert d.before + (d.log.put + d.sys.producer.src) == Served(d) + d.sys.producer.src;
    }
  }

  /** The session's bytes after a host's or the receive thread's ring event. */
  lemma RingStreamKept(d: Driver, st: Step)
    requires DriverInv(d) && CanStep(d, st) && (st.Put? || st.Host?)
    ensures StreamInv(Next(d, st))
  {
    EventServes(d, st.e);
    var d' := Next(d, st);
    Regroup(Served(d), InHand(d.sys.producer), d.conn.held + d.conn.wire);
    Regroup(Served(d'), InHand(d'.sys.producer), d.conn.held + d.conn.wire);
    Prefixes(Served(d'), InHand(d'.sys.producer), Served(d) + InHand(d.sys.producer));
  }

  lemma Regroup(a: seq<byte>, b: seq<byte>, c: seq<byte>)
    ensures a + (b + c) == (a + b) + c
  {
  }

  lemma Prefixes(a: seq<byte>, b: seq<byte>, c: seq<byte>)
    ensures a + b == c ==> a <= c
  {
  }

  lemma RecvStreamKept(d: Driver, n: nat)
    requires DriverInv(d) && CanStep(d, Recv(n))
    ensures StreamInv(ApplyRecv(d, n))
  {
    var d' := ApplyRecv(d, n);
    if d'.thread.InPut? {
      assert Coming(d') == Coming(d);
    }
  }

  lemma PurgeStreamKept(d: Driver)
    requires DriverInv(d) && CanStep(d, PurgeOld)
    ensures StreamInv(Next(d, PurgeOld))
  {
    var d' := Next(d, PurgeOld);
    assert Served(d') == [];
    assert Coming(d') == d.conn.held + d.conn.wire;
    assert [] + Coming(d') == Coming(d');
  }

  lemma ShutStreamKept(d: Driver, queued: nat)
    requires DriverInv(d) && CanStep(d, ShutSocket(queued))
    ensures StreamInv(Next(d, ShutSocket(queued)))
  {
    var d' := Next(d, ShutSocket(queued));
    if Live(d') {
      assert Served(d) + Coming(d') <= Served(d) + Coming(d);
    }
  }

  lemma ControlStreamKept(d: Driver, st: Step)
    requires DriverInv(d) && CanStep(d, st) && ControlStep(st) && !st.PurgeOld? && !st.ShutSocket?
    ensures StreamInv(Next(d, st))
  {
  }

  lemma StepKeepsStream(d: Driver, st: Step)
    requires DriverInv(d) && CanStep(d, st)
    ensures StreamInv(Next(d, st))
  {
    match st
    case Recv(n) => RecvStreamKept(d, n);
    case Put(e) => RingStreamKept(d, st);
    case Host(e) => RingStreamKept(d, st);
    case PurgeOld => PurgeStreamKept(d);
    case ShutSocket(queued) => ShutStreamKept(d, queued);
    case _ => ControlStreamKept(d, st);
  }

  lemma StepKeepsThreads(d: Driver, st: Step)
    requires DriverInv(d) && CanStep(d, st)
    ensures ThreadInv(Next(d, st)) && ControlInv(Next(d, st))
  {
    match st
    case Recv(n) => RecvKept(d, n);
    case Put(e) => PutKept(d, e);
    case Host(e) => HostKept(d, e);
    case _ => ControlKept(d, st);
  }

  lemma StepKeeps(d: Driver, st: Step)
    requires DriverInv(d) && CanStep(d, st)
    ensures DriverInv(Next(d, st))
  {
    RingKept(d, st);
    StepKeepsThreads(d, st);
    StepKeepsStream(d, st);
  }
}
