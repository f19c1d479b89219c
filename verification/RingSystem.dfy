/**
 All interleavings of the threads around one GrabTsData object: a producer in
 put_TsStream, any number of callers of get_TsStream, a host in Wait_TsStream,
 and a controller that purges, requests shutdown and samples the bitrate.

 The mutex is a guard on steps: only the producer keeps it over several steps,
 while its memcpy runs.  The memcpy of a get runs without the mutex.  Either
 memcpy moves single bytes in any order, so every step may fall between two bytes.
 */
module RingSystem {
  import opened Bytes
  import opened RingState

  /** The thread inside put_TsStream. Ready means it needs the mutex for another pass. */
  datatype Producer =
    | NotPutting
    | Ready(src: seq<byte>)
    | Blocked(src: seq<byte>)
    | Writing(src: seq<byte>, todo: set<nat>)

  /**
   The one get that may be past the m_bReading test. It keeps the indices it
   read; snap is a history variable, the queue at that moment, which no step reads.
   */
  datatype Reader =
    | NotReading
    | Copying(nPush: nat, nPull: nat, todo: set<nat>, snap: seq<byte>)

  /** The thread inside Wait_TsStream. */
  datatype Host = Away | Waiting | Woken

  datatype State = State(ring: Ring, producer: Producer, reader: Reader, host: Host)

  datatype Event =
    | PutCall(src: seq<byte>)
    | PutPass
    | PutByte(k: nat)
    | PutFinish
    | PutSpurious
    | GetCall
    | GetByte(k: nat)
    | GetCommit
    | Purge
    | RequestShutdown
    | ResetShutdown
    | HostCall
    | HostLeave
    | HostSpurious
    | Sample

  /** What a call returns in the step that ends it. */
  datatype Output =
    | Silent
    | PutTrue
    | PutFalse
    | GetTrue(data: seq<byte>, remain: nat)
    | GetPurged
    | GetBusy

  function Offsets(n: nat): (s: set<nat>)
    ensures forall k: nat :: k in s <==> k < n
  {
    if n == 0 then {} else Offsets(n - 1) + {n - 1}
  }

  function CopySize(nPush: nat, nPull: nat): (n: nat)
    requires nPush < RING_BUF_SIZE && nPull < RING_BUF_SIZE
    ensures n <= DATA_BUF_SIZE && n <= Stored(nPush, nPull)
  {
    Min(Stored(nPush, nPull), DATA_BUF_SIZE)
  }

  predicate WellFormed(s: State) {
    && Wf(s.ring)
    && (s.reader.Copying? ==> s.reader.nPush < RING_BUF_SIZE && s.reader.nPull < RING_BUF_SIZE)
    && (s.producer.Writing? ==> |s.producer.src| < RING_BUF_SIZE)
  }

  function Amount(s: State): nat
    requires WellFormed(s) && s.reader.Copying?
  {
    CopySize(s.reader.nPush, s.reader.nPull)
  }

  predicate MutexFree(s: State) {
    !s.producer.Writing?
  }

  predicate Enabled(s: State, e: Event)
    requires WellFormed(s)
  {
    match e
    case PutCall(src) => s.producer.NotPutting? && |src| < TWO32
    case PutPass => s.producer.Ready?
    case PutByte(k) => s.producer.Writing? && k in s.producer.todo && k < |s.producer.src|
    case PutFinish => s.producer.Writing? && s.producer.todo == {}
    case PutSpurious => s.producer.Blocked?
    case GetCall => MutexFree(s)
    case GetByte(k) => s.reader.Copying? && k in s.reader.todo && k < Amount(s)
    case GetCommit => MutexFree(s) && s.reader.Copying? && s.reader.todo == {}
    case HostCall => MutexFree(s) && s.host.Away?
    case HostLeave => !s.host.Away?
    case HostSpurious => s.host.Waiting?
    case Purge | RequestShutdown | ResetShutdown | Sample => MutexFree(s)
  }

  /** pthread_cond_signal on the producer's condition variable. */
  function WakeProducer(p: Producer): Producer {
    if p.Blocked? then Ready(p.src) else p
  }

  function WakeHost(h: Host): Host {
    if h.Waiting? then Woken else h
  }

  function Apply(s: State, e: Event): State
    requires WellFormed(s) && Enabled(s, e)
  {
    match e
    case PutCall(src) => if |src| < 1 then s else s.(producer := Ready(src))
    case PutPass => ApplyPutPass(s)
    case PutByte(k) =>
      s.(ring := s.ring.(buf := s.ring.buf[At(s.ring.push, k) := s.producer.src[k]]),
         producer := s.producer.(todo := s.producer.todo - {k}))
    case PutFinish =>
      s.(ring := s.ring.(push := NextPush(s.ring.push, |s.producer.src|)),
         producer := NotPutting, host := WakeHost(s.host))
    case PutSpurious => s.(producer := Ready(s.producer.src))
    case GetCall => ApplyGetCall(s)
    case GetByte(k) =>
      s.(ring := s.ring.(dst := s.ring.dst[k := s.ring.buf[At(s.reader.nPull, k)]]),
         reader := s.reader.(todo := s.reader.todo - {k}))
    case GetCommit => ApplyGetCommit(s)
    case Purge =>
      s.(ring := Purged(s.ring), producer := WakeProducer(s.producer))
    case RequestShutdown => s.(ring := s.ring.(shutdown := true), producer := WakeProducer(s.producer))
    case ResetShutdown => s.(ring := s.ring.(shutdown := false))
    case HostCall =>
      if CeilDiv(StoredCode(s.ring.push, s.ring.pull), DATA_BUF_SIZE) == 0 then s.(host := Waiting) else s
    case HostLeave => s.(host := Away)
    case HostSpurious => s.(host := Woken)
    case Sample => s.(ring := s.ring.(accum := 0))
  }

  /** One pass of the wait loop; on success the accumulator moves and the memcpy begins. */
  function ApplyPutPass(s: State): State
    requires WellFormed(s) && s.producer.Ready?
  {
    var src := s.producer.src;
    if AvailCode(s.ring.push, s.ring.pull) >= |src| then
      s.(ring := s.ring.(accum := s.ring.accum + |src|), producer := Writing(src, Offsets(|src|)))
    else if s.ring.shutdown then s.(producer := NotPutting)
    else s.(producer := Blocked(src))
  }

  /** The fields after the first locked stretch of a get. */
  function BeginGet(r: Ring): Ring {
    if r.purge then r.(purge := false) else r.(reading := true)
  }

  /** The fields after the last locked stretch of a get that copied n bytes from nPull on. */
  function EndGet(r: Ring, nPull: nat, n: nat): Ring
    requires nPull < RING_BUF_SIZE
  {
    if r.purge || n == 0 then r.(reading := false) else r.(reading := false, pull := NextPull(nPull, n))
  }

  function ApplyGetCall(s: State): State
    requires WellFormed(s)
  {
    var s' := s.(ring := BeginGet(s.ring));
    if s.ring.purge || s.ring.reading then s'
    else
      s'.(reader := Copying(s.ring.push, s.ring.pull, Offsets(CopySize(s.ring.push, s.ring.pull)), Queue(s.ring)))
  }

  function ApplyGetCommit(s: State): State
    requires WellFormed(s) && s.reader.Copying?
  {
    s.(ring := EndGet(s.ring, s.reader.nPull, Amount(s)), reader := NotReading,
       producer := if s.ring.purge || Amount(s) == 0 then s.producer else WakeProducer(s.producer))
  }

  function Out(s: State, e: Event): Output
    requires WellFormed(s) && Enabled(s, e)
  {
    match e
    case PutCall(src) => if |src| < 1 then PutFalse else Silent
    case PutPass =>
      if AvailCode(s.ring.push, s.ring.pull) < |s.producer.src| && s.ring.shutdown then PutFalse else Silent
    case PutFinish => PutTrue
    case GetCall => if s.ring.purge then GetPurged else if s.ring.reading then GetBusy else Silent
    case GetCommit =>
      if s.ring.purge then GetPurged
      else GetTrue(s.ring.dst[..Amount(s)],
                   CeilDiv(Stored(s.reader.nPush, s.reader.nPull) - Amount(s), DATA_BUF_SIZE))
    case _ => Silent
  }

  // ----- the invariant -----

  predicate WriterInv(s: State)
    requires Wf(s.ring)
  {
    match s.producer
    case NotPutting => true
    case Ready(src) => 1 <= |src| < TWO32
    // no lost wakeup: a producer that sleeps has nothing to wake up for
    case Blocked(src) => 1 <= |src| < TWO32 && Free(s.ring) < |src| && !s.ring.shutdown
    case Writing(src, todo) =>
      && 1 <= |src| <= Free(s.ring)
      && todo <= Offsets(|src|)
      && (forall k :: 0 <= k < |src| && k !in todo ==> s.ring.buf[At(s.ring.push, k)] == src[k])
  }

  /** What a get still knows about the ring as long as nobody purged it. */
  predicate Fresh(s: State)
    requires WellFormed(s) && s.reader.Copying? && |s.reader.snap| == Stored(s.reader.nPush, s.reader.nPull)
  {
    && s.reader.nPull == s.ring.pull
    && s.reader.snap <= Queue(s.ring)
    && (forall k :: 0 <= k < Amount(s) && k !in s.reader.todo ==> s.ring.dst[k] == s.reader.snap[k])
  }

  predicate ReaderInv(s: State)
    requires Wf(s.ring) && WriterInv(s)
  {
    match s.reader
    case NotReading => !s.ring.reading
    case Copying(nPush, nPull, todo, snap) =>
      && s.ring.reading
      && nPush < RING_BUF_SIZE && nPull < RING_BUF_SIZE
      && todo <= Offsets(CopySize(nPush, nPull))
      && |snap| == Stored(nPush, nPull)
      && (s.ring.purge || nPush == nPull || Fresh(s))
  }

  predicate Inv(s: State) {
    && Wf(s.ring)
    && WriterInv(s)
    && ReaderInv(s)
    // no lost wakeup: a host that sleeps has no data to fetch
    && (s.host.Waiting? ==> Queue(s.ring) == [])
  }

  /**
   What callers of get_TsStream owe the buffer: no get starts between a purge
   and the end of a get that the purge caught in mid-copy, unless that one found the
   ring empty. One consumer thread always keeps this, since its calls do not overlap.
   */
  predicate Polite(s: State, e: Event) {
    e.GetCall? ==> !(s.ring.purge && s.reader.Copying? && s.reader.nPush != s.reader.nPull)
  }

  /** GrabTsData's constructor; malloc leaves both buffers with arbitrary bytes. */
  predicate Init(s: State) {
    && Wf(s.ring)
    && s.ring.push == 0 && s.ring.pull == 0 && s.ring.accum == 0
    && !s.ring.purge && !s.ring.reading && !s.ring.shutdown
    && s.producer.NotPutting? && s.reader.NotReading? && s.host.Away?
  }

  // ----- each step keeps the invariant -----

  lemma StepPutPass(s: State)
    requires Inv(s) && s.producer.Ready?
    ensures Inv(ApplyPutPass(s))
  {
    CodeFormulas(s.ring.push, s.ring.pull);
    var s' := ApplyPutPass(s);
    assert Queue(s'.ring) == Queue(s.ring);
  }

  lemma StepPutByte(s: State, k: nat)
    requires Inv(s) && Enabled(s, PutByte(k))
    ensures Inv(Apply(s, PutByte(k))) && Queue(Apply(s, PutByte(k)).ring) == Queue(s.ring)
  {
    var s' := Apply(s, PutByte(k));
    WriteOutside(s.ring, k, s.producer.src[k]);
    forall j | 0 <= j < |s.producer.src| && j !in s'.producer.todo
      ensures s'.ring.buf[At(s'.ring.push, j)] == s.producer.src[j]
    {
      if j != k {
        AtInjective(s.ring.push, j, k);
      }
    }
  }

  lemma StepPutFinish(s: State)
    requires Inv(s) && Enabled(s, PutFinish)
    ensures Inv(Apply(s, PutFinish)) && Queue(Apply(s, PutFinish).ring) == Queue(s.ring) + s.producer.src
  {
    Append(s.ring, s.producer.src);
  }

  lemma StepGetCall(s: State)
    requires Inv(s) && Polite(s, GetCall)
    ensures Inv(ApplyGetCall(s)) && Queue(ApplyGetCall(s).ring) == Queue(s.ring)
  {
    assert Queue(ApplyGetCall(s).ring) == Queue(s.ring);
  }

  /** The unlocked copy reads what the queue held at the snapshot, whatever was put since. */
  lemma StepGetByte(s: State, k: nat)
    requires Inv(s) && Enabled(s, GetByte(k))
    ensures Inv(Apply(s, GetByte(k))) && Queue(Apply(s, GetByte(k)).ring) == Queue(s.ring)
  {
    assert Queue(Apply(s, GetByte(k)).ring) == Queue(s.ring);
    if !s.ring.purge {
      assert s.reader.snap[k] == Queue(s.ring)[k] == s.ring.buf[At(s.reader.nPull, k)];
    }
  }

  /** When an unpurged copy is complete it equals the front of the queue. */
  lemma CopyIsFront(s: State)
    requires Inv(s) && s.reader.Copying? && s.reader.todo == {} && !s.ring.purge
    ensures Amount(s) <= |s.reader.snap| && Amount(s) <= |Queue(s.ring)|
    ensures s.ring.dst[..Amount(s)] == s.reader.snap[..Amount(s)] == Queue(s.ring)[..Amount(s)]
  {
  }

  lemma StepGetCommit(s: State)
    requires Inv(s) && Enabled(s, GetCommit)
    ensures Inv(ApplyGetCommit(s))
    ensures s.ring.purge ==> Queue(ApplyGetCommit(s).ring) == Queue(s.ring)
    ensures !s.ring.purge ==> Queue(ApplyGetCommit(s).ring) == Queue(s.ring)[Amount(s)..]
  {
    var s' := ApplyGetCommit(s);
    if s.ring.purge {
      assert Queue(s'.ring) == Queue(s.ring);
    } else {
      Drop(s.ring, Amount(s));
      var dropped := s.ring.(pull := NextPull(s.ring.pull, Amount(s)));
      assert NextPull(s.ring.pull, 0) == s.ring.pull;
      assert s'.ring == dropped.(reading := false);
      assert Queue(s'.ring) == Queue(dropped);
      CommitKeepsWriter(s);
    }
  }

  lemma CommitKeepsWriter(s: State)
    requires Inv(s) && Enabled(s, GetCommit)
    ensures Wf(ApplyGetCommit(s).ring) && WriterInv(ApplyGetCommit(s))
  {
  }

  lemma StepPurge(s: State)
    requires Inv(s) && Enabled(s, Purge)
    ensures Inv(Apply(s, Purge)) && Queue(Apply(s, Purge).ring) == []
  {
  }

  lemma StepHost(s: State, e: Event)
    requires Inv(s) && Enabled(s, e) && (e.HostCall? || e.HostLeave? || e.HostSpurious?)
    ensures Inv(Apply(s, e)) && Apply(s, e).ring == s.ring
  {
    CodeFormulas(s.ring.push, s.ring.pull);
    NoBlocks(Stored(s.ring.push, s.ring.pull));
  }

  lemma StepControl(s: State, e: Event)
    requires Inv(s) && Enabled(s, e)
    requires e.PutCall? || e.PutSpurious? || e.RequestShutdown? || e.ResetShutdown? || e.Sample?
    ensures Inv(Apply(s, e)) && Queue(Apply(s, e).ring) == Queue(s.ring)
  {
    assert Queue(Apply(s, e).ring) == Queue(s.ring);
  }

  /** The step is a step of a FIFO queue with the same result. */
  predicate RefinesFifo(s: State, e: Event)
    requires WellFormed(s) && Enabled(s, e) && Wf(Apply(s, e).ring)
  {
    var q, q' := Queue(s.ring), Queue(Apply(s, e).ring);
    match Out(s, e)
    case PutTrue => s.producer.Writing? && q' == q + s.producer.src
    case GetTrue(data, remain) => q == data + q'
    case _ => q' == if e.Purge? then [] else q
  }

  lemma PutRefinesFifo(s: State, e: Event)
    requires Inv(s) && Enabled(s, e) && (e.PutPass? || e.PutByte? || e.PutFinish?)
    ensures Inv(Apply(s, e)) && RefinesFifo(s, e)
  {
    match e
    case PutPass =>
      StepPutPass(s);
      assert Queue(Apply(s, e).ring) == Queue(s.ring);
    case PutByte(k) => StepPutByte(s, k);
    case PutFinish => StepPutFinish(s);
  }

  lemma CommitRefinesFifo(s: State)
    requires Inv(s) && Enabled(s, GetCommit)
    ensures Inv(Apply(s, GetCommit)) && RefinesFifo(s, GetCommit)
  {
    StepGetCommit(s);
    if !s.ring.purge {
      CopyIsFront(s);
      assert Queue(s.ring) == Queue(s.ring)[..Amount(s)] + Queue(s.ring)[Amount(s)..];
    }
  }

  lemma GetRefinesFifo(s: State, e: Event)
    requires Inv(s) && Enabled(s, e) && Polite(s, e) && (e.GetCall? || e.GetByte?)
    ensures Inv(Apply(s, e)) && RefinesFifo(s, e)
  {
    match e
    case GetCall => StepGetCall(s);
    case GetByte(k) => StepGetByte(s, k);
  }

  lemma ControlRefinesFifo(s: State, e: Event)
    requires Inv(s) && Enabled(s, e)
    requires !e.PutPass? && !e.PutByte? && !e.PutFinish? && !e.GetCall? && !e.GetByte? && !e.GetCommit?
    ensures Inv(Apply(s, e)) && RefinesFifo(s, e)
  {
    match e
    case Purge => StepPurge(s);
    case HostCall => StepHost(s, e);
    case HostLeave => StepHost(s, e);
    case HostSpurious => StepHost(s, e);
    case _ => StepControl(s, e);
  }

  /**
   Every step refines one atomic step of a FIFO queue: a put that returns TRUE
   appends its bytes, a get that returns TRUE removes the bytes it returns from
   the front, a purge empties the queue, and nothing else touches it.
   */
  lemma StepRefinesFifo(s: State, e: Event)
    requires Inv(s) && Enabled(s, e) && Polite(s, e)
    ensures Inv(Apply(s, e)) && RefinesFifo(s, e)
    ensures |Queue(Apply(s, e).ring)| <= RING_BUF_SIZE - 1
  {
    if e.PutPass? || e.PutByte? || e.PutFinish? {
      PutRefinesFifo(s, e);
    } else if e.GetCommit? {
      CommitRefinesFifo(s);
    } else if e.GetCall? || e.GetByte? {
      GetRefinesFifo(s, e);
    } else {
      ControlRefinesFifo(s, e);
    }
  }

  /**
   While an unpurged get copies, no byte that put writes lies in the cyclic
   interval the get took its snapshot of.
   */
  lemma WritesMissSnapshot(s: State, k: nat, j: nat)
    requires Inv(s) && Enabled(s, PutByte(k))
    requires s.reader.Copying? && !s.ring.purge && j < Stored(s.reader.nPush, s.reader.nPull)
    ensures At(s.ring.push, k) != At(s.reader.nPull, j)
  {
    WriteOutside(s.ring, k, 0);
  }
}
