/** Whole runs of the ring buffer: what every run keeps, and where the guarantee ends. */
module RingRuns {
  import opened Bytes
  import opened RingState
  import opened RingSystem

  predicate Runs(s: State, es: seq<Event>)
    decreases |es|
  {
    es == [] || (WellFormed(s) && Enabled(s, es[0]) && Runs(Apply(s, es[0]), es[1..]))
  }

  predicate PoliteRun(s: State, es: seq<Event>)
    requires Runs(s, es)
    decreases |es|
  {
    es == [] || (Polite(s, es[0]) && PoliteRun(Apply(s, es[0]), es[1..]))
  }

  function Exec(s: State, es: seq<Event>): State
    requires Runs(s, es)
    decreases |es|
  {
    if es == [] then s else Exec(Apply(s, es[0]), es[1..])
  }

  // ----- the books -----

  /**
   What an observer counts: the bytes put and got since the last purge, and
   running totals of bytes accepted, delivered, dropped by purges, taken into
   bitrate windows and lost from the accumulator, of purges, and of gets that
   returned FALSE because of a purge.
   */
  datatype Log = Log(
    put: seq<byte>, got: seq<byte>,
    accepted: nat, delivered: nat, dropped: nat,
    sampled: nat, forgotten: nat,
    purges: nat, purgedGets: nat)

  const EMPTY_LOG := Log([], [], 0, 0, 0, 0, 0, 0, 0)

  function Record(l: Log, s: State, e: Event): Log
    requires WellFormed(s) && Enabled(s, e)
  {
    match e
    case PutPass =>
      if Apply(s, e).producer.Writing? then l.(accepted := l.accepted + |s.producer.src|) else l
    case PutFinish => l.(put := l.put + s.producer.src)
    case GetCall => if Out(s, e).GetPurged? then l.(purgedGets := l.purgedGets + 1) else l
    case GetCommit =>
      (match Out(s, e)
       case GetTrue(data, remain) => l.(got := l.got + data, delivered := l.delivered + |data|)
       case _ => l.(purgedGets := l.purgedGets + 1))
    case Purge =>
      l.(put := [], got := [], dropped := l.dropped + |Queue(s.ring)|,
         forgotten := l.forgotten + s.ring.accum, purges := l.purges + 1)
    case Sample => l.(sampled := l.sampled + s.ring.accum)
    case _ => l
  }

  function Logged(l: Log, s: State, es: seq<Event>): Log
    requires Runs(s, es)
    decreases |es|
  {
    if es == [] then l else Logged(Record(l, s, es[0]), Apply(s, es[0]), es[1..])
  }

  function InFlight(s: State): nat {
    if s.producer.Writing? then |s.producer.src| else 0
  }

  /** FALSE results still owed by the pending purge flag: one to the next get, one to a get in mid-copy. */
  function FalseGetsOwed(s: State): nat {
    if !s.ring.purge then 0 else if s.reader.Copying? then 2 else 1
  }

  predicate Balanced(l: Log, s: State)
    requires Wf(s.ring)
  {
    && l.got + Queue(s.ring) == l.put
    && l.accepted == l.delivered + |Queue(s.ring)| + InFlight(s) + l.dropped
    && l.accepted == l.sampled + l.forgotten + s.ring.accum
    && l.purgedGets + FalseGetsOwed(s) <= 2 * l.purges
  }

  lemma PassBalances(l: Log, s: State)
    requires Inv(s) && Balanced(l, s) && s.producer.Ready?
    ensures Balanced(Record(l, s, PutPass), ApplyPutPass(s))
  {
    CodeFormulas(s.ring.push, s.ring.pull);
    assert Queue(ApplyPutPass(s).ring) == Queue(s.ring);
  }

  lemma FinishBalances(l: Log, s: State)
    requires Inv(s) && Balanced(l, s) && Enabled(s, PutFinish)
    ensures Wf(Apply(s, PutFinish).ring) && Balanced(Record(l, s, PutFinish), Apply(s, PutFinish))
  {
    Append(s.ring, s.producer.src);
    assert l.got + (Queue(s.ring) + s.producer.src) == (l.got + Queue(s.ring)) + s.producer.src;
  }

  lemma CommitBalances(l: Log, s: State)
    requires Inv(s) && Balanced(l, s) && Enabled(s, GetCommit)
    ensures Inv(ApplyGetCommit(s)) && Balanced(Record(l, s, GetCommit), ApplyGetCommit(s))
  {
    StepGetCommit(s);
    if !s.ring.purge {
      CopyIsFront(s);
      TakenFromFront(l.got, Queue(s.ring), Amount(s));
    }
  }

  lemma TakenFromFront(got: seq<byte>, q: seq<byte>, n: nat)
    requires n <= |q|
    ensures got + q == (got + q[..n]) + q[n..]
  {
  }

  lemma StepBalances(l: Log, s: State, e: Event)
    requires Inv(s) && Balanced(l, s) && Enabled(s, e) && Polite(s, e)
    ensures Inv(Apply(s, e)) && Balanced(Record(l, s, e), Apply(s, e))
  {
    StepRefinesFifo(s, e);
    match e
    case PutPass => PassBalances(l, s);
    case PutFinish => FinishBalances(l, s);
    case GetCommit => CommitBalances(l, s);
    case _ =>
  }

  /**
   Every polite run: the bytes got and the bytes still queued make up, in order,
   exactly the bytes put since the last purge; no byte is lost or counted twice in
   either ledger; and each purge costs at most two FALSE gets.
   */
  lemma {:induction false} RunBalances(l: Log, s: State, es: seq<Event>)
    requires Inv(s) && Balanced(l, s) && Runs(s, es) && PoliteRun(s, es)
    ensures Inv(Exec(s, es)) && Balanced(Logged(l, s, es), Exec(s, es))
    decreases |es|
  {
    if es != [] {
      StepBalances(l, s, es[0]);
      RunBalances(Record(l, s, es[0]), Apply(s, es[0]), es[1..]);
    }
  }

  lemma InitBalances(s: State)
    requires Init(s)
    ensures Inv(s) && Balanced(EMPTY_LOG, s)
  {
  }

  /** The theorem a host relies on, from construction on. */
  lemma GetsArePrefixOfPuts(s: State, es: seq<Event>)
    requires Init(s) && Runs(s, es) && PoliteRun(s, es)
    ensures var l, t := Logged(EMPTY_LOG, s, es), Exec(s, es);
            && l.got <= l.put
            && Wf(t.ring) && Queue(t.ring) == l.put[|l.got|..]
            && l.accepted == l.delivered + Stored(t.ring.push, t.ring.pull) + InFlight(t) + l.dropped
            && l.accepted == l.sampled + l.forgotten + t.ring.accum
            && l.purgedGets <= 2 * l.purges
  {
    InitBalances(s);
    RunBalances(EMPTY_LOG, s, es);
  }

  /**
   No wakeup is ever lost: in every reachable state a sleeping producer has too
   little room and no shutdown request, and a sleeping host has no data.
   */
  lemma NoLostWakeup(s: State, es: seq<Event>)
    requires Init(s) && Runs(s, es) && PoliteRun(s, es)
    ensures var t := Exec(s, es);
            && WellFormed(t)
            && (t.producer.Blocked? ==> AvailCode(t.ring.push, t.ring.pull) < |t.producer.src| && !t.ring.shutdown)
            && (t.host.Waiting? ==> t.ring.push == t.ring.pull)
  {
    InitBalances(s);
    RunBalances(EMPTY_LOG, s, es);
    var t := Exec(s, es);
    CodeFormulas(t.ring.push, t.ring.pull);
  }

  // ----- what decides -----

  /** A pass of put succeeds exactly if the bytes fit, and only without room does it look at shutdown. */
  lemma PassDecides(s: State)
    requires Inv(s) && s.producer.Ready?
    ensures var src, fits := s.producer.src, |s.producer.src| <= RING_BUF_SIZE - 1 - |Queue(s.ring)|;
            var p := Apply(s, PutPass).producer;
            && (fits ==> p.Writing? && p.src == src)
            && (!fits && s.ring.shutdown ==> p == NotPutting && Out(s, PutPass) == PutFalse)
            && (!fits && !s.ring.shutdown ==> p == Blocked(src))
  {
    CodeFormulas(s.ring.push, s.ring.pull);
  }

  /** A get call reports a purge, refuses a second reader, and otherwise starts to copy the front of the queue. */
  lemma GetDecides(s: State)
    requires Inv(s) && MutexFree(s)
    ensures var r := Apply(s, GetCall).reader;
            if s.ring.purge then Out(s, GetCall) == GetPurged && r == s.reader && !Apply(s, GetCall).ring.purge
            else if s.reader.Copying? then Out(s, GetCall) == GetBusy && r == s.reader
            else r.Copying? && r.snap == Queue(s.ring)
                 && (forall k: nat :: k in r.todo <==> k < Min(|Queue(s.ring)|, DATA_BUF_SIZE))
  {
  }

  /** A host waits exactly for an empty ring, and a finished put wakes it. */
  lemma HostDecides(s: State)
    requires Inv(s) && MutexFree(s) && s.host.Away?
    ensures Apply(s, HostCall).host == if Queue(s.ring) == [] then Waiting else Away
  {
    CodeFormulas(s.ring.push, s.ring.pull);
    NoBlocks(Stored(s.ring.push, s.ring.pull));
  }

  // ----- one get, from its snapshot to its commit -----

  /** Stricter than Polite: not even a get that found the ring empty is called into after a purge. */
  predicate Patient(s: State, e: Event) {
    e.GetCall? ==> !(s.ring.purge && s.reader.Copying?)
  }

  predicate PatientRun(s: State, es: seq<Event>)
    requires Runs(s, es)
    decreases |es|
  {
    es == [] || (Patient(s, es[0]) && PatientRun(Apply(s, es[0]), es[1..]))
  }

  lemma StepKeepsSnapshot(s: State, e: Event)
    requires Inv(s) && s.reader.Copying? && Enabled(s, e) && Patient(s, e) && e != GetCommit
    ensures var t := Apply(s, e);
            && t.reader.Copying?
            && t.reader.nPush == s.reader.nPush && t.reader.nPull == s.reader.nPull && t.reader.snap == s.reader.snap
            && (t.ring.purge <==> s.ring.purge || e == Purge)
  {
  }

  lemma {:induction false} SnapshotLasts(s: State, es: seq<Event>)
    requires Inv(s) && s.reader.Copying? && Runs(s, es) && GetCommit !in es
    requires PatientRun(s, es) || (PoliteRun(s, es) && s.reader.nPush != s.reader.nPull)
    ensures var t := Exec(s, es);
            && Inv(t) && t.reader.Copying?
            && t.reader.nPush == s.reader.nPush && t.reader.nPull == s.reader.nPull && t.reader.snap == s.reader.snap
            && (t.ring.purge <==> s.ring.purge || Purge in es)
    decreases |es|
  {
    if es != [] {
      var e, rest := es[0], es[1..];
      assert es == [e] + rest;
      StepRefinesFifo(s, e);
      StepKeepsSnapshot(s, e);
      SnapshotLasts(Apply(s, e), rest);
    }
  }

  lemma GetStarts(s: State)
    requires Inv(s) && Enabled(s, GetCall) && !s.ring.purge && s.reader.NotReading?
    ensures var t := Apply(s, GetCall);
            && Inv(t) && !t.ring.purge && t.reader.Copying? && t.reader.snap == Queue(s.ring)
            && (t.reader.nPush == t.reader.nPull <==> Queue(s.ring) == [])
  {
    StepRefinesFifo(s, GetCall);
  }

  /** What a get returns whose snapshot was q. */
  function Result(q: seq<byte>, purged: bool): Output {
    var n := Min(|q|, DATA_BUF_SIZE);
    if purged then GetPurged else GetTrue(q[..n], CeilDiv(|q| - n, DATA_BUF_SIZE))
  }

  lemma CommitTells(t: State)
    requires Inv(t) && Enabled(t, GetCommit)
    ensures Out(t, GetCommit) == Result(t.reader.snap, t.ring.purge)
  {
    assert Amount(t) == Min(|t.reader.snap|, DATA_BUF_SIZE);
    assert !t.ring.purge ==> t.ring.dst[..Amount(t)] == t.reader.snap[..Amount(t)] by {
      if !t.ring.purge {
        CopyIsFront(t);
      }
    }
  }

  /** From the snapshot to the commit. */
  lemma SnapshotCommits(u: State, es: seq<Event>)
    requires Inv(u) && u.reader.Copying? && !u.ring.purge && Runs(u, es) && GetCommit !in es
    requires PatientRun(u, es) || (PoliteRun(u, es) && u.reader.nPush != u.reader.nPull)
    requires WellFormed(Exec(u, es)) && Enabled(Exec(u, es), GetCommit)
    ensures Out(Exec(u, es), GetCommit) == Result(u.reader.snap, Purge in es)
  {
    var t := Exec(u, es);
    assert Inv(t) && t.reader.snap == u.reader.snap && (t.ring.purge <==> Purge in es) by {
      SnapshotLasts(u, es);
    }
    CommitTells(t);
  }

  /**
   A get returns FALSE exactly when a purge fell between its snapshot and its
   commit; otherwise it returns the first min(stored, DATA_BUF_SIZE) bytes queued
   at its snapshot, with the number of blocks left behind them. Where there were
   none, this takes the stricter run: a second get can use up the purge flag.
   */
  lemma GetIsExact(s: State, es: seq<Event>)
    requires Inv(s) && Enabled(s, GetCall) && !s.ring.purge && s.reader.NotReading?
    requires Runs(Apply(s, GetCall), es) && GetCommit !in es
    requires PatientRun(Apply(s, GetCall), es) || (PoliteRun(Apply(s, GetCall), es) && Queue(s.ring) != [])
    requires WellFormed(Exec(Apply(s, GetCall), es)) && Enabled(Exec(Apply(s, GetCall), es), GetCommit)
    ensures var n := Min(|Queue(s.ring)|, DATA_BUF_SIZE);
            Out(Exec(Apply(s, GetCall), es), GetCommit) ==
              if Purge in es then GetPurged
              else GetTrue(Queue(s.ring)[..n], CeilDiv(|Queue(s.ring)| - n, DATA_BUF_SIZE))
  {
    GetStarts(s);
    SnapshotCommits(Apply(s, GetCall), es);
  }

  /**
   A put of at most DATA_BUF_SIZE bytes that sleeps needs only one get: any get
   that starts after it went to sleep and returns TRUE leaves room for it.
   */
  lemma OneGetUnblocks(s: State, es: seq<Event>)
    requires Inv(s) && s.producer.Blocked? && |s.producer.src| <= DATA_BUF_SIZE
    requires !s.ring.purge && s.reader.NotReading?
    requires Runs(Apply(s, GetCall), es) && PoliteRun(Apply(s, GetCall), es) && GetCommit !in es
    requires WellFormed(Exec(Apply(s, GetCall), es)) && Enabled(Exec(Apply(s, GetCall), es), GetCommit)
    requires Out(Exec(Apply(s, GetCall), es), GetCommit).GetTrue?
    ensures var t := Exec(Apply(s, GetCall), es);
            var t' := Apply(t, GetCommit);
            && AvailCode(t'.ring.push, t'.ring.pull) >= DATA_BUF_SIZE >= |s.producer.src|
            && (t.producer == s.producer ==> t'.producer == Ready(s.producer.src))
  {
    StepRefinesFifo(s, GetCall);
    SnapshotLasts(Apply(s, GetCall), es);
    var t := Exec(Apply(s, GetCall), es);
    StepRefinesFifo(t, GetCommit);
    var t' := Apply(t, GetCommit);
    CodeFormulas(t'.ring.push, t'.ring.pull);
    assert |Queue(t.ring)| == DATA_BUF_SIZE + |Queue(t'.ring)|;
  }

  /** A purge makes room for every put that can fit at all. */
  lemma PurgeUnblocks(s: State)
    requires Inv(s) && s.producer.Blocked? && |s.producer.src| <= RING_BUF_SIZE - 1
    ensures Apply(s, Purge).producer == Ready(s.producer.src)
    ensures Apply(Apply(s, Purge), PutPass).producer.Writing?
  {
    CodeFormulas(0, 0);
  }

  /** A put of RING_BUF_SIZE bytes or more never gets past its wait loop, whatever the others do. */
  lemma {:induction false} OversizedPutWaitsForever(s: State, es: seq<Event>)
    requires Inv(s) && (s.producer.Ready? || s.producer.Blocked?) && |s.producer.src| >= RING_BUF_SIZE
    requires !s.ring.shutdown && RequestShutdown !in es && Runs(s, es) && PoliteRun(s, es)
    ensures var t := Exec(s, es);
            (t.producer.Ready? || t.producer.Blocked?) && t.producer.src == s.producer.src
    decreases |es|
  {
    if es != [] {
      CodeFormulas(s.ring.push, s.ring.pull);
      StepRefinesFifo(s, es[0]);
      assert es[0] != RequestShutdown;
      OversizedPutWaitsForever(Apply(s, es[0]), es[1..]);
    }
  }

  // ----- one put, byte by byte -----

  function Writes(ks: seq<nat>): (es: seq<Event>)
    ensures |es| == |ks|
  {
    seq(|ks|, i requires 0 <= i < |ks| => PutByte(ks[i]))
  }

  ghost predicate ListsOnce(ks: seq<nat>, todo: set<nat>) {
    && (forall k :: k in todo <==> k in ks)
    && (forall i, j :: 0 <= i < j < |ks| ==> ks[i] != ks[j])
  }

  lemma ListTail(ks: seq<nat>, todo: set<nat>)
    requires ListsOnce(ks, todo) && ks != []
    ensures ks[0] in todo && ListsOnce(ks[1..], todo - {ks[0]})
    ensures Writes(ks) == [PutByte(ks[0])] + Writes(ks[1..])
  {
    forall k | k in ks[1..]
      ensures k in todo && k != ks[0]
    {
      assert k in ks;
    }
    forall k | k in todo && k != ks[0]
      ensures k in ks[1..]
    {
      assert k in ks && ks == [ks[0]] + ks[1..];
    }
  }

  function WrittenAt(s: State, p: nat): byte
    requires WellFormed(s) && s.producer.Writing? && s.producer.todo <= Offsets(|s.producer.src|) && p < RING_BUF_SIZE
  {
    var k := Stored(p, s.ring.push);
    if k in s.producer.todo then s.producer.src[k] else s.ring.buf[p]
  }

  /** The bytes of a memcpy may move in any order, with the same result. */
  lemma {:induction false} AnyOrderWrites(s: State, ks: seq<nat>)
    requires WellFormed(s) && s.producer.Writing? && s.producer.todo <= Offsets(|s.producer.src|)
    requires ListsOnce(ks, s.producer.todo)
    ensures Runs(s, Writes(ks))
    ensures var t := Exec(s, Writes(ks));
            && t == s.(ring := s.ring.(buf := t.ring.buf), producer := s.producer.(todo := {}))
            && |t.ring.buf| == RING_BUF_SIZE
            && forall p :: 0 <= p < RING_BUF_SIZE ==> t.ring.buf[p] == WrittenAt(s, p)
    decreases |ks|
  {
    if ks == [] {
      assert s.producer.todo == {};
    } else {
      ListTail(ks, s.producer.todo);
      var u := Apply(s, PutByte(ks[0]));
      AnyOrderWrites(u, ks[1..]);
      forall p | 0 <= p < RING_BUF_SIZE
        ensures WrittenAt(u, p) == WrittenAt(s, p)
      {
        assert At(s.ring.push, Stored(p, s.ring.push)) == p;
        assert Stored(At(s.ring.push, ks[0]), s.ring.push) == ks[0];
      }
    }
  }

  /**
   The steps of an accepted put, its bytes in any order, add up to PutEffect, the
   contract of put_TsStream's locked stretch.
   */
  lemma PutStepsMakePutEffect(s: State, ks: seq<nat>)
    requires WellFormed(s) && s.producer.Ready? && 1 <= |s.producer.src| <= Free(s.ring)
    requires ListsOnce(ks, Offsets(|s.producer.src|))
    ensures Apply(s, PutPass).producer.Writing? && Runs(Apply(s, PutPass), Writes(ks))
    ensures var t := Exec(Apply(s, PutPass), Writes(ks));
            WellFormed(t) && Enabled(t, PutFinish) && Apply(t, PutFinish).ring == PutEffect(s.ring, s.producer.src)
  {
    CodeFormulas(s.ring.push, s.ring.pull);
    var src, u := s.producer.src, ApplyPutPass(s);
    AnyOrderWrites(u, ks);
    var t := Exec(u, Writes(ks));
    assert t.ring.buf == Overwrite(s.ring.buf, s.ring.push, src);
  }

  // ----- the limit of the guarantee -----

  lemma {:induction false} FinishCopy(s: State) returns (es: seq<Event>)
    requires WellFormed(s) && s.reader.Copying? && s.reader.todo <= Offsets(Amount(s))
    ensures Runs(s, es) && forall e :: e in es ==> e.GetByte?
    ensures Exec(s, es) == s.(ring := s.ring.(dst := Exec(s, es).ring.dst), reader := s.reader.(todo := {}))
    ensures WellFormed(Exec(s, es))
    ensures forall l: Log :: Logged(l, s, es) == l
    decreases s.reader.todo
  {
    if s.reader.todo == {} {
      es := [];
    } else {
      var k :| k in s.reader.todo;
      var tail := FinishCopy(Apply(s, GetByte(k)));
      es := [GetByte(k)] + tail;
    }
  }

  lemma {:induction false} Chain(s: State, es: seq<Event>, fs: seq<Event>, l: Log)
    requires Runs(s, es) && Runs(Exec(s, es), fs)
    ensures Runs(s, es + fs) && Exec(s, es + fs) == Exec(Exec(s, es), fs)
    ensures Logged(l, s, es + fs) == Logged(Logged(l, s, es), Exec(s, es), fs)
    decreases |es|
  {
    if es == [] {
      assert es + fs == fs;
    } else {
      Chain(Apply(s, es[0]), es[1..], fs, Record(l, s, es[0]));
      assert (es + fs)[1..] == es[1..] + fs;
    }
  }

  /** Any unpurged copy, however old its indices, can be finished and handed out. */
  lemma FinishGet(l: Log, s: State) returns (es: seq<Event>)
    requires WellFormed(s) && MutexFree(s) && !s.ring.purge
    requires s.reader.Copying? && s.reader.todo <= Offsets(Amount(s))
    ensures Runs(s, es) && |es| >= 1 && es[|es| - 1] == GetCommit
    ensures forall i :: 0 <= i < |es| - 1 ==> es[i].GetByte?
    ensures Logged(l, s, es).put == l.put && |Logged(l, s, es).got| == |l.got| + Amount(s)
    ensures Wf(Exec(s, es).ring)
  {
    var copies := FinishCopy(s);
    var t := Exec(s, copies);
    assert Runs(t, [GetCommit]);
    Chain(s, copies, [GetCommit], l);
    assert Logged(l, t, [GetCommit]) == Record(l, t, GetCommit);
    es := copies + [GetCommit];
    forall i | 0 <= i < |es| - 1
      ensures es[i].GetByte?
    {
      assert es[i] == copies[i] && copies[i] in copies;
    }
  }

  /** A purge, a second get call, and the rest of the get that was copying. */
  predicate RudeRun(es: seq<Event>) {
    && |es| >= 3 && es[0] == Purge && es[1] == GetCall && es[|es| - 1] == GetCommit
    && (forall i :: 2 <= i < |es| - 1 ==> es[i].GetByte?)
  }

  predicate Unbalances(l: Log, s: State, es: seq<Event>) {
    Runs(s, es) && Wf(Exec(s, es).ring) && !Balanced(Logged(l, s, es), Exec(s, es))
  }

  /**
   From every state in which a get is copying at least one byte, such a run delivers
   bytes although nothing was put since the purge.
   */
  lemma RudeGetDeliversPurgedBytes(l: Log, s: State) returns (es: seq<Event>)
    requires Inv(s) && MutexFree(s) && s.reader.Copying? && Amount(s) > 0
    ensures RudeRun(es) && Runs(s, es) && Wf(Exec(s, es).ring)
    ensures Logged(l, s, es).put == [] && |Logged(l, s, es).got| == Amount(s)
  {
    var s1 := Apply(s, Purge);
    var l1 := Record(l, s, Purge);
    var s2 := ApplyGetCall(s1);
    var l2 := Record(l1, s1, GetCall);
    var rest := FinishGet(l2, s2);
    Prepend(l1, s1, GetCall, rest);
    Prepend(l, s, Purge, [GetCall] + rest);
    es := [Purge] + ([GetCall] + rest);
  }

  lemma {:induction false} NoGetIsPolite(s: State, es: seq<Event>)
    requires Runs(s, es) && GetCall !in es
    ensures PoliteRun(s, es)
    decreases |es|
  {
    if es != [] {
      assert es[0] in es;
      NoGetIsPolite(Apply(s, es[0]), es[1..]);
    }
  }

  /** A rude run over a get that found the ring empty keeps the books. */
  lemma EmptyGetIsSafe(l: Log, s: State, es: seq<Event>)
    requires Inv(s) && Balanced(l, s) && s.reader.Copying? && Amount(s) == 0
    requires RudeRun(es) && Runs(s, es)
    ensures !Unbalances(l, s, es)
  {
    var s1 := Apply(s, Purge);
    assert es[1..][0] == GetCall;
    forall e | e in es[1..][1..]
      ensures e != GetCall
    {
    }
    NoGetIsPolite(Apply(s1, GetCall), es[1..][1..]);
    RunBalances(l, s, es);
  }

  /**
   The guard is exact. A purge and a second get call around a copying get can
   unbalance the books if and only if that get copies at least one byte, which is
   what Polite forbids.
   */
  lemma RudeGetIsHarmfulExactly(l: Log, s: State)
    requires Inv(s) && Balanced(l, s) && MutexFree(s) && s.reader.Copying?
    ensures (exists es :: RudeRun(es) && Unbalances(l, s, es)) <==> Amount(s) > 0
    ensures Amount(s) > 0 <==> !Polite(Apply(s, Purge), GetCall)
  {
    if Amount(s) > 0 {
      var es := RudeGetDeliversPurgedBytes(l, s);
      assert |Logged(l, s, es).got + Queue(Exec(s, es).ring)| > 0;
      assert RudeRun(es) && Unbalances(l, s, es);
    } else {
      forall es | RudeRun(es) && Runs(s, es)
        ensures !Unbalances(l, s, es)
      {
        EmptyGetIsSafe(l, s, es);
      }
    }
  }

  lemma Prepend(l: Log, s: State, e: Event, es: seq<Event>)
    requires WellFormed(s) && Enabled(s, e) && Runs(Apply(s, e), es)
    ensures Runs(s, [e] + es) && Exec(s, [e] + es) == Exec(Apply(s, e), es)
    ensures Logged(l, s, [e] + es) == Logged(Record(l, s, e), Apply(s, e), es)
  {
    assert ([e] + es)[1..] == es;
  }
}
