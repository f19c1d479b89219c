/**
 The GrabTsData object itself, with its two byte buffers updated in place. Each
 method is one stretch of code that runs without interference, and its contract
 names the step of RingSystem it carries out.
 */
module GrabTsDataClass {
  import opened Bytes
  import opened Memory
  import opened RingState
  import opened RingSystem

  datatype PassResult = Accepted | Refused | MustWait

  /** The fields as other threads have left them when pthread_cond_wait returns. */
  datatype Others = Others(push: nat, pull: nat, purge: bool, reading: bool, shutdown: bool, accum: nat)

  /** The ring at put's k-th pass: as it was at first, then as each wake finds it. */
  function Seen(r: Ring, wakes: seq<Others>, k: nat): Ring
    requires k <= |wakes|
  {
    if k == 0 then r
    else
      var w := wakes[k - 1];
      r.(push := w.push, pull := w.pull, purge := w.purge, reading := w.reading,
         shutdown := w.shutdown, accum := w.accum)
  }

  predicate InRing(wakes: seq<Others>) {
    forall k :: 0 <= k < |wakes| ==> wakes[k].push < RING_BUF_SIZE && wakes[k].pull < RING_BUF_SIZE
  }

  /** A pass that ends put's wait loop. */
  predicate Decides(r: Ring, size: nat)
    requires Wf(r)
  {
    size <= Free(r) || r.shutdown
  }

  /** The first pass that decides, if there is one among those from k on. */
  function FirstDecision(r: Ring, wakes: seq<Others>, size: nat, k: nat): (d: nat)
    requires Wf(r) && InRing(wakes) && k <= |wakes| + 1
    ensures k <= d <= |wakes| + 1
    ensures d <= |wakes| ==> Decides(Seen(r, wakes, d), size)
    ensures forall j :: k <= j < d ==> !Decides(Seen(r, wakes, j), size)
    decreases |wakes| + 1 - k
  {
    if k > |wakes| || Decides(Seen(r, wakes, k), size) then k else FirstDecision(r, wakes, size, k + 1)
  }

  /** The two memcpy calls of the wrapping branch, as the buffer looks before, between and after them. */
  lemma TwoCopies(buf: seq<byte>, mid: seq<byte>, end: seq<byte>, push: nat, src: seq<byte>)
    requires |buf| == RING_BUF_SIZE && push < RING_BUF_SIZE && RING_BUF_SIZE - push < |src| < RING_BUF_SIZE
    requires mid == buf[..push] + src[..RING_BUF_SIZE - push] + buf[RING_BUF_SIZE..]
    requires end == mid[..0] + src[RING_BUF_SIZE - push..] + mid[|src| - (RING_BUF_SIZE - push)..]
    ensures end == Overwrite(buf, push, src)
  {
    var nTail := RING_BUF_SIZE - push;
    OverwriteWrapped(buf, push, src);
    assert mid[|src| - nTail..] == buf[|src| - nTail..push] + src[..nTail];
  }

  class GrabTsData {
    const m_pBuf: array<byte>
    const m_pDst: array<byte>
    var m_nPush: nat
    var m_nPull: nat
    var m_bPurge: bool
    var m_bReading: bool
    var m_bShutdown: bool
    var m_nAccumData: nat
    var m_ui64LastTime: nat

    ghost predicate Valid()
      reads this
    {
      && m_pBuf != m_pDst
      && m_pBuf.Length == RING_BUF_SIZE && m_pDst.Length == DATA_BUF_SIZE
      && m_nPush < RING_BUF_SIZE && m_nPull < RING_BUF_SIZE
    }

    function View(): Ring
      reads this, m_pBuf, m_pDst
    {
      Ring(m_pBuf[..], m_pDst[..], m_nPush, m_nPull, m_bPurge, m_bReading, m_bShutdown, m_nAccumData)
    }

    constructor (now: nat)
      ensures m_ui64LastTime == now
      ensures Valid() && fresh(m_pBuf) && fresh(m_pDst) && m_pDst.Length == 48128 && m_pBuf.Length == 24641536
      ensures Init(State(View(), NotPutting, NotReading, Away))
    {
      m_nAccumData := 0;
      m_bPurge := false;
      m_nPush := 0;
      m_nPull := 0;
      m_bReading := false;
      m_bShutdown := false;
      m_pDst := new byte[DATA_BUF_SIZE];
      m_pBuf := new byte[RING_BUF_SIZE];
      m_ui64LastTime := now;
    }

    /** The copy of put_TsStream: both branches of its memcpy. */
    method CopyIn(pSrc: array<byte>, dwSize: nat) returns (nPush: nat)
      requires Valid() && pSrc != m_pBuf && 1 <= dwSize <= pSrc.Length && dwSize < RING_BUF_SIZE
      modifies m_pBuf
      ensures m_pBuf[..] == Overwrite(old(m_pBuf[..]), m_nPush, pSrc[..dwSize])
      ensures nPush == NextPush(m_nPush, dwSize)
    {
      nPush := m_nPush;
      var nTail := RING_BUF_SIZE - nPush;
      if dwSize <= nTail {
        OverwriteStraight(m_pBuf[..], nPush, pSrc[..dwSize]);
        CopyMemory(m_pBuf, nPush, pSrc, 0, dwSize);
        nPush := nPush + dwSize;
        if nPush >= RING_BUF_SIZE {
          nPush := 0;
        }
      } else {
        CopyWrapped(pSrc, dwSize);
        nPush := dwSize - nTail;
      }
    }

    method CopyWrapped(pSrc: array<byte>, dwSize: nat)
      requires Valid() && pSrc != m_pBuf && RING_BUF_SIZE - m_nPush < dwSize <= pSrc.Length && dwSize < RING_BUF_SIZE
      modifies m_pBuf
      ensures m_pBuf[..] == Overwrite(old(m_pBuf[..]), m_nPush, pSrc[..dwSize])
    {
      var nTail := RING_BUF_SIZE - m_nPush;
      ghost var buf, src := m_pBuf[..], pSrc[..dwSize];
      CopyMemory(m_pBuf, m_nPush, pSrc, 0, nTail);
      ghost var mid := m_pBuf[..];
      CopyMemory(m_pBuf, 0, pSrc, nTail, dwSize - nTail);
      TwoCopies(buf, mid, m_pBuf[..], m_nPush, src);
    }

    /** One pass of put_TsStream's wait loop under the mutex, with the copy if there is room. */
    method PutPass(pSrc: array<byte>, dwSize: nat) returns (r: PassResult)
      requires Valid() && pSrc != m_pBuf && 1 <= dwSize <= pSrc.Length && dwSize < TWO32
      modifies this`m_nAccumData, this`m_nPush, m_pBuf
      ensures Valid()
      ensures r.Accepted? <==> dwSize <= Free(old(View()))
      ensures r.Refused? <==> dwSize > Free(old(View())) && m_bShutdown
      ensures View() == if r.Accepted? then PutEffect(old(View()), pSrc[..dwSize]) else old(View())
      ensures r.Accepted? ==> Queue(View()) == old(Queue(View())) + pSrc[..dwSize]
    {
      CodeFormulas(m_nPush, m_nPull);
      var nPush := m_nPush;
      var nPull := m_nPull;
      var nAvail := Sub32(RING_BUF_SIZE - 1, Sub32(Add32(RING_BUF_SIZE, nPush), nPull) % RING_BUF_SIZE);
      if nAvail > RING_BUF_SIZE - 1 {
        nAvail := 0;
      }
      if nAvail < dwSize {
        return if m_bShutdown then Refused else MustWait;
      }
      PutEffectAppends(View(), pSrc[..dwSize]);
      m_nAccumData := m_nAccumData + dwSize;
      nPush := CopyIn(pSrc, dwSize);
      m_nPush := nPush;
      r := Accepted;
    }

    /**
     put_TsStream. Each of its waits ends with the next of wakes; MustWait means that
     it is still waiting after the last. It ends at the first pass with room for the
     bytes or with a shutdown request, and room counts first.
     */
    method put_TsStream(pSrc: array<byte>, dwSize: nat, wakes: seq<Others>) returns (r: PassResult)
      requires Valid() && pSrc != m_pBuf && dwSize <= pSrc.Length && dwSize < TWO32 && InRing(wakes)
      modifies this`m_nAccumData, this`m_nPush, this`m_nPull, this`m_bPurge, this`m_bReading, this`m_bShutdown, m_pBuf
      ensures Valid()
      ensures dwSize < 1 ==> r.Refused? && View() == old(View())
      ensures dwSize >= 1 ==>
                var d := FirstDecision(old(View()), wakes, dwSize, 0);
                if d > |wakes| then r.MustWait?
                else if dwSize <= Free(Seen(old(View()), wakes, d)) then
                  r.Accepted? && View() == PutEffect(Seen(old(View()), wakes, d), pSrc[..dwSize])
                else r.Refused? && View() == Seen(old(View()), wakes, d)
    {
      if dwSize < 1 {
        return Refused;
      }
      ghost var start := View();
      r := PutPass(pSrc, dwSize);
      var k := 0;
      while r.MustWait? && k < |wakes|
        invariant k <= |wakes| && Valid()
        invariant FirstDecision(start, wakes, dwSize, 0) >= k
        invariant r.Accepted? ==> dwSize <= Free(Seen(start, wakes, k)) && View() == PutEffect(Seen(start, wakes, k), pSrc[..dwSize])
        invariant !r.Accepted? ==> View() == Seen(start, wakes, k) && dwSize > Free(View()) && r.Refused? == m_bShutdown
        decreases |wakes| - k
      {
        Resume(wakes[k]);
        k := k + 1;
        r := PutPass(pSrc, dwSize);
      }
    }

    /** What a wait makes visible. */
    method Resume(w: Others)
      requires Valid() && w.push < RING_BUF_SIZE && w.pull < RING_BUF_SIZE
      modifies this`m_nAccumData, this`m_nPush, this`m_nPull, this`m_bPurge, this`m_bReading, this`m_bShutdown
      ensures Valid() && View() == Seen(old(View()), [w], 1)
    {
      m_nPush, m_nPull, m_bPurge := w.push, w.pull, w.purge;
      m_bReading, m_bShutdown, m_nAccumData := w.reading, w.shutdown, w.accum;
    }

    /** The first locked stretch of get_TsStream. */
    method GetBegin() returns (started: bool, nPush: nat, nPull: nat)
      requires Valid()
      modifies this`m_bPurge, this`m_bReading
      ensures Valid() && started == (!old(m_bPurge) && !old(m_bReading))
      ensures View() == BeginGet(old(View()))
      ensures nPush == m_nPush && nPull == m_nPull
    {
      nPush, nPull := m_nPush, m_nPull;
      if m_bPurge {
        m_bPurge := false;
        return false, nPush, nPull;
      }
      if m_bReading {
        return false, nPush, nPull;
      }
      m_bReading := true;
      started := true;
    }

    /** The unlocked stretch of get_TsStream: both branches of its memcpy. */
    method GetCopy(nPush: nat, nPull: nat) returns (nData: nat, nRemain: nat, next: nat)
      requires Valid() && nPush < RING_BUF_SIZE && nPull < RING_BUF_SIZE
      modifies m_pDst
      ensures nData == CopySize(nPush, nPull) && nRemain == Stored(nPush, nPull) - nData
      ensures nData > 0 ==> next == NextPull(nPull, nData)
      ensures m_pDst[..nData] == Segment(m_pBuf[..], nPull, nData)
    {
      CodeFormulas(nPush, nPull);
      var nTail := RING_BUF_SIZE - nPull;
      nData := Sub32(Add32(RING_BUF_SIZE, nPush), nPull) % RING_BUF_SIZE;
      nRemain := nData;
      next := nPull;
      if nData > 0 {
        nData := Min(nData, DATA_BUF_SIZE);
        next := CopyOut(nPull, nData);
        nRemain := nRemain - nData;
      }
    }

    method CopyOut(nPull: nat, nData: nat) returns (next: nat)
      requires Valid() && nPull < RING_BUF_SIZE && 1 <= nData <= DATA_BUF_SIZE
      modifies m_pDst
      ensures next == NextPull(nPull, nData)
      ensures m_pDst[..nData] == Segment(m_pBuf[..], nPull, nData)
    {
      var nTail := RING_BUF_SIZE - nPull;
      if nData < nTail {
        SegmentStraight(m_pBuf[..], nPull, nData);
        CopyMemory(m_pDst, 0, m_pBuf, nPull, nData);
        next := nPull + nData;
      } else {
        SegmentWrapped(m_pBuf[..], nPull, nData);
        CopyMemory(m_pDst, 0, m_pBuf, nPull, nTail);
        assert m_pDst[..nTail] == m_pBuf[nPull..];
        CopyMemory(m_pDst, nTail, m_pBuf, 0, nData - nTail);
        next := nData - nTail;
      }
    }

    /** The last locked stretch of get_TsStream. */
    method GetEnd(nPush: nat, nPull: nat, nData: nat, next: nat) returns (ok: bool)
      requires Valid() && nPush < RING_BUF_SIZE && nPull < RING_BUF_SIZE
      requires nData == CopySize(nPush, nPull) && (nData > 0 ==> next == NextPull(nPull, nData))
      modifies this`m_nPull, this`m_bReading
      ensures Valid() && ok == !m_bPurge
      ensures View() == EndGet(old(View()), nPull, nData)
    {
      if m_bPurge {
        m_bReading := false;
        return false;
      }
      if nData > 0 {
        m_nPull := next;
      }
      m_bReading := false;
      ok := true;
    }

    /**
     A whole get_TsStream that nothing interrupts. It reports a pending purge once,
     refuses to run beside another get, and otherwise takes the front of the queue.
     */
    method get_TsStream() returns (ok: bool, dwSize: nat, dwRemain: nat)
      requires Valid()
      modifies this`m_bPurge, this`m_bReading, this`m_nPull, m_pDst
      ensures Valid() && ok == (!old(m_bPurge) && !old(m_bReading))
      ensures !ok ==> View() == old(View()).(purge := false) && Queue(View()) == old(Queue(View()))
      ensures ok ==> dwSize <= DATA_BUF_SIZE
                     && Taken(m_pDst[..dwSize], Queue(View()), dwRemain) == TakeOne(old(Queue(View())))
      ensures ok ==> View() == old(View()).(dst := m_pDst[..], pull := m_nPull)
    {
      ghost var r := View();
      var started, nPush, nPull := GetBegin();
      if !started {
        assert Queue(View()) == Queue(r);
        return false, 0, 0;
      }
      var nData, nRemain, next := GetCopy(nPush, nPull);
      assert m_pDst[..nData] == Queue(r)[..nData];
      Drop(r, nData);
      assert NextPull(nPull, 0) == nPull;
      ok := GetEnd(nPush, nPull, nData, next);
      assert Queue(View()) == Queue(r.(pull := NextPull(r.pull, nData)));
      dwSize, dwRemain := nData, CeilDiv(nRemain, DATA_BUF_SIZE);
    }

    method purge_TsStream()
      requires Valid()
      modifies this`m_nPull, this`m_nPush, this`m_nAccumData, this`m_bPurge
      ensures Valid() && Queue(View()) == []
      ensures View() == Purged(old(View()))
    {
      m_nPull, m_nPush := 0, 0;
      m_nAccumData := 0;
      m_bPurge := true;
    }

    method RequestShutdown()
      requires Valid()
      modifies this`m_bShutdown
      ensures Valid() && View() == old(View()).(shutdown := true)
    {
      m_bShutdown := true;
    }

    method ResetShutdown()
      requires Valid()
      modifies this`m_bShutdown
      ensures Valid() && View() == old(View()).(shutdown := false)
    {
      m_bShutdown := false;
    }

    /** get_Bitrate's accounting: a window of at least a second takes the accumulator, in 64-bit time. */
    method get_Bitrate(now: nat) returns (window: nat, taken: nat)
      requires Valid() && now < TWO32 * TWO32
      modifies this`m_nAccumData, this`m_ui64LastTime
      ensures Valid() && window == (now - old(m_ui64LastTime)) % (TWO32 * TWO32)
      ensures taken + m_nAccumData == old(m_nAccumData)
      ensures if window >= 1000 then m_nAccumData == 0 && m_ui64LastTime == now
              else taken == 0 && m_ui64LastTime == old(m_ui64LastTime)
    {
      window := (now - m_ui64LastTime) % (TWO32 * TWO32);
      taken := 0;
      if window >= 1000 {
        taken := m_nAccumData;
        m_nAccumData := 0;
        m_ui64LastTime := now;
      }
    }

    method get_ReadyCount() returns (dwRemain: nat)
      requires Valid()
      ensures dwRemain == ReadyCount(Queue(View()))
      ensures dwRemain <= 512 && (dwRemain == 0 <==> Queue(View()) == [])
    {
      CodeFormulas(m_nPush, m_nPull);
      dwRemain := CeilDiv(Sub32(Add32(RING_BUF_SIZE, m_nPush), m_nPull) % RING_BUF_SIZE, DATA_BUF_SIZE);
    }
  }
}
