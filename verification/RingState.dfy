/**
 The memory shared by the threads that use a GrabTsData object, the cyclic
 geometry of its ring buffer, and the byte queue the ring stands for.
 */
module RingState {
  import opened Bytes

  const DATA_BUF_SIZE: nat := 188 * 256
  const RING_BUF_SIZE: nat := DATA_BUF_SIZE * 512

  datatype Ring = Ring(
    buf: seq<byte>, dst: seq<byte>,
    push: nat, pull: nat,
    purge: bool, reading: bool, shutdown: bool,
    accum: nat)

  predicate Wf(r: Ring) {
    |r.buf| == RING_BUF_SIZE && |r.dst| == DATA_BUF_SIZE && r.push < RING_BUF_SIZE && r.pull < RING_BUF_SIZE
  }

  // ----- geometry -----

  /** The ring position k bytes after p. */
  function At(p: nat, k: nat): (q: nat)
    requires p < RING_BUF_SIZE && k <= RING_BUF_SIZE
    ensures q < RING_BUF_SIZE
  {
    if p + k < RING_BUF_SIZE then p + k else p + k - RING_BUF_SIZE
  }

  /** How many bytes lie between the two positions. */
  function Stored(push: nat, pull: nat): (n: nat)
    requires push < RING_BUF_SIZE && pull < RING_BUF_SIZE
    ensures n < RING_BUF_SIZE && At(pull, n) == push
  {
    if push >= pull then push - pull else RING_BUF_SIZE + push - pull
  }

  function Free(r: Ring): nat
    requires Wf(r)
  {
    RING_BUF_SIZE - 1 - Stored(r.push, r.pull)
  }

  /** The n bytes that follow position p along the cycle. */
  function Segment(buf: seq<byte>, p: nat, n: nat): (q: seq<byte>)
    requires |buf| == RING_BUF_SIZE && p < RING_BUF_SIZE && n <= RING_BUF_SIZE
    ensures |q| == n
  {
    seq(n, k requires 0 <= k < n => buf[At(p, k)])
  }

  /** The bytes waiting in the ring, oldest first. */
  function Queue(r: Ring): (q: seq<byte>)
    requires Wf(r)
    ensures |q| == Stored(r.push, r.pull)
  {
    Segment(r.buf, r.pull, Stored(r.push, r.pull))
  }

  /** The fields after a purge. */
  function Purged(r: Ring): Ring {
    r.(push := 0, pull := 0, accum := 0, purge := true)
  }

  // ----- the code's own formulas, in 32-bit unsigned arithmetic -----

  function StoredCode(push: nat, pull: nat): nat {
    Sub32(Add32(RING_BUF_SIZE, push), pull) % RING_BUF_SIZE
  }

  function AvailUnclamped(push: nat, pull: nat): nat {
    Sub32(RING_BUF_SIZE - 1, StoredCode(push, pull))
  }

  function AvailCode(push: nat, pull: nat): nat {
    var nAvail := AvailUnclamped(push, pull);
    if nAvail > RING_BUF_SIZE - 1 then 0 else nAvail
  }

  function CeilDiv(a: nat, b: nat): nat
    requires b > 0
  {
    (a + b - 1) / b
  }

  /** The push position after a put of n bytes, as the two memcpy branches leave it. */
  function NextPush(push: nat, n: nat): nat
    requires push < RING_BUF_SIZE
  {
    var nTail := RING_BUF_SIZE - push;
    if n <= nTail then (if push + n >= RING_BUF_SIZE then 0 else push + n) else n - nTail
  }

  /** The pull position after a get of n bytes, as the two memcpy branches leave it. */
  function NextPull(pull: nat, n: nat): nat
    requires pull < RING_BUF_SIZE
  {
    var nTail := RING_BUF_SIZE - pull;
    if n < nTail then pull + n else n - nTail
  }

  /**
   With both positions inside the ring no unsigned subtraction wraps, the two
   formulas mean what they should, and the defensive clamp is never taken.
   */
  lemma CodeFormulas(push: nat, pull: nat)
    requires push < RING_BUF_SIZE && pull < RING_BUF_SIZE
    ensures StoredCode(push, pull) == Stored(push, pull)
    ensures AvailUnclamped(push, pull) == AvailCode(push, pull) == RING_BUF_SIZE - 1 - Stored(push, pull)
  {
    var x := RING_BUF_SIZE + push - pull;
    assert Add32(RING_BUF_SIZE, push) == RING_BUF_SIZE + push;
    assert Sub32(Add32(RING_BUF_SIZE, push), pull) == x;
    if push >= pull {
      assert x == 1 * RING_BUF_SIZE + (push - pull);
    }
  }

  /** Both branches of put and both branches of get move along the cycle. */
  lemma NextIsAt(p: nat, n: nat)
    requires p < RING_BUF_SIZE && n < RING_BUF_SIZE
    ensures NextPush(p, n) == NextPull(p, n) == At(p, n)
  {
  }

  lemma AtAdd(p: nat, a: nat, b: nat)
    requires p < RING_BUF_SIZE && a + b < RING_BUF_SIZE
    ensures At(At(p, a), b) == At(p, a + b)
  {
  }

  lemma AtInjective(p: nat, a: nat, b: nat)
    requires p < RING_BUF_SIZE && a < RING_BUF_SIZE && b < RING_BUF_SIZE && a != b
    ensures At(p, a) != At(p, b)
  {
  }

  /** The bytes of the first memcpy branch of a get: one straight stretch. */
  lemma SegmentStraight(buf: seq<byte>, p: nat, n: nat)
    requires |buf| == RING_BUF_SIZE && p < RING_BUF_SIZE && n < RING_BUF_SIZE - p
    ensures Segment(buf, p, n) == buf[p..p + n]
  {
  }

  /** The bytes of the second branch: the end of the buffer, then its start. */
  lemma SegmentWrapped(buf: seq<byte>, p: nat, n: nat)
    requires |buf| == RING_BUF_SIZE && p < RING_BUF_SIZE && RING_BUF_SIZE - p <= n <= RING_BUF_SIZE
    ensures Segment(buf, p, n) == buf[p..] + buf[..n - (RING_BUF_SIZE - p)]
  {
  }

  // ----- gets that follow each other undisturbed -----

  /** What one undisturbed get makes of the queue. */
  datatype Taken = Taken(block: seq<byte>, rest: seq<byte>, remain: nat)

  function TakeOne(q: seq<byte>): Taken {
    var n := Min(|q|, DATA_BUF_SIZE);
    Taken(q[..n], q[n..], CeilDiv(|q| - n, DATA_BUF_SIZE))
  }

  function TakeMany(q: seq<byte>, i: nat): (takes: seq<Taken>)
    ensures |takes| == i
  {
    if i == 0 then [] else [TakeOne(q)] + TakeMany(TakeOne(q).rest, i - 1)
  }

  function ReadyCount(q: seq<byte>): nat {
    CeilDiv(|q|, DATA_BUF_SIZE)
  }

  function Left(len: nat, i: nat): nat {
    if i * DATA_BUF_SIZE <= len then len - i * DATA_BUF_SIZE else 0
  }

  lemma LeftAfterOne(len: nat, i: nat)
    ensures Left(len - Min(len, DATA_BUF_SIZE), i) == Left(len, i + 1)
  {
  }

  lemma {:induction false} TakeAt(q: seq<byte>, m: nat, i: nat)
    requires i < m
    ensures |TakeMany(q, m)[i].block| == Min(Left(|q|, i), DATA_BUF_SIZE)
    ensures TakeMany(q, m)[i].remain == CeilDiv(Left(|q|, i + 1), DATA_BUF_SIZE)
    decreases i
  {
    var rest := TakeOne(q).rest;
    assert TakeMany(q, m) == [TakeOne(q)] + TakeMany(rest, m - 1);
    LeftAfterOne(|q|, i);
    if i == 0 {
      assert Left(|q|, 0) == |q|;
      assert Left(|rest|, 0) == |rest|;
    } else {
      assert TakeMany(q, m)[i] == TakeMany(rest, m - 1)[i - 1];
      LeftAfterOne(|q|, i - 1);
      TakeAt(rest, m - 1, i - 1);
    }
  }

  lemma CeilDivBounds(a: nat)
    ensures var n := CeilDiv(a, DATA_BUF_SIZE);
            n * DATA_BUF_SIZE >= a && (n > 0 ==> (n - 1) * DATA_BUF_SIZE < a)
  {
  }

  lemma NoBlocks(a: nat)
    ensures CeilDiv(a, DATA_BUF_SIZE) == 0 <==> a == 0
  {
    CeilDivBounds(a);
  }

  lemma BlockSizes(len: nat, i: nat)
    requires i <= CeilDiv(len, DATA_BUF_SIZE)
    ensures var n := CeilDiv(len, DATA_BUF_SIZE);
            && Min(Left(len, i), DATA_BUF_SIZE)
               == (if i == n then 0 else if i == n - 1 then len - i * DATA_BUF_SIZE else DATA_BUF_SIZE)
            && (i < n ==> Left(len, i) > 0)
            && CeilDiv(Left(len, i + 1), DATA_BUF_SIZE) == (if i == n then 0 else n - 1 - i)
  {
    var n := CeilDiv(len, DATA_BUF_SIZE);
    CeilDivBounds(len);
    if i < n {
      CeilDivBounds(Left(len, i + 1));
    }
  }

  /**
   A ready count is a drain count: exactly that many gets return data. All but the
   last fill the destination buffer, the last returns the rest, the remain counts
   run down to zero, and the next get finds nothing.
   */
  lemma ReadyCountIsDrainCount(q: seq<byte>, i: nat)
    requires |q| < RING_BUF_SIZE && i <= ReadyCount(q)
    ensures var n := ReadyCount(q);
            var takes := TakeMany(q, n + 1);
            && n <= 512 && |takes| == n + 1
            && |takes[i].block| == (if i == n then 0 else if i == n - 1 then |q| - i * DATA_BUF_SIZE else DATA_BUF_SIZE)
            && (i < n ==> takes[i].block != [])
            && takes[i].remain == (if i == n then 0 else n - 1 - i)
  {
    TakeAt(q, ReadyCount(q) + 1, i);
    BlockSizes(|q|, i);
  }

  // ----- what an index movement does to the queue -----

  /** Publishing n written bytes appends them, up to RING_BUF_SIZE - 1 and never more. */
  lemma Append(r: Ring, src: seq<byte>)
    requires Wf(r) && |src| <= Free(r)
    requires forall k :: 0 <= k < |src| ==> r.buf[At(r.push, k)] == src[k]
    ensures var r' := r.(push := NextPush(r.push, |src|));
            Wf(r') && Queue(r') == Queue(r) + src && |Queue(r')| <= RING_BUF_SIZE - 1
  {
    NextIsAt(r.push, |src|);
    var r' := r.(push := NextPush(r.push, |src|));
    var n := Stored(r.push, r.pull);
    assert Stored(r'.push, r'.pull) == n + |src|;
    forall k | 0 <= k < n + |src|
      ensures Queue(r')[k] == (Queue(r) + src)[k]
    {
      if k >= n {
        AtAdd(r.pull, n, k - n);
      }
    }
  }

  /** Moving the pull position by n drops exactly the n oldest bytes. */
  lemma Drop(r: Ring, n: nat)
    requires Wf(r) && n <= Stored(r.push, r.pull)
    ensures var r' := r.(pull := NextPull(r.pull, n));
            Wf(r') && Queue(r') == Queue(r)[n..]
  {
    NextIsAt(r.pull, n);
    var r' := r.(pull := NextPull(r.pull, n));
    forall k | 0 <= k < |Queue(r)| - n
      ensures |Queue(r')| == |Queue(r)| - n && Queue(r')[k] == Queue(r)[n..][k]
    {
      AtAdd(r.pull, n, k);
    }
  }

  /** A byte written into free space is not a byte of the queue. */
  lemma WriteOutside(r: Ring, k: nat, b: byte)
    requires Wf(r) && k < Free(r)
    ensures var r' := r.(buf := r.buf[At(r.push, k) := b]);
            Wf(r') && Queue(r') == Queue(r)
    ensures forall j :: 0 <= j < Stored(r.push, r.pull) ==> At(r.pull, j) != At(r.push, k)
  {
    var n := Stored(r.push, r.pull);
    AtAdd(r.pull, n, k);
    forall j | 0 <= j < n
      ensures At(r.pull, j) != At(r.push, k)
    {
      AtInjective(r.pull, j, n + k);
    }
  }

  // ----- the whole effect of a put -----

  /** The buffer after src has been written along the cycle from push on. */
  function Overwrite(buf: seq<byte>, push: nat, src: seq<byte>): (r: seq<byte>)
    requires |buf| == RING_BUF_SIZE && push < RING_BUF_SIZE
    ensures |r| == RING_BUF_SIZE
  {
    seq(RING_BUF_SIZE, p requires 0 <= p < RING_BUF_SIZE =>
      if Stored(p, push) < |src| then src[Stored(p, push)] else buf[p])
  }

  function PutEffect(r: Ring, src: seq<byte>): Ring
    requires Wf(r)
  {
    r.(accum := r.accum + |src|, buf := Overwrite(r.buf, r.push, src), push := NextPush(r.push, |src|))
  }

  lemma OverwriteWritesSrc(buf: seq<byte>, push: nat, src: seq<byte>)
    requires |buf| == RING_BUF_SIZE && push < RING_BUF_SIZE && |src| < RING_BUF_SIZE
    ensures forall k :: 0 <= k < |src| ==> Overwrite(buf, push, src)[At(push, k)] == src[k]
  {
    forall k | 0 <= k < |src|
      ensures Overwrite(buf, push, src)[At(push, k)] == src[k]
    {
      assert Stored(At(push, k), push) == k;
    }
  }

  /** An accepted put appends its bytes to the queue. */
  lemma PutEffectAppends(r: Ring, src: seq<byte>)
    requires Wf(r) && |src| <= Free(r)
    ensures Wf(PutEffect(r, src)) && Queue(PutEffect(r, src)) == Queue(r) + src
  {
    OverwriteWritesSrc(r.buf, r.push, src);
    var w := r.(accum := r.accum + |src|, buf := Overwrite(r.buf, r.push, src));
    forall j | 0 <= j < |Queue(r)|
      ensures Queue(w)[j] == Queue(r)[j]
    {
      assert Stored(At(r.pull, j), r.push) >= |src|;
    }
    assert Queue(w) == Queue(r);
    Append(w, src);
  }

  /** The bytes of the first memcpy branch: one straight stretch. */
  lemma OverwriteStraight(buf: seq<byte>, push: nat, src: seq<byte>)
    requires |buf| == RING_BUF_SIZE && push < RING_BUF_SIZE && |src| <= RING_BUF_SIZE - push
    ensures Overwrite(buf, push, src) == buf[..push] + src + buf[push + |src|..]
  {
  }

  /** The bytes of the second branch: the end of the buffer, then its start. */
  lemma OverwriteWrapped(buf: seq<byte>, push: nat, src: seq<byte>)
    requires |buf| == RING_BUF_SIZE && push < RING_BUF_SIZE && RING_BUF_SIZE - push < |src| < RING_BUF_SIZE
    ensures var nTail := RING_BUF_SIZE - push;
            Overwrite(buf, push, src) == src[nTail..] + buf[|src| - nTail..push] + src[..nTail]
  {
  }
}
