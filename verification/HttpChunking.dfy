/** When the header scanner's answer depends on how recv cut the stream, and when not. */
module HttpChunking {
  import opened Bytes
  import opened HttpHeader

  lemma FlattenCons(c: seq<byte>, cs: seq<seq<byte>>)
    ensures Flatten([c] + cs) == c + Flatten(cs)
    ensures Flatten([c]) == c
  {
    assert ([c] + cs)[1..] == cs;
    assert [c][1..] == [];
    assert c + [] == c;
  }

  lemma {:induction false} FlattenAppend(cs: seq<seq<byte>>, ds: seq<seq<byte>>)
    ensures Flatten(cs + ds) == Flatten(cs) + Flatten(ds)
  {
    if cs == [] {
      assert cs + ds == ds;
    } else {
      assert (cs + ds)[1..] == cs[1..] + ds;
      FlattenAppend(cs[1..], ds);
      assert cs[0] + (Flatten(cs[1..]) + Flatten(ds)) == Flatten(cs) + Flatten(ds);
    }
  }

  /** The first block of acc is read as the first block of the whole stream. */
  lemma SameBlock(acc: seq<byte>, t: seq<byte>)
    requires HasTerm(acc) && !BlankStatus(Head(acc))
    ensures HasTerm(acc + t) && HeadLen(acc + t) == HeadLen(acc) && Head(acc + t) == Head(acc)
    ensures Classify(acc) == Classify(Head(acc))
    ensures (acc + t)[HeadLen(acc)..] == acc[HeadLen(acc)..] + t
  {
    var h := HeadLen(acc);
    BlockIsStable(acc, t);
    assert Head(acc) + acc[h..] == acc;
    ClassifyIsStable(Head(acc), acc[h..]);
  }

  /** The last n bytes of acc hold the end of every terminator in it. */
  predicate TermsEndLate(acc: seq<byte>, n: nat) {
    forall p :: 0 <= p < |acc| && TermAt(acc, p) ==> p + 4 > |acc| - n
  }

  lemma EraseKeepsLate(acc: seq<byte>, n: nat)
    requires HasTerm(acc) && TermsEndLate(acc, n)
    ensures TermsEndLate(acc[HeadLen(acc)..], n)
  {
    var h := HeadLen(acc);
    forall p | 0 <= p < |acc| - h && TermAt(acc[h..], p)
      ensures p + 4 > |acc| - h - n
    {
      assert TermAt(acc, h + p);
    }
  }

  lemma AppendMakesLate(acc: seq<byte>, c: seq<byte>)
    requires !HasTerm(acc)
    ensures TermsEndLate(acc + c, |c|)
  {
    forall p | 0 <= p < |acc + c| && TermAt(acc + c, p)
      ensures p + 4 > |acc|
    {
      assert p + 4 <= |acc| ==> TermAt(acc, p);
    }
  }

  // ----- a status line without a status -----

  /** With a blank status the scanner takes the code from the bytes after the header. */
  lemma BlankReads(b: seq<byte>, t: seq<byte>)
    requires HasTerm(b) && HeadLen(b) == |b| && BlankStatus(b)
    ensures HasTerm(b + t)
    ensures Classify(b + t) == if 100 <= Atoi(t) <= 199 then Interim else Final(Atoi(t))
  {
    var sp := FindSpace(b, 0);
    BlockIsStable(b, t);
    StatusFields(b, t);
    var a := b[sp + 1..];
    assert AllSpace(a);
    AtoiSkips(a, t);
    assert (b + t)[sp + 1..] == a + t;
  }

  /** No digits read as 0, and the digit '2' as 2. */
  lemma BlankCodes(b: seq<byte>)
    requires HasTerm(b) && HeadLen(b) == |b| && BlankStatus(b)
    ensures Classify(b) == Final(0)
    ensures HasTerm(b + [50]) && Classify(b + [50]) == Final(2)
  {
    BlankReads(b, []);
    assert b + [] == b;
    BlankReads(b, [50]);
    assert [50][1..] == [];
    assert Digits([50], 0) == Digits([50][1..], 2) == 2;
  }

  /** Where no code can follow, a blank status reads as 0 in the accumulator. */
  lemma BlankIsZero(acc: seq<byte>, n: nat, t: seq<byte>)
    requires HasTerm(acc) && TermsEndLate(acc, n) && n <= RECV_MAX
    requires BlankStatus(Head(acc)) && ReadsZero(acc[HeadLen(acc)..] + t)
    ensures Classify(acc) == Final(0)
  {
    var h := HeadLen(acc);
    var late := acc[h..];
    var window := (late + t)[..Min(|late + t|, RECV_MAX - 1)];
    assert TermAt(acc, h - 4);
    assert window == late + window[|late|..];
    AtoiOfPrefix(late, window[|late|..]);
    assert Head(acc) + late == acc;
    BlankReads(Head(acc), late);
  }

  // ----- the same answer for every chunking -----

  /**
   Wherever the reference reading is definite, recvHeader gives its answer for
   every way of cutting the stream into pieces; n is the length of the last piece.
   */
  lemma {:induction false} DefiniteForEveryChunking(acc: seq<byte>, n: nat, chunks: seq<seq<byte>>, stream: seq<byte>, reset: bool)
    requires |acc| <= HEADER_MAX + RECV_MAX && TermsEndLate(acc, n) && n <= RECV_MAX
    requires forall c :: c in chunks ==> 1 <= |c| <= RECV_MAX
    requires stream == acc + Flatten(chunks) && Judge(stream, reset).Definite?
    ensures Meaning(Receive(acc, chunks, reset)) == Judge(stream, reset).answer
    decreases |chunks|, |acc|
  {
    if HasTerm(acc) {
      DefiniteBlock(acc, n, chunks, stream, reset);
      if Classify(acc).Interim? {
        EraseKeepsLate(acc, n);
        DefiniteForEveryChunking(acc[HeadLen(acc)..], n, chunks, stream[HeadLen(acc)..], reset);
      }
    } else if |acc| > HEADER_MAX {
      if HasTerm(stream) {
        NoTermYet(acc, Flatten(chunks));
      }
    } else if chunks == [] {
      assert stream == acc;
    } else {
      AppendMakesLate(acc, chunks[0]);
      assert stream == (acc + chunks[0]) + Flatten(chunks[1..]);
      DefiniteForEveryChunking(acc + chunks[0], |chunks[0]|, chunks[1..], stream, reset);
    }
  }

  /** The first block of the accumulator is the first block of the stream. */
  lemma BlockInStream(acc: seq<byte>, t: seq<byte>)
    requires HasTerm(acc)
    ensures HasTerm(acc + t) && HeadLen(acc + t) == HeadLen(acc) && Head(acc + t) == Head(acc)
    ensures (acc + t)[HeadLen(acc)..] == acc[HeadLen(acc)..] + t
  {
    BlockIsStable(acc, t);
  }

  /** A complete block in the accumulator is read as in the stream. */
  lemma DefiniteBlock(acc: seq<byte>, n: nat, chunks: seq<seq<byte>>, stream: seq<byte>, reset: bool)
    requires |acc| <= HEADER_MAX + RECV_MAX && HasTerm(acc) && TermsEndLate(acc, n) && n <= RECV_MAX
    requires stream == acc + Flatten(chunks) && Judge(stream, reset).Definite?
    ensures HasTerm(stream) && HeadLen(stream) == HeadLen(acc)
    ensures stream[HeadLen(acc)..] == acc[HeadLen(acc)..] + Flatten(chunks)
    ensures !Classify(acc).Interim? ==> Meaning(Receive(acc, chunks, reset)) == Judge(stream, reset).answer
    ensures Classify(acc).Interim? ==> Judge(stream, reset) == Judge(stream[HeadLen(acc)..], reset)
  {
    BlockInStream(acc, Flatten(chunks));
    if BlankStatus(Head(acc)) {
      DefiniteBlank(acc, n, chunks, reset);
    } else {
      SameBlock(acc, Flatten(chunks));
    }
  }

  lemma DefiniteBlank(acc: seq<byte>, n: nat, chunks: seq<seq<byte>>, reset: bool)
    requires |acc| <= HEADER_MAX + RECV_MAX && HasTerm(acc) && TermsEndLate(acc, n) && n <= RECV_MAX
    requires BlankStatus(Head(acc)) && Judge(acc + Flatten(chunks), reset).Definite?
    ensures Classify(acc) == Final(0)
    ensures Meaning(Receive(acc, chunks, reset)) == Judge(acc + Flatten(chunks), reset).answer
  {
    BlockInStream(acc, Flatten(chunks));
    BlankIsZero(acc, n, Flatten(chunks));
  }

  // ----- chunkings that reach a given end -----

  /** Pieces as large as recv allows. */
  function Greedy(s: seq<byte>): (cs: seq<seq<byte>>)
    ensures Delivers(cs, s)
  {
    if s == [] then []
    else if |s| <= RECV_MAX then
      FlattenCons(s, []);
      [s]
    else [s[..RECV_MAX]] + Greedy(s[RECV_MAX..])
  }

  /** Pieces of a block whose partial sums stay within HEADER_MAX as long as they can. */
  function Pieces(b: seq<byte>): (cs: seq<seq<byte>>)
    requires 1 <= |b| <= HEADER_MAX + RECV_MAX
    ensures Delivers(cs, b)
  {
    if |b| <= RECV_MAX then
      FlattenCons(b, []);
      [b]
    else if |b| <= HEADER_MAX then
      FlattenCons(b[..RECV_MAX], [b[RECV_MAX..]]);
      FlattenCons(b[RECV_MAX..], []);
      [b[..RECV_MAX]] + [b[RECV_MAX..]]
    else
      FlattenCons(b[..RECV_MAX], [b[RECV_MAX..HEADER_MAX]] + [b[HEADER_MAX..]]);
      FlattenCons(b[RECV_MAX..HEADER_MAX], [b[HEADER_MAX..]]);
      FlattenCons(b[HEADER_MAX..], []);
      [b[..RECV_MAX]] + ([b[RECV_MAX..HEADER_MAX]] + [b[HEADER_MAX..]])
  }

  lemma PrefixHasNoTerm(s: seq<byte>, n: nat)
    requires n <= |s| && (HasTerm(s) ==> n < HeadLen(s))
    ensures !HasTerm(s[..n])
  {
    assert s[..n] + s[n..] == s;
    if HasTerm(s[..n]) {
      BlockIsStable(s[..n], s[n..]);
    }
  }

  /** One recv on a stream whose first block is not complete yet. */
  lemma OneRecv(acc: seq<byte>, c: seq<byte>, more: seq<seq<byte>>, reset: bool)
    requires !HasTerm(acc) && |acc| <= HEADER_MAX
    ensures Receive(acc, [c] + more, reset) == Receive(acc + c, more, reset)
  {
    assert ([c] + more)[1..] == more;
  }

  lemma TwoRecvs(c0: seq<byte>, c1: seq<byte>, more: seq<seq<byte>>, reset: bool)
    requires !HasTerm([]) && !HasTerm(c0) && |c0| <= HEADER_MAX
    ensures Receive([], [c0] + ([c1] + more), reset) == Receive(c0 + c1, more, reset)
  {
    OneRecv([], c0, [c1] + more, reset);
    assert [] + c0 == c0;
    OneRecv(c0, c1, more, reset);
  }

  lemma ThreeRecvs(c0: seq<byte>, c1: seq<byte>, c2: seq<byte>, more: seq<seq<byte>>, reset: bool)
    requires !HasTerm([]) && !HasTerm(c0) && !HasTerm(c0 + c1) && |c0 + c1| <= HEADER_MAX
    ensures Receive([], ([c0] + ([c1] + [c2])) + more, reset) == Receive((c0 + c1) + c2, more, reset)
  {
    assert ([c0] + ([c1] + [c2])) + more == [c0] + ([c1] + ([c2] + more));
    TwoRecvs(c0, c1, [c2] + more, reset);
    OneRecv(c0 + c1, c2, more, reset);
  }

  lemma PiecesAreTaken(b: seq<byte>, more: seq<seq<byte>>, reset: bool)
    requires 1 <= |b| <= HEADER_MAX + RECV_MAX && (HasTerm(b) ==> HeadLen(b) == |b|)
    ensures Receive([], Pieces(b) + more, reset) == Receive(b, more, reset)
  {
    PrefixHasNoTerm(b, 0);
    assert b[..0] == [];
    if |b| <= RECV_MAX {
      OneRecv([], b, more, reset);
      assert [] + b == b;
    } else {
      PrefixHasNoTerm(b, RECV_MAX);
      if |b| <= HEADER_MAX {
        assert Pieces(b) + more == [b[..RECV_MAX]] + ([b[RECV_MAX..]] + more);
        TwoRecvs(b[..RECV_MAX], b[RECV_MAX..], more, reset);
      } else {
        PrefixHasNoTerm(b, HEADER_MAX);
        assert b[..RECV_MAX] + b[RECV_MAX..HEADER_MAX] == b[..HEADER_MAX];
        ThreeRecvs(b[..RECV_MAX], b[RECV_MAX..HEADER_MAX], b[HEADER_MAX..], more, reset);
        assert b[..HEADER_MAX] + b[HEADER_MAX..] == b;
      }
    }
  }

  lemma DeliversAppend(cs: seq<seq<byte>>, ds: seq<seq<byte>>, s: seq<byte>, t: seq<byte>)
    requires Delivers(cs, s) && Delivers(ds, t)
    ensures Delivers(cs + ds, s + t)
  {
    FlattenAppend(cs, ds);
  }

  /** Bytes up to the end of a block can be received first and then the rest as already chosen. */
  lemma TakeFirst(b: seq<byte>, more: seq<seq<byte>>, t: seq<byte>, reset: bool) returns (cs: seq<seq<byte>>)
    requires 1 <= |b| <= HEADER_MAX + RECV_MAX && (HasTerm(b) ==> HeadLen(b) == |b|) && Delivers(more, t)
    ensures Delivers(cs, b + t) && Receive([], cs, reset) == Receive(b, more, reset)
  {
    PiecesAreTaken(b, more, reset);
    cs := Pieces(b) + more;
    DeliversAppend(Pieces(b), more, b, t);
  }

  /** As TakeFirst, for bytes whose last piece is given. */
  lemma LastPieces(front: seq<byte>, c: seq<byte>, more: seq<seq<byte>>, t: seq<byte>, reset: bool)
    returns (cs: seq<seq<byte>>)
    requires 1 <= |front| <= HEADER_MAX && !HasTerm(front) && 1 <= |c| <= RECV_MAX && Delivers(more, t)
    ensures Delivers(cs, (front + c) + t) && Receive([], cs, reset) == Receive(front + c, more, reset)
  {
    FlattenCons(c, []);
    DeliversAppend([c], more, c, t);
    cs := TakeFirst(front, [c] + more, c + t, reset);
    OneRecv(front, c, more, reset);
    assert front + (c + t) == (front + c) + t;
  }

  /** A block over the limit is refused when the limit falls between two pieces. */
  lemma CutPastLimit(s: seq<byte>, reset: bool) returns (cs: seq<seq<byte>>)
    requires HasTerm(s) && HeadLen(s) > HEADER_MAX + 1
    ensures Delivers(cs, s) && Receive([], cs, reset) == Fail(-1)
  {
    var b, rest := s[..HEADER_MAX + 1], s[HEADER_MAX + 1..];
    PrefixHasNoTerm(s, HEADER_MAX + 1);
    cs := TakeFirst(b, Greedy(rest), rest, reset);
    assert b + rest == s;
  }

  lemma BlockTaken(b: seq<byte>, tail: seq<seq<byte>>, reset: bool)
    requires HasTerm(b) && HeadLen(b) == |b|
    ensures Classify(b).Interim? ==> Receive(b, tail, reset) == Receive([], tail, reset)
    ensures Classify(b).Final? ==> Meaning(Receive(b, tail, reset)) == Answer(Classify(b).code, b, Flatten(tail))
  {
    assert b[|b|..] == [];
    assert Head(b) == b;
    assert [] + Flatten(tail) == Flatten(tail);
  }

  /** A whole block first, then the rest in pieces that are already chosen. */
  lemma BlockThen(s: seq<byte>, tail: seq<seq<byte>>, reset: bool) returns (cs: seq<seq<byte>>)
    requires HasTerm(s) && HeadLen(s) <= HEADER_MAX + RECV_MAX && Delivers(tail, s[HeadLen(s)..])
    ensures Delivers(cs, s)
    ensures Classify(Head(s)).Interim? ==> Receive([], cs, reset) == Receive([], tail, reset)
    ensures Classify(Head(s)).Final? ==>
              Meaning(Receive([], cs, reset)) == Answer(Classify(Head(s)).code, Head(s), s[HeadLen(s)..])
  {
    var b, t := Head(s), s[HeadLen(s)..];
    assert b + t == s;
    cs := TakeFirst(b, tail, t, reset);
    BlockTaken(b, tail, reset);
  }

  /** The last byte of a block comes with u, the rest later. */
  lemma BlockWith(b: seq<byte>, u: seq<byte>, v: seq<byte>, reset: bool) returns (cs: seq<seq<byte>>)
    requires HasTerm(b) && HeadLen(b) == |b| <= HEADER_MAX + 1 && |u| < RECV_MAX
    ensures Delivers(cs, (b + u) + v) && Receive([], cs, reset) == Receive(b + u, Greedy(v), reset)
  {
    PrefixHasNoTerm(b, |b| - 1);
    assert b[..|b| - 1] + (b[|b| - 1..] + u) == b + u;
    cs := LastPieces(b[..|b| - 1], b[|b| - 1..] + u, Greedy(v), v, reset);
  }

  /** An answer holds no more bytes than were received. */
  lemma {:induction false} AnswerFits(acc: seq<byte>, chunks: seq<seq<byte>>, reset: bool)
    ensures var a := Meaning(Receive(acc, chunks, reset));
            a.Answer? ==> |a.header| + |a.body| <= |acc| + |Flatten(chunks)|
    decreases |chunks|, |acc|
  {
    if HasTerm(acc) {
      if Classify(acc).Interim? {
        AnswerFits(acc[HeadLen(acc)..], chunks, reset);
      }
    } else if |acc| <= HEADER_MAX && chunks != [] {
      AnswerFits(acc + chunks[0], chunks[1..], reset);
    }
  }

  /** Where bytes behind a blank status make a code, the answer is not the one for none. */
  lemma BlankDiffers(b: seq<byte>, u: seq<byte>, chunks: seq<seq<byte>>, reset: bool)
    requires HasTerm(b) && HeadLen(b) == |b| && BlankStatus(b) && Atoi(u) != 0
    ensures Meaning(Receive(b + u, chunks, reset)) != Answer(0, b, u + Flatten(chunks))
  {
    BlankReads(b, u);
    BlockIsStable(b, u);
    if Classify(b + u).Interim? {
      AnswerFits((b + u)[|b|..], chunks, reset);
    }
  }

  /** A blank status is 0 when the block comes alone. */
  lemma BlankAlone(s: seq<byte>, reset: bool) returns (cs: seq<seq<byte>>)
    requires HasTerm(s) && HeadLen(s) <= HEADER_MAX + RECV_MAX && BlankStatus(Head(s))
    ensures Delivers(cs, s) && Meaning(Receive([], cs, reset)) == Answer(0, Head(s), s[HeadLen(s)..])
  {
    BlankCodes(Head(s));
    cs := BlockThen(s, Greedy(s[HeadLen(s)..]), reset);
  }

  /** A blank status is not 0 when the bytes that come with it make a code. */
  lemma BlankWithCode(b: seq<byte>, u: seq<byte>, v: seq<byte>, reset: bool) returns (cs: seq<seq<byte>>)
    requires HasTerm(b) && HeadLen(b) == |b| <= HEADER_MAX + 1 && BlankStatus(b)
    requires |u| < RECV_MAX && Atoi(u) != 0
    ensures Delivers(cs, (b + u) + v) && Meaning(Receive([], cs, reset)) != Answer(0, b, u + v)
  {
    cs := BlockWith(b, u, v, reset);
    BlankDiffers(b, u, Greedy(v), reset);
  }

  lemma Rejoin(b: seq<byte>, t: seq<byte>, k: nat)
    requires k <= |t|
    ensures (b + t[..k]) + t[k..] == b + t && t[..k] + t[k..] == t
  {
  }

  /** A block with a blank status over the limit, or with a code behind it. */
  lemma BlankBothWays(s: seq<byte>, reset: bool) returns (cs: seq<seq<byte>>, ds: seq<seq<byte>>)
    requires HasTerm(s) && HeadLen(s) <= HEADER_MAX + RECV_MAX && BlankStatus(Head(s))
    requires HeadLen(s) > HEADER_MAX + 1 || !ReadsZero(s[HeadLen(s)..])
    ensures Delivers(cs, s) && Delivers(ds, s)
    ensures Meaning(Receive([], cs, reset)) != Meaning(Receive([], ds, reset))
  {
    var t := s[HeadLen(s)..];
    cs := BlankAlone(s, reset);
    if HeadLen(s) > HEADER_MAX + 1 {
      ds := CutPastLimit(s, reset);
    } else {
      var k := Min(|t|, RECV_MAX - 1);
      Rejoin(Head(s), t, k);
      ds := BlankWithCode(Head(s), t[..k], t[k..], reset);
      assert Head(s) + t == s;
    }
  }

  /** Wherever the reference reading is ambiguous, two chunkings give different answers. */
  lemma {:induction false} AmbiguousBothWays(stream: seq<byte>, reset: bool)
    returns (cs: seq<seq<byte>>, ds: seq<seq<byte>>)
    requires Judge(stream, reset) == Ambiguous
    ensures Delivers(cs, stream) && Delivers(ds, stream)
    ensures Meaning(Receive([], cs, reset)) != Meaning(Receive([], ds, reset))
    decreases |stream|
  {
    var rest := stream[HeadLen(stream)..];
    if BlankStatus(Head(stream)) {
      cs, ds := BlankBothWays(stream, reset);
    } else if Classify(Head(stream)).Final? {
      cs := CutPastLimit(stream, reset);
      ds := BlockThen(stream, Greedy(rest), reset);
    } else if Judge(rest, reset) == Ambiguous {
      cs, ds := AmbiguousBothWays(rest, reset);
      cs := BlockThen(stream, cs, reset);
      ds := BlockThen(stream, ds, reset);
    } else {
      cs := CutPastLimit(stream, reset);
      SettledAnswer(Greedy(rest), rest, reset);
      ds := BlockThen(stream, Greedy(rest), reset);
    }
  }

  /** The reference answer for a whole stream, from any chunking. */
  lemma SettledAnswer(chunks: seq<seq<byte>>, stream: seq<byte>, reset: bool)
    requires Delivers(chunks, stream) && Judge(stream, reset).Definite?
    ensures Meaning(Receive([], chunks, reset)) == Judge(stream, reset).answer
  {
    assert [] + Flatten(chunks) == stream;
    DefiniteForEveryChunking([], 0, chunks, stream, reset);
  }

  /** Pieces in which recv can hand out the stream; a definite reference answer is their answer. */
  predicate CutOf(chunks: seq<seq<byte>>, stream: seq<byte>, reset: bool) {
    && Delivers(chunks, stream)
    && (Judge(stream, reset).Definite? ==> Meaning(Receive([], chunks, reset)) == Judge(stream, reset).answer)
  }

  lemma DeliveryIsCut(chunks: seq<seq<byte>>, stream: seq<byte>, reset: bool)
    requires Delivers(chunks, stream)
    ensures CutOf(chunks, stream, reset)
  {
    if Judge(stream, reset).Definite? {
      SettledAnswer(chunks, stream, reset);
    }
  }

  ghost predicate ChunkingMatters(stream: seq<byte>, reset: bool) {
    exists cs, ds :: Delivers(cs, stream) && Delivers(ds, stream)
                     && Meaning(Receive([], cs, reset)) != Meaning(Receive([], ds, reset))
  }

  /**
   recvHeader's code, header, return value and remaining bytes are the same for
   every chunking exactly when the reference reading is definite.
   */
  lemma ChunkingIndependence(stream: seq<byte>, reset: bool)
    ensures !ChunkingMatters(stream, reset) <==> Judge(stream, reset).Definite?
  {
    if Judge(stream, reset).Definite? {
      forall cs | Delivers(cs, stream)
        ensures Meaning(Receive([], cs, reset)) == Judge(stream, reset).answer
      {
        SettledAnswer(cs, stream, reset);
      }
    } else {
      var cs, ds := AmbiguousBothWays(stream, reset);
    }
  }

  /**
   A stream that begins with a blank status: chunkings disagree exactly when the
   block is over the limit that is always taken but not over the one that never is,
   or the bytes that one recv can bring with the end of the block make a code.
   */
  lemma BlankStatusDependsOnChunking(stream: seq<byte>, reset: bool)
    requires HasTerm(stream) && BlankStatus(Head(stream))
    ensures var h := HeadLen(stream);
            ChunkingMatters(stream, reset) <==>
              h <= HEADER_MAX + RECV_MAX && (h > HEADER_MAX + 1 || !ReadsZero(stream[h..]))
  {
    ChunkingIndependence(stream, reset);
  }

  /**
   Reading a block is independent of what follows exactly when something other
   than white space follows the first blank of its status line.
   */
  lemma StatusReadsPastBlock(b: seq<byte>)
    requires HasTerm(b) && HeadLen(b) == |b|
    ensures (forall t :: HasTerm(b + t) && Classify(b + t) == Classify(b)) <==> !BlankStatus(b)
  {
    if !BlankStatus(b) {
      forall t
        ensures HasTerm(b + t) && Classify(b + t) == Classify(b)
      {
        ClassifyIsStable(b, t);
      }
    } else {
      BlankCodes(b);
    }
  }
}
