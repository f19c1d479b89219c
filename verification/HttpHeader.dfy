/**
 The response header scanner of recvHeader as a function of the pieces in which
 recv hands out the stream, and a reference reading of the stream as a whole.
 */
module HttpHeader {
  import opened Bytes

  const RECV_MAX: nat := 188 * 256      // sizeof(buf) - 1
  const HEADER_MAX: nat := 64 * 1024    // MIRAKC_HEADER_MAX_TOTAL

  const LF: byte := 10
  const CR: byte := 13
  const SPACE: byte := 32
  const HTTP_SLASH: seq<byte> := [72, 84, 84, 80, 47]

  // ----- std::string::find, with |s| for npos -----

  predicate TermAt(s: seq<byte>, p: nat) {
    p + 4 <= |s| && s[p] == CR && s[p + 1] == LF && s[p + 2] == CR && s[p + 3] == LF
  }

  function FindTerm(s: seq<byte>, i: nat): (p: nat)
    requires i <= |s|
    ensures i <= p <= |s| && (p < |s| ==> TermAt(s, p))
    ensures forall q :: i <= q < p ==> !TermAt(s, q)
    decreases |s| - i
  {
    if i == |s| || TermAt(s, i) then i else FindTerm(s, i + 1)
  }

  predicate HasTerm(s: seq<byte>) {
    FindTerm(s, 0) < |s|
  }

  /** Length of the first header block, terminator included. */
  function HeadLen(s: seq<byte>): (h: nat)
    requires HasTerm(s)
    ensures 4 <= h <= |s| && TermAt(s, h - 4)
  {
    FindTerm(s, 0) + 4
  }

  lemma FindTermIs(s: seq<byte>, p: nat)
    requires TermAt(s, p) && forall q :: 0 <= q < p ==> !TermAt(s, q)
    ensures HasTerm(s) && FindTerm(s, 0) == p
  {
  }

  /** The end of the first block does not depend on what follows it. */
  lemma BlockIsStable(s: seq<byte>, t: seq<byte>)
    requires HasTerm(s)
    ensures HasTerm(s + t) && HeadLen(s + t) == HeadLen(s)
    ensures HasTerm(s[..HeadLen(s)]) && HeadLen(s[..HeadLen(s)]) == HeadLen(s)
  {
    var p := FindTerm(s, 0);
    var b := s[..p + 4];
    forall q | 0 <= q < p
      ensures !TermAt(s + t, q) && !TermAt(b, q)
    {
      assert !TermAt(s, q);
    }
    FindTermIs(s + t, p);
    FindTermIs(b, p);
  }

  /** The first header block, terminator included. */
  function Head(s: seq<byte>): (b: seq<byte>)
    requires HasTerm(s)
    ensures |b| == HeadLen(s) && b <= s
    ensures HasTerm(b) && HeadLen(b) == |b|
  {
    BlockIsStable(s, []);
    s[..HeadLen(s)]
  }

  function FindSpace(s: seq<byte>, i: nat): (p: nat)
    requires i <= |s|
    ensures i <= p <= |s| && (p < |s| ==> s[p] == SPACE)
    ensures forall q :: i <= q < p ==> s[q] != SPACE
    decreases |s| - i
  {
    if i == |s| || s[i] == SPACE then i else FindSpace(s, i + 1)
  }

  // ----- atoi -----

  predicate IsSpace(c: byte) {
    c == SPACE || 9 <= c <= 13
  }

  predicate IsDigit(c: byte) {
    48 <= c <= 57
  }

  predicate AllSpace(s: seq<byte>) {
    forall k :: 0 <= k < |s| ==> IsSpace(s[k])
  }

  function SkipSpace(s: seq<byte>): seq<byte> {
    if s != [] && IsSpace(s[0]) then SkipSpace(s[1..]) else s
  }

  function Digits(s: seq<byte>, value: nat): nat {
    if s != [] && IsDigit(s[0]) then Digits(s[1..], 10 * value + (s[0] - 48)) else value
  }

  function Signed(s: seq<byte>): int {
    if s != [] && s[0] == 45 then 0 - Digits(s[1..], 0)
    else if s != [] && s[0] == 43 then Digits(s[1..], 0)
    else Digits(s, 0)
  }

  function Atoi(s: seq<byte>): int {
    Signed(SkipSpace(s))
  }

  // ----- the status line -----

  datatype Line = Malformed | Interim | Final(code: int)

  function Classify(acc: seq<byte>): Line
    requires HasTerm(acc)
  {
    var pos := FindTerm(acc, 0);
    var sp := FindSpace(acc, 0);
    if !(HTTP_SLASH <= acc) || sp == |acc| || sp > pos then Malformed
    else
      var code := Atoi(acc[sp + 1..]);
      if 100 <= code <= 199 then Interim else Final(code)
  }

  /** A well-begun status line with nothing but white space after its first blank. */
  predicate BlankStatus(s: seq<byte>)
    requires HasTerm(s)
  {
    var pos := FindTerm(s, 0);
    var sp := FindSpace(s, 0);
    HTTP_SLASH <= s && sp < pos && AllSpace(s[sp + 1..pos])
  }

  // ----- the scanner -----

  /** What recvHeader leaves behind: rest is in buf, unread is still to be received. */
  datatype Reply =
    | Ok(code: int, header: seq<byte>, rest: seq<byte>, unread: seq<byte>)
    | Fail(ret: int)

  function Flatten(chunks: seq<seq<byte>>): seq<byte> {
    if chunks == [] then [] else chunks[0] + Flatten(chunks[1..])
  }

  function EndOfStream(reset: bool): int {
    if reset then -1 else -3
  }

  /**
   recvHeader with acc accumulated and chunks still to come, one per recv. After
   the last of them the connection ends, in order or, if reset, with an error.
   */
  function Receive(acc: seq<byte>, chunks: seq<seq<byte>>, reset: bool): Reply
    decreases |chunks|, |acc|
  {
    if HasTerm(acc) then
      var h := HeadLen(acc);
      match Classify(acc)
      case Malformed => Fail(-1)
      case Interim => Receive(acc[h..], chunks, reset)
      case Final(code) => Ok(code, Head(acc), acc[h..], Flatten(chunks))
    else if |acc| > HEADER_MAX then Fail(-1)
    else if chunks == [] then Fail(EndOfStream(reset))
    else Receive(acc + chunks[0], chunks[1..], reset)
  }

  predicate Delivers(chunks: seq<seq<byte>>, stream: seq<byte>) {
    && (forall c :: c in chunks ==> 1 <= |c| <= RECV_MAX)
    && Flatten(chunks) == stream
  }

  /** A reply without the accident of where buf ends and the socket begins. */
  datatype Answer = Answer(code: int, header: seq<byte>, body: seq<byte>) | NoAnswer(ret: int)

  function Meaning(r: Reply): Answer {
    match r
    case Ok(code, header, rest, unread) => Answer(code, header, rest + unread)
    case Fail(ret) => NoAnswer(ret)
  }

  // ----- the reference reading: no chunks, no accumulator -----

  datatype Verdict = Definite(answer: Answer) | Ambiguous

  /** With a blank status the code is 0, even if as much of t as one recv allows came with the header. */
  predicate ReadsZero(t: seq<byte>) {
    Atoi(t[..Min(|t|, RECV_MAX - 1)]) == 0
  }

  /**
   Skips 1xx blocks and splits the stream at the end of the final block. A block
   of up to HEADER_MAX + 1 bytes is always taken, one of more than
   HEADER_MAX + RECV_MAX bytes never; between the two it depends on the pieces.
   So does the code of a block with a blank status, unless it is always 0.
   */
  function Judge(stream: seq<byte>, reset: bool): Verdict
    decreases |stream|
  {
    if !HasTerm(stream) then
      Definite(NoAnswer(if |stream| > HEADER_MAX then -1 else EndOfStream(reset)))
    else
      var h := HeadLen(stream);
      if h > HEADER_MAX + RECV_MAX then Definite(NoAnswer(-1))
      else if BlankStatus(Head(stream)) then
        if h <= HEADER_MAX + 1 && ReadsZero(stream[h..]) then Definite(Answer(0, Head(stream), stream[h..]))
        else Ambiguous
      else
        match Classify(Head(stream))
        case Malformed => Definite(NoAnswer(-1))
        case Final(code) =>
          if h <= HEADER_MAX + 1 then Definite(Answer(code, Head(stream), stream[h..])) else Ambiguous
        case Interim =>
          var v := Judge(stream[h..], reset);
          if h <= HEADER_MAX + 1 || v == Definite(NoAnswer(-1)) then v else Ambiguous
  }

  // ----- a block is read the same however much follows it -----

  /** A terminator that appears only with t ends inside t. */
  lemma NoTermYet(s: seq<byte>, t: seq<byte>)
    requires !HasTerm(s) && HasTerm(s + t)
    ensures HeadLen(s + t) > |s|
  {
    var p := FindTerm(s + t, 0);
    assert p + 4 <= |s| ==> TermAt(s, p);
  }

  lemma FindSpaceIs(s: seq<byte>, p: nat)
    requires p < |s| && s[p] == SPACE && forall q :: 0 <= q < p ==> s[q] != SPACE
    ensures FindSpace(s, 0) == p
  {
  }

  lemma {:induction false} DigitsStop(a: seq<byte>, t: seq<byte>, value: nat)
    requires t != [] && !IsDigit(t[0])
    ensures Digits(a + t, value) == Digits(a, value)
    decreases |a|
  {
    if a == [] {
      assert a + t == t;
    } else {
      assert (a + t)[1..] == a[1..] + t;
      if IsDigit(a[0]) {
        DigitsStop(a[1..], t, 10 * value + (a[0] - 48));
      }
    }
  }

  lemma {:induction false} AtoiStops(a: seq<byte>, t: seq<byte>)
    requires !AllSpace(a) && t != [] && !IsDigit(t[0])
    ensures Atoi(a + t) == Atoi(a)
    decreases |a|
  {
    assert (a + t)[1..] == a[1..] + t;
    if IsSpace(a[0]) {
      AtoiStops(a[1..], t);
    } else {
      DigitsStop(a, t, 0);
      DigitsStop(a[1..], t, 0);
    }
  }

  lemma {:induction false} AtoiSkips(a: seq<byte>, t: seq<byte>)
    requires AllSpace(a)
    ensures Atoi(a + t) == Atoi(t)
    decreases |a|
  {
    if a == [] {
      assert a + t == t;
    } else {
      assert (a + t)[1..] == a[1..] + t;
      AtoiSkips(a[1..], t);
    }
  }

  lemma {:induction false} DigitsGrow(a: seq<byte>, t: seq<byte>, value: nat)
    ensures Digits(a + t, value) >= Digits(a, value) >= value
    decreases |a| + |t|
  {
    var s := a + t;
    if s != [] && IsDigit(s[0]) {
      if a == [] {
        DigitsGrow([], t[1..], 10 * value + (t[0] - 48));
        assert s[1..] == [] + t[1..];
      } else {
        DigitsGrow(a[1..], t, 10 * value + (a[0] - 48));
        assert s[1..] == a[1..] + t;
      }
    }
  }

  /** Text that reads as 0 does so however early it is cut. */
  lemma {:induction false} AtoiOfPrefix(a: seq<byte>, t: seq<byte>)
    ensures Atoi(a + t) == 0 ==> Atoi(a) == 0
    decreases |a|
  {
    if a != [] {
      assert (a + t)[1..] == a[1..] + t;
      if IsSpace(a[0]) {
        AtoiOfPrefix(a[1..], t);
      } else {
        DigitsGrow(a, t, 0);
        DigitsGrow(a[1..], t, 0);
      }
    }
  }

  /** Where the code starts and the block ends, in s as in any extension of it. */
  lemma StatusFields(s: seq<byte>, t: seq<byte>)
    requires HasTerm(s) && HTTP_SLASH <= s && FindSpace(s, 0) < FindTerm(s, 0)
    ensures FindSpace(s + t, 0) == FindSpace(s, 0) && HTTP_SLASH <= s + t
    ensures var sp, pos := FindSpace(s, 0), FindTerm(s, 0);
            (s + t)[sp + 1..] == s[sp + 1..pos] + (s[pos..] + t)
  {
    FindSpaceIs(s + t, FindSpace(s, 0));
  }

  lemma ClassifyIsStable(s: seq<byte>, t: seq<byte>)
    requires HasTerm(s) && !BlankStatus(s)
    ensures HasTerm(s + t) && Classify(s + t) == Classify(s)
  {
    BlockIsStable(s, t);
    var pos, sp := FindTerm(s, 0), FindSpace(s, 0);
    if HTTP_SLASH <= s && sp < pos {
      StatusFields(s, t);
      StatusFields(s, []);
      assert s + [] == s;
      AtoiStops(s[sp + 1..pos], s[pos..] + t);
      AtoiStops(s[sp + 1..pos], s[pos..] + []);
    } else {
      NotWellBegun(s, t);
    }
  }

  lemma NotWellBegun(s: seq<byte>, t: seq<byte>)
    requires HasTerm(s) && HasTerm(s + t) && HeadLen(s + t) == HeadLen(s)
    requires !(HTTP_SLASH <= s && FindSpace(s, 0) < FindTerm(s, 0))
    ensures Classify(s) == Classify(s + t) == Malformed
  {
    var pos, sp := FindTerm(s, 0), FindSpace(s + t, 0);
    if sp < pos {
      forall q | 0 <= q < sp
        ensures s[q] != SPACE
      {
        assert (s + t)[q] != SPACE;
      }
      FindSpaceIs(s, sp);
    }
    assert (s + t)[pos] == s[pos] == CR;
  }
}
