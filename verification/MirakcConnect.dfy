/** The HTTP connection object: its receive buffer and its socket, updated in place. */
module MirakcConnectClass {
  import opened Bytes
  import opened Memory
  import opened Connection
  import opened HttpHeader
  import opened HttpChunking

  /**
   The outside world of one request: how connect and send fare (an errno or a
   negative return value, 0 for success), the bytes the server sends before the
   connection ends, whether it ends with an error, and whether malloc fails.
   */
  datatype Peer = Peer(connectErrno: nat, sendRet: int, stream: seq<byte>, reset: bool, mallocFails: bool)

  predicate Reachable(peer: Peer) {
    peer.connectErrno == 0 && peer.sendRet >= 0
  }

  /** (int)n for a 32-bit int. */
  function ToInt32(n: nat): int {
    var m := n % TWO32;
    if m >= 0x8000_0000 then m - TWO32 else m
  }

  function HeaderCopy(header: seq<byte>, headermax: nat): seq<byte>
    requires headermax > 0
  {
    header[..Min(|header|, headermax - 1)] + [0]
  }

  /** What follows the final header came with the last recv, and is shorter than it. */
  lemma {:induction false} RestComesFromLastRecv(acc: seq<byte>, n: nat, chunks: seq<seq<byte>>, reset: bool)
    requires TermsEndLate(acc, n) && n <= RECV_MAX && forall c :: c in chunks ==> |c| <= RECV_MAX
    ensures Receive(acc, chunks, reset).Ok? ==> |Receive(acc, chunks, reset).rest| < RECV_MAX
    decreases |chunks|, |acc|
  {
    if HasTerm(acc) {
      if Classify(acc).Interim? {
        EraseKeepsLate(acc, n);
        RestComesFromLastRecv(acc[HeadLen(acc)..], n, chunks, reset);
      }
    } else if |acc| <= HEADER_MAX && chunks != [] {
      AppendMakesLate(acc, chunks[0]);
      RestComesFromLastRecv(acc + chunks[0], |chunks[0]|, chunks[1..], reset);
    }
  }

  /** The scanner with acc and an open socket stands where Receive stands, whatever pieces follow. */
  ghost predicate Tracks(done: seq<seq<byte>>, acc: seq<byte>, wire: seq<byte>, reset: bool) {
    forall more :: Delivers(more, wire) ==> Receive([], done + more, reset) == Receive(acc, more, reset)
  }

  lemma TracksFromStart(wire: seq<byte>, reset: bool)
    ensures Tracks([], [], wire, reset)
  {
    forall more | Delivers(more, wire)
      ensures Receive([], [] + more, reset) == Receive([], more, reset)
    {
      assert [] + more == more;
    }
  }

  lemma TracksRecv(done: seq<seq<byte>>, acc: seq<byte>, c: seq<byte>, wire: seq<byte>, reset: bool)
    requires Tracks(done, acc, c + wire, reset)
    requires !HasTerm(acc) && |acc| <= HEADER_MAX && 1 <= |c| <= RECV_MAX
    ensures Tracks(done + [c], acc + c, wire, reset)
  {
    forall more | Delivers(more, wire)
      ensures Receive([], (done + [c]) + more, reset) == Receive(acc + c, more, reset)
    {
      FlattenCons(c, more);
      assert Delivers([c] + more, c + wire);
      assert (done + [c]) + more == done + ([c] + more);
      OneRecv(acc, c, more, reset);
    }
  }

  /** The state of recvHeader's loops after the pieces in done, the last of them of the given length. */
  ghost predicate Scanning(done: seq<seq<byte>>, acc: seq<byte>, last: nat,
                           wire: seq<byte>, reset: bool, stream: seq<byte>)
  {
    && last <= RECV_MAX && TermsEndLate(acc, last)
    && Delivers(done, Flatten(done)) && Flatten(done) + wire == stream
    && Tracks(done, acc, wire, reset)
  }

  lemma ScanStart(wire: seq<byte>, reset: bool)
    ensures Scanning([], [], 0, wire, reset, wire)
  {
    TracksFromStart(wire, reset);
    assert Flatten([]) + wire == wire;
  }

  lemma ScanRecv(done: seq<seq<byte>>, acc: seq<byte>, last: nat, c: seq<byte>,
                 wire: seq<byte>, reset: bool, stream: seq<byte>)
    requires Scanning(done, acc, last, c + wire, reset, stream)
    requires !HasTerm(acc) && |acc| <= HEADER_MAX && 1 <= |c| <= RECV_MAX
    ensures Scanning(done + [c], acc + c, |c|, wire, reset, stream)
  {
    TracksRecv(done, acc, c, wire, reset);
    AppendMakesLate(acc, c);
    FlattenCons(c, []);
    DeliversAppend(done, [c], Flatten(done), c);
    assert Flatten(done) + (c + wire) == (Flatten(done) + c) + wire;
  }

  lemma ScanErase(done: seq<seq<byte>>, acc: seq<byte>, last: nat, wire: seq<byte>, reset: bool, stream: seq<byte>)
    requires Scanning(done, acc, last, wire, reset, stream) && HasTerm(acc) && Classify(acc).Interim?
    ensures Scanning(done, acc[HeadLen(acc)..], last, wire, reset, stream)
  {
    EraseKeepsLate(acc, last);
  }

  predicate ScanEnds(acc: seq<byte>, wire: seq<byte>) {
    if HasTerm(acc) then !Classify(acc).Interim? else |acc| > HEADER_MAX || wire == []
  }

  function EndReply(acc: seq<byte>, wire: seq<byte>, reset: bool): Reply
    requires ScanEnds(acc, wire)
  {
    if HasTerm(acc) then
      (match Classify(acc)
       case Final(code) => Ok(code, Head(acc), acc[HeadLen(acc)..], wire)
       case _ => Fail(-1))
    else if |acc| > HEADER_MAX then Fail(-1)
    else Fail(EndOfStream(reset))
  }

  /** Where the loops stop, Receive stops with the same reply on a chunking of the whole stream. */
  lemma ScanEnd(done: seq<seq<byte>>, acc: seq<byte>, last: nat, wire: seq<byte>, reset: bool, stream: seq<byte>)
    returns (chunks: seq<seq<byte>>)
    requires Scanning(done, acc, last, wire, reset, stream) && ScanEnds(acc, wire)
    ensures CutOf(chunks, stream, reset) && Receive([], chunks, reset) == EndReply(acc, wire, reset)
    ensures HasTerm(acc) ==> |acc| - HeadLen(acc) < RECV_MAX
  {
    DeliversAppend(done, Greedy(wire), Flatten(done), wire);
    chunks := done + Greedy(wire);
    DeliveryIsCut(chunks, stream, reset);
    assert HasTerm(acc) ==> TermAt(acc, HeadLen(acc) - 4);
  }

  /** recvHeader can come to the answer a. */
  ghost predicate Heard(a: Answer, peer: Peer) {
    exists chunks :: Delivers(chunks, peer.stream) && a == Meaning(Receive([], chunks, peer.reset))
  }

  lemma HeardInPieces(chunks: seq<seq<byte>>, peer: Peer)
    requires Delivers(chunks, peer.stream)
    ensures Heard(Meaning(Receive([], chunks, peer.reset)), peer)
  {
  }

  lemma SomeAnswer(peer: Peer) returns (a: Answer)
    ensures Heard(a, peer)
  {
    a := Meaning(Receive([], Greedy(peer.stream), peer.reset));
    HeardInPieces(Greedy(peer.stream), peer);
  }

  /** Where the reference reading is definite, only its answer can be heard. */
  lemma HeardIsReference(a: Answer, peer: Peer)
    requires Heard(a, peer)
    ensures Judge(peer.stream, peer.reset).Definite? ==> a == Judge(peer.stream, peer.reset).answer
  {
    var chunks :| Delivers(chunks, peer.stream) && a == Meaning(Receive([], chunks, peer.reset));
    DeliveryIsCut(chunks, peer.stream, peer.reset);
  }

  class MirakcConnect {
    var s: int
    const buf: array<byte>
    var bufsize: nat
    /** What recv can still deliver on the open socket, and how the connection then ends. */
    var wire: seq<byte>
    var reset: bool
    /** Whether the open socket has been shut down. */
    ghost var halted: bool

    ghost predicate Valid()
      reads this
    {
      buf.Length == RECV_MAX + 1 && bufsize <= RECV_MAX
    }

    /** Everything the current response still has to give, received or not. */
    function Pending(): seq<byte>
      requires bufsize <= buf.Length
      reads this, buf
    {
      buf[..bufsize] + wire
    }

    /** The connection as its user meets it. */
    function View(): Conn
      requires bufsize <= buf.Length
      reads this, buf
    {
      Conn(s >= 0, buf[..bufsize], wire)
    }

    constructor ()
      ensures Valid() && fresh(buf) && buf.Length == 48129 && s == -1 && View() == Conn(false, [], [])
    {
      s := -1;
      halted := false;
      bufsize := 0;
      buf := new byte[RECV_MAX + 1];
      wire := [];
      reset := false;
    }

    /** recv, which delivers at least one byte, at most n, and otherwise whatever it likes. */
    method recvRetry(b: array<byte>, n: nat) returns (ret: int)
      requires n <= b.Length
      modifies this`wire, b
      ensures n == 0 ==> ret == 0
      ensures n > 0 && old(wire) == [] ==> ret == if reset then -1 else 0
      ensures n > 0 && old(wire) != [] ==> 1 <= ret <= n && ret <= |old(wire)|
      ensures ret <= 0 ==> wire == old(wire)
      ensures ret > 0 ==> old(wire) == b[..ret] + wire
      ensures forall k :: ret <= k < b.Length && 0 <= k ==> b[k] == old(b[k])
    {
      if n == 0 {
        return 0;
      }
      if wire == [] {
        return if reset then -1 else 0;
      }
      var m := Min(n, |wire|);
      ret :| 1 <= ret <= m;
      StoreBytes(b, wire[..ret]);
      wire := wire[ret..];
    }

    method disconnect()
      requires Valid()
      modifies this`s, this`bufsize, this`wire
      ensures Valid() && s < 0 && bufsize == 0 && Pending() == []
    {
      s := -1;
      bufsize := 0;
      wire := [];
    }

    /** shutdown(SHUT_RDWR): what the kernel had queued can still be read, then the stream ends. */
    method shutdown(queued: nat)
      modifies this`wire, this`reset, this`halted
      ensures s >= 0 ==> wire == old(wire)[..Min(queued, |old(wire)|)] && !reset && halted
      ensures s < 0 ==> wire == old(wire) && reset == old(reset) && halted == old(halted)
    {
      if s >= 0 {
        wire := wire[..Min(queued, |wire|)];
        reset := false;
        halted := true;
      }
    }

    method connect(peer: Peer) returns (ret: int)
      requires Valid()
      modifies this`s, this`bufsize, this`wire, this`reset, this`halted
      ensures Valid() && bufsize == 0 && !halted
      ensures peer.connectErrno == 0 ==> ret == 0 && s >= 0 && wire == peer.stream && reset == peer.reset
      ensures peer.connectErrno != 0 ==> ret == -1 && s == -1 && wire == []
    {
      bufsize := 0;
      halted := false;
      if peer.connectErrno != 0 {
        s := -1;
        wire := [];
        return -1;
      }
      s := 3;
      wire := peer.stream;
      reset := peer.reset;
      ret := 0;
    }

    /** The reply as the loops leave it in the results and in the object. */
    ghost predicate Holds(r: Reply, ret: int, code: int, responceHeader: array<byte>, headermax: nat)
      reads this, buf, responceHeader
      requires headermax <= responceHeader.Length
    {
      match r
      case Fail(e) => ret == e < 0 && code == 0
      case Ok(c, header, rest, unread) =>
        && ret == 0 && code == c
        && bufsize == |rest| < RECV_MAX <= buf.Length && buf[..bufsize] == rest && wire == unread
        && (headermax > 0 ==> HeaderCopy(header, headermax) <= responceHeader[..])
    }

    /** Copies the final header out and keeps what follows it in buf. */
    method TakeHeader(acc: seq<byte>, hlen: nat, responceHeader: array<byte>, headermax: nat)
      requires Valid() && headermax <= responceHeader.Length && buf != responceHeader
      requires hlen <= |acc| && |acc| - hlen < RECV_MAX
      modifies this`bufsize, buf, responceHeader
      ensures Valid() && bufsize == |acc| - hlen && buf[..bufsize] == acc[hlen..]
      ensures headermax > 0 ==> HeaderCopy(acc[..hlen], headermax) <= responceHeader[..]
    {
      if headermax > 0 {
        var c := Min(hlen, headermax - 1);
        StoreBytes(responceHeader, acc[..c]);
        responceHeader[c] := 0;
        assert responceHeader[..c + 1] == acc[..c] + [0];
      }
      var rest := |acc| - hlen;
      if rest > buf.Length - 1 {
        assert false;
      }
      StoreBytes(buf, acc[hlen..]);
      bufsize := rest;
    }

    /** recvHeader's inner loop: erases complete 1xx blocks from the accumulator. */
    method EraseInterim(data: seq<byte>, ghost done: seq<seq<byte>>, ghost last: nat, ghost stream: seq<byte>)
      returns (acc: seq<byte>)
      requires Scanning(done, data, last, wire, reset, stream)
      ensures Scanning(done, acc, last, wire, reset, stream)
      ensures HasTerm(acc) ==> !Classify(acc).Interim?
    {
      acc := data;
      while HasTerm(acc)
        invariant Scanning(done, acc, last, wire, reset, stream)
        decreases |acc|
      {
        if !Classify(acc).Interim? {
          return;
        }
        ScanErase(done, acc, last, wire, reset, stream);
        acc := acc[HeadLen(acc)..];
      }
    }

    /** A complete final header, or a malformed one. */
    method TakeReply(acc: seq<byte>, responceHeader: array<byte>, headermax: nat) returns (ret: int, code: int)
      requires Valid() && headermax <= responceHeader.Length && buf != responceHeader
      requires HasTerm(acc) && !Classify(acc).Interim? && |acc| - HeadLen(acc) < RECV_MAX
      modifies this`bufsize, buf, responceHeader
      ensures Valid() && Holds(EndReply(acc, wire, reset), ret, code, responceHeader, headermax)
      ensures ret == 0 ==> bufsize <= buf.Length - 2
    {
      match Classify(acc) {
        case Malformed =>
          return -1, 0;
        case Final(c) =>
          TakeHeader(acc, HeadLen(acc), responceHeader, headermax);
          return 0, c;
      }
    }

    /** The loops of recvHeader. */
    method ScanHeader(responceHeader: array<byte>, headermax: nat)
      returns (ret: int, responceCode: int, ghost chunks: seq<seq<byte>>)
      requires Valid() && headermax <= responceHeader.Length && buf != responceHeader
      modifies this`wire, this`bufsize, buf, responceHeader
      ensures Valid() && CutOf(chunks, old(wire), reset)
      ensures Holds(Receive([], chunks, reset), ret, responceCode, responceHeader, headermax)
      ensures ret == 0 ==> bufsize <= buf.Length - 2
    {
      var acc: seq<byte> := [];
      if headermax > 0 {
        responceHeader[0] := 0;
      }
      ghost var done: seq<seq<byte>>, last: nat := [], 0;
      ghost var stream := wire;
      ScanStart(wire, reset);
      while true
        invariant Valid() && Scanning(done, acc, last, wire, reset, stream)
        decreases |wire|
      {
        acc := EraseInterim(acc, done, last, stream);
        if HasTerm(acc) {
          chunks := ScanEnd(done, acc, last, wire, reset, stream);
          ret, responceCode := TakeReply(acc, responceHeader, headermax);
          return;
        }
        if |acc| > HEADER_MAX {
          chunks := ScanEnd(done, acc, last, wire, reset, stream);
          return -1, 0, chunks;
        }
        var n := recvRetry(buf, buf.Length - 1);
        if n <= 0 {
          chunks := ScanEnd(done, acc, last, wire, reset, stream);
          return EndOfStream(n < 0), 0, chunks;
        }
        var c := buf[..n];
        ScanRecv(done, acc, last, c, wire, reset, stream);
        done, last := done + [c], n;
        acc := acc + c;
      }
    }

    /**
     recvHeader scans as Receive does on the pieces that recv happened to deliver, and
     so gives the reference answer wherever there is one; the branch for too much data
     behind the header is dead.
     */
    method recvHeader(responceHeader: array<byte>, headermax: nat)
      returns (ret: int, responceCode: int, ghost chunks: seq<seq<byte>>)
      requires Valid() && headermax <= responceHeader.Length && buf != responceHeader
      modifies this`wire, this`bufsize, buf, responceHeader
      ensures Valid() && CutOf(chunks, old(wire), reset)
      ensures var r := Receive([], chunks, reset);
              && (r.Fail? ==> ret == r.ret < 0 && responceCode == 0)
              && (r.Ok? ==> ret == 0 && responceCode == r.code && View() == Conn(s >= 0, r.rest, r.unread))
              && (r.Ok? && headermax > 0 ==>
                    var c := Min(|r.header|, headermax - 1);
                    responceHeader[..c] == r.header[..c] && responceHeader[c] == 0)
      ensures ret == 0 ==> bufsize <= buf.Length - 2
    {
      ret, responceCode, chunks := ScanHeader(responceHeader, headermax);
      CopiedHeader(Receive([], chunks, reset), responceHeader, headermax);
    }

    /** What HeaderCopy means for the caller's buffer. */
    lemma CopiedHeader(r: Reply, responceHeader: array<byte>, headermax: nat)
      requires r.Ok? && 0 < headermax <= responceHeader.Length ==> HeaderCopy(r.header, headermax) <= responceHeader[..]
      ensures r.Ok? && 0 < headermax <= responceHeader.Length ==>
                var c := Min(|r.header|, headermax - 1);
                responceHeader[..c] == r.header[..c] && responceHeader[c] == 0
    {
      if r.Ok? && 0 < headermax <= responceHeader.Length {
        var c := Min(|r.header|, headermax - 1);
        assert HeaderCopy(r.header, headermax)[..c] == r.header[..c];
        assert responceHeader[..][..c] == responceHeader[..c] && responceHeader[..][c] == responceHeader[c];
      }
    }

    /** The answer is left in the connection for recvBody; it is Receive's on some chunking of the stream. */
    method sendGetRequest_WaitHeader(peer: Peer, responceHeader: array<byte>, headermax: nat)
      returns (ret: int, responceCode: int, ghost chunks: seq<seq<byte>>)
      requires Valid() && headermax <= responceHeader.Length && buf != responceHeader
      modifies this, buf, responceHeader
      ensures Valid() && Delivers(chunks, peer.stream)
      ensures peer.connectErrno != 0 ==> ret == 0 - peer.connectErrno - 2000 < 0 && s < 0
      ensures peer.connectErrno == 0 ==> s >= 0 && reset == peer.reset
      ensures ret != 0 ==> responceCode == 0
      ensures peer.connectErrno == 0 && peer.sendRet < 0 ==> ret == peer.sendRet
      ensures peer.connectErrno == 0 && peer.sendRet >= 0 ==>
                var r := Receive([], chunks, peer.reset);
                && (r.Fail? ==> ret == r.ret < 0 && responceCode == 0)
                && (r.Ok? ==> ret == 0 && responceCode == r.code && View() == Conn(s >= 0, r.rest, r.unread))
                && (r.Ok? && headermax > 0 ==>
                      var c := Min(|r.header|, headermax - 1);
                      responceHeader[..c] == r.header[..c] && responceHeader[c] == 0)
    {
      responceCode := 0;
      chunks := Greedy(peer.stream);
      ret := connect(peer);
      if ret < 0 {
        ret := 0 - peer.connectErrno - 2000;
        return;
      }
      if peer.sendRet < 0 {
        ret := peer.sendRet;
        return;
      }
      ret, responceCode, chunks := recvHeader(responceHeader, headermax);
    }

    /** The receive loop of sendGetRequest_WaitBody, with the body bytes that came with the header. */
    method CollectBody(bodymax: int) returns (ret: int, data: seq<byte>)
      requires Valid()
      modifies this, buf
      ensures Valid() && s < 0 && bufsize == 0 && Pending() == []
      ensures ret == if bodymax > 0 && |old(Pending())| > bodymax then -4 else if old(reset) then -5 else 0
      ensures ret == 0 ==> data == old(Pending())
    {
      ghost var body := Pending();
      data := buf[..bufsize];
      bufsize := 0;
      while true
        invariant Valid() && bufsize == 0 && reset == old(reset) && data + wire == body
        decreases |wire|
      {
        if bodymax > 0 && |data| > bodymax {
          disconnect();
          return -4, [];
        }
        var n := recvRetry(buf, buf.Length - 1);
        if n < 0 {
          disconnect();
          return -5, [];
        }
        if n == 0 {
          break;
        }
        data := data + buf[..n];
      }
      disconnect();
      ret := 0;
    }

    /** sendGetRequest_WaitBody from the header on. */
    method TakeBody(mallocFails: bool, bodymax: int) returns (ret: int, body: seq<byte>, bodysize: int)
      requires Valid()
      modifies this, buf
      ensures Valid() && s < 0 && bufsize == 0 && Pending() == []
      ensures ret == (if bodymax > 0 && |old(Pending())| > bodymax then -4
                      else if old(reset) then -5
                      else if mallocFails then -6
                      else 0)
      ensures ret != 0 ==> body == [] && bodysize == 0
      ensures ret == 0 ==> body == old(Pending()) && bodysize == ToInt32(|body|)
    {
      body, bodysize := [], 0;
      var data;
      ret, data := CollectBody(bodymax);
      if ret != 0 {
        return;
      }
      if mallocFails {
        ret := -6;
        return;
      }
      body, bodysize := data, ToInt32(|data|);
    }

    /** The answer that the results and the object hold. */
    lemma AnswerIn(r: Reply, ret: int, code: int)
      requires Valid()
      requires r.Fail? ==> ret == r.ret < 0 && code == 0
      requires r.Ok? ==> ret == 0 && code == r.code && View() == Conn(s >= 0, r.rest, r.unread)
      ensures var a := Meaning(r);
              && (if ret == 0 then a.Answer? && Pending() == a.body else a == NoAnswer(ret))
              && code == if a.Answer? then a.code else 0
    {
    }

    /** The part of sendGetRequest_WaitBody that is the same as sendGetRequest_WaitHeader. */
    method AskForHeader(peer: Peer, responceHeader: array<byte>, headermax: nat)
      returns (ret: int, responceCode: int, ghost a: Answer)
      requires Valid() && headermax <= responceHeader.Length && buf != responceHeader
      modifies this, buf, responceHeader
      ensures Valid() && Heard(a, peer)
      ensures peer.connectErrno != 0 ==> ret == 0 - peer.connectErrno - 2000 < 0
      ensures peer.connectErrno == 0 && peer.sendRet < 0 ==> ret == peer.sendRet
      ensures peer.connectErrno == 0 && peer.sendRet >= 0 ==>
                && reset == peer.reset && responceCode == (if a.Answer? then a.code else 0)
                && (if ret == 0 then a.Answer? && Pending() == a.body else a == NoAnswer(ret))
    {
      ghost var chunks;
      ret, responceCode, chunks := sendGetRequest_WaitHeader(peer, responceHeader, headermax);
      a := Meaning(Receive([], chunks, peer.reset));
      HeardInPieces(chunks, peer);
      if Reachable(peer) {
        AnswerIn(Receive([], chunks, peer.reset), ret, responceCode);
      }
    }

    /**
     For an accepted header the body is every byte after the final header, if
     their number is within bodymax; -4 if not, -5 if the connection broke. Past the
     header none of it depends on the chunking.
     */
    method sendGetRequest_WaitBody(peer: Peer, responceHeader: array<byte>, headermax: nat, bodymax: int)
      returns (ret: int, responceCode: int, body: seq<byte>, bodysize: int, ghost a: Answer)
      requires Valid() && headermax <= responceHeader.Length && buf != responceHeader
      modifies this, buf, responceHeader
      ensures Valid() && s < 0 && bufsize == 0 && Pending() == [] && Heard(a, peer)
      ensures peer.connectErrno != 0 ==> ret == 0 - peer.connectErrno - 2000 < 0
      ensures peer.connectErrno == 0 && peer.sendRet < 0 ==> ret == peer.sendRet
      ensures ret != 0 ==> body == [] && bodysize == 0
      ensures ret == 0 ==> bodysize == ToInt32(|body|) && (bodymax > 0 ==> |body| <= bodymax)
      ensures ret == 0 && |body| < 0x8000_0000 ==> bodysize == |body|
      ensures peer.connectErrno == 0 && peer.sendRet >= 0 ==>
                && responceCode == (if a.Answer? then a.code else 0)
                && ret == (if a.NoAnswer? then a.ret
                           else if bodymax > 0 && |a.body| > bodymax then -4
                           else if peer.reset then -5
                           else if peer.mallocFails then -6
                           else 0)
                && (ret == 0 ==> a.Answer? && body == a.body)
    {
      ret, responceCode, a := AskForHeader(peer, responceHeader, headermax);
      ret, body, bodysize := FinishBody(ret, Reachable(peer), a, peer.mallocFails, bodymax);
    }

    /** The rest of sendGetRequest_WaitBody, from the result of reading the header on. */
    method FinishBody(ret0: int, ghost answered: bool, ghost a: Answer, mallocFails: bool, bodymax: int)
      returns (ret: int, body: seq<byte>, bodysize: int)
      requires Valid() && (!answered ==> ret0 != 0)
      requires answered ==> if ret0 == 0 then a.Answer? && Pending() == a.body else a == NoAnswer(ret0)
      modifies this, buf
      ensures Valid() && s < 0 && bufsize == 0 && Pending() == []
      ensures ret0 != 0 ==> ret == ret0
      ensures ret != 0 ==> body == [] && bodysize == 0
      ensures ret == 0 ==> bodysize == ToInt32(|body|) && (bodymax > 0 ==> |body| <= bodymax)
      ensures answered ==>
                && ret == (if a.NoAnswer? then a.ret
                           else if bodymax > 0 && |a.body| > bodymax then -4
                           else if old(reset) then -5
                           else if mallocFails then -6
                           else 0)
                && (ret == 0 ==> a.Answer? && body == a.body)
    {
      if ret0 != 0 {
        disconnect();
        return ret0, [], 0;
      }
      ret, body, bodysize := TakeBody(mallocFails, bodymax);
    }

    /** The part of recvBody that hands out what buf holds. */
    method TakeHeld(body: array<byte>, size: nat) returns (len: nat)
      requires Valid() && size <= body.Length && body != buf && bufsize > 0
      modifies this`bufsize, buf, body
      ensures Valid() && len == Min(old(bufsize), size)
      ensures body[..len] == old(buf[..bufsize])[..len] && buf[..bufsize] == old(buf[..bufsize])[len..]
    {
      len := Min(bufsize, size);
      CopyMemory(body, 0, buf, 0, len);
      if bufsize - len > 0 {
        MoveMemory(buf, 0, len, bufsize - len);
      }
      bufsize := bufsize - len;
    }

    /**
     Hands out the next bytes of the response in order, first those in buf. It
     returns 0 only at the end of the stream (or for size 0), and a value below
     -10000 only if the connection broke.
     */
    method recvBody(body: array<byte>, size: nat) returns (ret: int)
      requires Valid() && size <= body.Length && body != buf
      modifies this`bufsize, this`wire, buf, body
      ensures Valid() && ret <= size
      ensures ret > 0 ==> old(Pending()) == body[..ret] + Pending()
      ensures ret > 0 ==> CanGive(old(View()), size, ret) && !Ended(old(View()))
      ensures ret > 0 ==> body[..ret] == Given(old(View()), ret) && View() == Remaining(old(View()), ret)
      ensures ret <= 0 ==> View() == old(View()) && (size == 0 || Ended(View()))
      ensures ret == 0 ==> size == 0 || s < 0 || !reset
      ensures ret < 0 ==> ret < -10000 && reset && s >= 0
    {
      ghost var c := View();
      if bufsize > 0 {
        ret := TakeHeld(body, size);
        GivenFirst(c, ret);
        return;
      }
      if s < 0 {
        return 0;
      }
      ret := recvRetry(body, size);
      if ret < 0 {
        var errno: nat :| errno > 0;
        return 0 - errno - 10000;
      }
      GivenFirst(c, ret);
    }
  }
}
