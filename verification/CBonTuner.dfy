/** The tuner object: opening, closing, grouping the channel list and changing channel. */
module CBonTunerClass {
  import opened Bytes
  import opened Options
  import opened HttpHeader
  import opened HttpChunking
  import opened Connection
  import opened MirakcConnectClass
  import opened ChannelSpaces
  import RingState
  import opened GrabTsDataClass
  import Steps = TunerSystem
  import opened TunerCalls

  const NO_CHANNEL: nat := 0xffff_ffff
  const BODY_MAX: int := 32 * 1024 * 1024

  /** What OpenTuner meets: the configured server type, the trial connection, the channel list's server. */
  datatype OpenWorld = OpenWorld(
    serverTypeKnown: bool, trial: Peer, listing: Peer, queued: nat, mallocLimit: nat)

  class CBonTuner {
    const m_pGrabTsData: GrabTsData
    var conn: MirakcConnect?
    var m_dwCurSpace: nat
    var m_dwCurChannel: nat
    var m_bRecvThreadValid: bool
    const g_pType: array<Option<string>>
    var g_Max_Type: int
    const g_Channel_Base: array<nat>
    /** The parsed channel array; empty also stands for JSON that is not an array. */
    var g_Channel_JSON: seq<Entry>
    /** Whether the receive thread that pthread_create started has not been joined yet. */
    ghost var threadExists: bool

    ghost function ConnRepr(): set<object>
      reads this`conn, conn
    {
      if conn == null then {} else {conn as object, conn.buf}
    }

    ghost function Repr(): set<object>
      reads this, conn, m_pGrabTsData
    {
      {this, g_pType, g_Channel_Base, m_pGrabTsData, m_pGrabTsData.m_pBuf, m_pGrabTsData.m_pDst} + ConnRepr()
    }

    /** What holds inside an operation as well. */
    ghost predicate Sound()
      reads this, conn, m_pGrabTsData
    {
      && m_pGrabTsData.Valid()
      && (conn != null ==> conn.Valid() && conn.buf != m_pGrabTsData.m_pBuf && conn.buf != m_pGrabTsData.m_pDst)
      && g_pType.Length == g_Channel_Base.Length == SPACE_NUM
      && -1 <= g_Max_Type < SPACE_NUM
      && threadExists == m_bRecvThreadValid
      && !m_pGrabTsData.m_bShutdown
      && (m_bRecvThreadValid ==> conn != null && conn.s >= 0)
    }

    ghost function Channel(): Steps.Channel
      reads this`m_dwCurSpace, this`m_dwCurChannel
    {
      if m_dwCurChannel == NO_CHANNEL then Steps.NoChannel else Steps.Tuned(m_dwCurSpace, m_dwCurChannel)
    }

    ghost function Connected(): Conn
      requires conn != null ==> conn.bufsize <= conn.buf.Length
      reads this`conn, conn, ConnRepr()
    {
      if conn == null then CLOSED else conn.View()
    }

    /** The fields as the step system knows them. */
    ghost function View(): Fields
      requires conn != null ==> conn.bufsize <= conn.buf.Length
      reads this, conn, m_pGrabTsData, Repr()
    {
      Fields(m_pGrabTsData.View(), Connected(), conn != null, m_bRecvThreadValid, Channel())
    }

    /** Exactly the type strings of the tuning spaces are allocated. */
    ghost predicate TypesAllocated()
      reads this`g_Max_Type, g_pType
    {
      g_pType.Length == SPACE_NUM && forall k :: 0 <= k < SPACE_NUM ==> (g_pType[k].Some? <==> k <= g_Max_Type)
    }

    function Bases(): (bases: seq<nat>)
      requires -1 <= g_Max_Type < g_Channel_Base.Length
      reads this`g_Max_Type, g_Channel_Base
      ensures |bases| == g_Max_Type + 1
    {
      g_Channel_Base[..g_Max_Type + 1]
    }

    /** The spaces group the channel list, as far as the limit on their number allows. */
    ghost predicate GroupedUpTo(limit: nat)
      requires -1 <= g_Max_Type < g_Channel_Base.Length
      reads this`g_Max_Type, this`g_Channel_JSON, g_pType, g_Channel_Base
    {
      exists types: seq<string>, stop: nat :: Groups(types, limit, stop)
    }

    ghost predicate Groups(types: seq<string>, limit: nat, stop: nat)
      requires -1 <= g_Max_Type < g_Channel_Base.Length
      reads this`g_Max_Type, this`g_Channel_JSON, g_pType, g_Channel_Base
    {
      && |types| == g_Max_Type + 1 <= g_pType.Length
      && (forall k :: 0 <= k <= g_Max_Type ==> g_pType[k] == Some(types[k]))
      && Grouped(g_Channel_JSON, types, Bases(), limit, stop)
    }

    ghost predicate Spaced()
      reads this`g_Max_Type, this`g_Channel_JSON, g_pType, g_Channel_Base
    {
      && TypesAllocated() && g_Channel_Base.Length == SPACE_NUM && -1 <= g_Max_Type < SPACE_NUM
      && |g_Channel_JSON| <= BODY_MAX
      && (g_Max_Type >= 0 ==> Ascending(Bases(), |g_Channel_JSON|))
    }

    /** What holds between operations. */
    ghost predicate Valid()
      reads this, conn, m_pGrabTsData, g_pType, g_Channel_Base
    {
      && Sound() && Spaced()
      && (m_bRecvThreadValid <==> m_dwCurChannel != NO_CHANNEL)
      && (m_dwCurChannel != NO_CHANNEL <==> m_dwCurSpace != NO_CHANNEL)
      && (conn != null <==> g_Max_Type >= 0)
      && (conn != null && !m_bRecvThreadValid ==> conn.s < 0)
    }

    constructor (now: nat)
      ensures Valid() && fresh(Repr()) && conn == null && m_dwCurChannel == NO_CHANNEL
    {
      m_pGrabTsData := new GrabTsData(now);
      conn := null;
      m_dwCurSpace, m_dwCurChannel := NO_CHANNEL, NO_CHANNEL;
      m_bRecvThreadValid := false;
      threadExists := false;
      g_pType := new Option<string>[SPACE_NUM](_ => None);
      g_Channel_Base := new nat[SPACE_NUM](_ => 0);
      g_Max_Type := -1;
      g_Channel_JSON := [];
    }

    /**
     pthread_join. It returns only because both requests have been made: the socket
     is shut down, and put_TsStream is told not to wait any longer.
     */
    method pthread_join()
      requires threadExists && m_bRecvThreadValid
      requires conn != null && conn.s >= 0 && conn.halted && m_pGrabTsData.m_bShutdown
      modifies this`threadExists
      ensures !threadExists
    {
      threadExists := false;
    }

    /** Stops and joins the receive thread, if there is one. */
    method waitForRecvThreadFinish(queued: nat)
      requires Sound()
      modifies this`m_bRecvThreadValid, this`threadExists, m_pGrabTsData`m_bShutdown, ConnRepr()
      ensures Sound() && !m_bRecvThreadValid && ConnRepr() == old(ConnRepr())
      ensures conn != null ==> conn.s == old(conn.s)
      ensures View() == old(View()).(conn := Connected(), valid := false)
      ensures old(m_bRecvThreadValid) ==> conn.halted && conn.wire == old(conn.wire)[..Min(queued, |old(conn.wire)|)]
    {
      if m_bRecvThreadValid {
        if conn != null {
          conn.shutdown(queued);
        }
        m_pGrabTsData.RequestShutdown();
        pthread_join();
        m_bRecvThreadValid := false;
        m_pGrabTsData.ResetShutdown();
      }
    }

    /** InitChannel's scan of the channel list; mallocLimit is how many mallocs succeed. */
    method GroupChannels(mallocLimit: nat) returns (ok: bool)
      requires TypesAllocated() && g_Channel_Base.Length == SPACE_NUM && g_Max_Type == -1
      modifies this`g_Max_Type, g_pType, g_Channel_Base
      ensures TypesAllocated() && -1 <= g_Max_Type < SPACE_NUM
      ensures !ok ==> g_Max_Type == -1
                      && !Groupable(g_Channel_JSON, Min(mallocLimit, SPACE_NUM))
      ensures ok ==> g_Max_Type >= 0 && GroupedUpTo(Min(mallocLimit, SPACE_NUM)) && Ascending(Bases(), |g_Channel_JSON|)
    {
      if |g_Channel_JSON| == 0 {
        return false;
      }
      ghost var es, limit := g_Channel_JSON, Min(mallocLimit, SPACE_NUM);
      ghost var types: seq<string>, bases: seq<nat> := [], [];
      var i := 0;
      var j := -1;
      while i < |g_Channel_JSON|
        invariant g_Max_Type == -1 && i <= |es| && j + 1 <= limit && TablesHold(types, bases, j)
        invariant ScannedTo(es, i, types, bases)
        decreases |es| - i
      {
        if g_Channel_JSON[i].Broken? {
          NoGroupingPast(es, limit, i);
          FreeTypes();
          return false;
        }
        var t := g_Channel_JSON[i].t;
        if j < 0 || g_pType[j] != Some(t) {
          if j + 1 >= SPACE_NUM || j + 1 >= mallocLimit {
            break;
          }
          ScanNewRun(es, i, types, bases);
          j := j + 1;
          StoreSpace(types, bases, j, t, i);
          types, bases := types + [t], bases + [i];
        } else {
          ScanSameRun(es, i, types, bases);
        }
        i := i + 1;
      }
      if j < 0 {
        return false;
      }
      SetMaxType(types, bases, limit, i, j);
      ok := true;
    }

    /** The spaces are complete. */
    method SetMaxType(ghost types: seq<string>, ghost bases: seq<nat>, ghost limit: nat, ghost i: nat, j: nat)
      requires TablesHold(types, bases, j) && j < limit <= SPACE_NUM
      requires ScannedTo(g_Channel_JSON, i, types, bases)
      requires i < |g_Channel_JSON| ==>
                 g_Channel_JSON[i].Typed? && types[|types| - 1] != g_Channel_JSON[i].t && |types| == limit
      modifies this`g_Max_Type
      ensures g_Max_Type == j && TypesAllocated() && GroupedUpTo(limit) && Ascending(Bases(), |g_Channel_JSON|)
    {
      g_Max_Type := j;
      ScanStops(g_Channel_JSON, i, types, bases, limit);
      GroupedAscends(g_Channel_JSON, types, bases, limit, i);
      assert Bases() == bases;
      assert Groups(types, limit, i);
    }

    /** The space tables hold these types and bases up to index j, and nothing is allocated beyond. */
    ghost predicate TablesHold(types: seq<string>, bases: seq<nat>, j: int)
      reads this, g_pType, g_Channel_Base
    {
      && g_pType.Length == g_Channel_Base.Length == SPACE_NUM
      && |types| == |bases| == j + 1 <= SPACE_NUM
      && (forall k :: 0 <= k < SPACE_NUM ==> g_pType[k] == if k < |types| then Some(types[k]) else None)
      && g_Channel_Base[..|bases|] == bases
    }

    method StoreSpace(ghost types: seq<string>, ghost bases: seq<nat>, j: nat, t: string, i: nat)
      requires j < SPACE_NUM && TablesHold(types, bases, j - 1)
      modifies g_pType, g_Channel_Base
      ensures TablesHold(types + [t], bases + [i], j)
    {
      g_pType[j] := Some(t);
      g_Channel_Base[j] := i;
    }

    method FreeTypes()
      requires g_pType.Length == SPACE_NUM
      modifies g_pType
      ensures forall k :: 0 <= k < SPACE_NUM ==> g_pType[k] == None
    {
      for k := 0 to SPACE_NUM
        invariant forall m :: 0 <= m < k ==> g_pType[m] == None
      {
        if g_pType[k].Some? {
          g_pType[k] := None;
        }
      }
    }

    /** Fetches the text of the channel list. */
    method SendRequest(listing: Peer, queued: nat) returns (ok: bool, body: seq<byte>, ghost a: Answer)
      requires Sound() && conn != null
      modifies this`m_bRecvThreadValid, this`threadExists, m_pGrabTsData`m_bShutdown, ConnRepr()
      ensures Sound() && !m_bRecvThreadValid && ConnRepr() == old(ConnRepr())
      ensures View() == old(View()).(conn := CLOSED, valid := false)
      ensures Heard(a, listing)
      ensures ok <==>
                && listing.connectErrno == 0 && listing.sendRet >= 0
                && a.Answer? && a.code == 200 && |a.body| <= 33554432 && !listing.reset && !listing.mallocFails
      ensures ok ==> body == a.body
    {
      waitForRecvThreadFinish(queued);
      var respHeader := new byte[512];
      var rc, respCode, size;
      rc, respCode, body, size, a := conn.sendGetRequest_WaitBody(listing, respHeader, 512, BODY_MAX);
      ok := rc == 0 && respCode == 200;
    }

    /** Fetches and parses the channel list; parse is the JSON parser. */
    method GetApiChannels(world: OpenWorld, parse: seq<byte> -> Option<seq<Entry>>)
      returns (ok: bool, ghost a: Answer)
      requires Sound() && conn != null && |g_Channel_JSON| <= BODY_MAX && Shrinks(parse)
      modifies this`m_bRecvThreadValid, this`threadExists, this`g_Channel_JSON, m_pGrabTsData`m_bShutdown, ConnRepr()
      ensures Sound() && !m_bRecvThreadValid && |g_Channel_JSON| <= BODY_MAX && ConnRepr() == old(ConnRepr())
      ensures View() == old(View()).(conn := CLOSED, valid := false)
      ensures Heard(a, world.listing)
      ensures ok <==>
                && world.listing.connectErrno == 0 && world.listing.sendRet >= 0
                && a.Answer? && a.code == 200 && |a.body| <= 33554432
                && !world.listing.reset && !world.listing.mallocFails && parse(a.body).Some?
      ensures ok ==> g_Channel_JSON == parse(a.body).value
    {
      var body;
      ok, body, a := SendRequest(world.listing, world.queued);
      if !ok {
        return;
      }
      var v := parse(body);
      if v.None? {
        return false, a;
      }
      g_Channel_JSON := v.value;
    }

    method InitChannel(world: OpenWorld, parse: seq<byte> -> Option<seq<Entry>>)
      returns (ok: bool, ghost a: Answer)
      requires Sound() && conn != null && |g_Channel_JSON| <= BODY_MAX && Shrinks(parse)
      requires TypesAllocated() && g_Max_Type == -1
      modifies this`m_bRecvThreadValid, this`threadExists, this`g_Channel_JSON, this`g_Max_Type
      modifies g_pType, g_Channel_Base, m_pGrabTsData`m_bShutdown, ConnRepr()
      ensures Sound() && !m_bRecvThreadValid && ConnRepr() == old(ConnRepr())
      ensures Spaced() && (ok <==> g_Max_Type >= 0)
      ensures View() == old(View()).(conn := CLOSED, valid := false)
      ensures Heard(a, world.listing)
      ensures ok <==>
                && world.listing.connectErrno == 0 && world.listing.sendRet >= 0
                && a.Answer? && a.code == 200 && |a.body| <= 33554432
                && !world.listing.reset && !world.listing.mallocFails && parse(a.body).Some?
                && Groupable(parse(a.body).value, Min(world.mallocLimit, 8))
      ensures ok ==> g_Channel_JSON == parse(a.body).value
      ensures ok ==> GroupedUpTo(Min(world.mallocLimit, 8))
    {
      ok, a := GetApiChannels(world, parse);
      if ok {
        ok := GroupChannels(world.mallocLimit);
      }
    }

    method FreeSpaces()
      requires TypesAllocated() && -1 <= g_Max_Type < SPACE_NUM
      modifies g_pType
      ensures forall k :: 0 <= k < SPACE_NUM ==> g_pType[k] == None
    {
      for i := 0 to g_Max_Type + 1
        invariant forall k :: 0 <= k < SPACE_NUM ==> (g_pType[k].Some? <==> i <= k <= g_Max_Type)
      {
        if g_pType[i].Some? {
          g_pType[i] := None;
        }
      }
    }

    /** CloseTuner, from inside an operation as well as between two. */
    method CloseTuner(queued: nat)
      requires Sound() && TypesAllocated() && |g_Channel_JSON| <= BODY_MAX
      modifies Repr()
      ensures Valid() && conn == null && g_Max_Type == -1
      ensures View() == Closed(old(View()))
      ensures g_Channel_JSON == old(g_Channel_JSON)
      ensures fresh(Repr() - old(Repr()))
    {
      m_dwCurSpace, m_dwCurChannel := NO_CHANNEL, NO_CHANNEL;
      waitForRecvThreadFinish(queued);
      FreeSpaces();
      g_Max_Type := -1;
      if conn != null {
        conn.disconnect();
        conn := null;
      }
    }

    /** The connection object for the server type, and a trial connection. */
    method TryConnect(world: OpenWorld) returns (ok: bool)
      requires Sound() && Spaced() && conn == null && !m_bRecvThreadValid
      modifies this`conn
      ensures Sound() && Spaced() && fresh(Repr() - old(Repr()))
      ensures View() == old(View()).(conn := Connected(), created := conn != null)
      ensures ok <==> world.serverTypeKnown && world.trial.connectErrno == 0
      ensures ok ==> conn != null
    {
      if !world.serverTypeKnown {
        return false;
      }
      conn := new MirakcConnect();
      var ret := conn.connect(world.trial);
      if ret < 0 {
        return false;
      }
      conn.disconnect();
      ok := true;
    }

    method TryOpen(world: OpenWorld, parse: seq<byte> -> Option<seq<Entry>>)
      returns (ok: bool, ghost a: Answer)
      requires Valid() && conn == null && Shrinks(parse)
      modifies Repr()
      ensures Sound() && Spaced() && !m_bRecvThreadValid && fresh(Repr() - old(Repr()))
      ensures m_dwCurSpace == NO_CHANNEL && (ok <==> g_Max_Type >= 0)
      ensures View() == old(View()).(conn := Connected(), created := conn != null)
      ensures ok ==> conn != null && Connected() == CLOSED
      ensures Heard(a, world.listing)
      ensures ok <==>
                && world.serverTypeKnown && world.trial.connectErrno == 0
                && world.listing.connectErrno == 0 && world.listing.sendRet >= 0
                && a.Answer? && a.code == 200 && |a.body| <= 33554432
                && !world.listing.reset && !world.listing.mallocFails && parse(a.body).Some?
                && Groupable(parse(a.body).value, Min(world.mallocLimit, 8))
      ensures ok ==> g_Channel_JSON == parse(a.body).value
      ensures ok ==> GroupedUpTo(Min(world.mallocLimit, 8))
    {
      ok := TryConnect(world);
      if !ok {
        a := SomeAnswer(world.listing);
        return false, a;
      }
      ok, a := InitChannel(world, parse);
    }

    /**
     OpenTuner closes whatever was open first. It succeeds exactly when the server
     type is known, the trial connection works, and the channel list can be fetched,
     parsed and grouped; otherwise the tuner is closed again.
     */
    method OpenTuner(world: OpenWorld, parse: seq<byte> -> Option<seq<Entry>>)
      returns (ok: bool, ghost a: Answer)
      requires Valid() && Shrinks(parse)
      modifies Repr()
      ensures Valid() && fresh(Repr() - old(Repr()))
      ensures View() == Opened(old(View()), ok)
      ensures exists chunks :: Delivers(chunks, world.listing.stream) && a == Meaning(Receive([], chunks, world.listing.reset))
      ensures Judge(world.listing.stream, world.listing.reset).Definite? ==>
                a == Judge(world.listing.stream, world.listing.reset).answer
      ensures ok <==>
                && world.serverTypeKnown && world.trial.connectErrno == 0
                && world.listing.connectErrno == 0 && world.listing.sendRet >= 0
                && a.Answer? && a.code == 200 && |a.body| <= 33554432
                && !world.listing.reset && !world.listing.mallocFails && parse(a.body).Some?
                && Groupable(parse(a.body).value, Min(world.mallocLimit, 8))
      ensures ok ==> g_Channel_JSON == parse(a.body).value
      ensures ok ==> GroupedUpTo(Min(world.mallocLimit, 8))
    {
      CloseTuner(world.queued);
      ok, a := TryOpen(world, parse);
      if !ok {
        CloseTuner(world.queued);
      }
      HeardIsReference(a, world.listing);
    }

    /** EnumChannelName's choice of the channel to name; nameOk tells whether its name can be read. */
    method EnumChannelName(dwSpace: nat, dwChannel: nat, nameOk: bool) returns (index: Option<nat>)
      requires Valid() && dwSpace < TWO32 && dwChannel < TWO32
      ensures index == if nameOk then Lookup(Bases(), |g_Channel_JSON|, dwSpace, dwChannel) else None
    {
      if g_Max_Type < 0 || dwSpace > g_Max_Type {
        return None;
      }
      var bonChannel := Add32(dwChannel, g_Channel_Base[dwSpace]);
      if bonChannel < g_Channel_Base[dwSpace] {
        return None;
      }
      if bonChannel >= |g_Channel_JSON| {
        return None;
      }
      if dwSpace < g_Max_Type {
        if bonChannel >= g_Channel_Base[dwSpace + 1] {
          return None;
        }
      }
      index := if nameOk then Some(bonChannel) else None;
    }

    /** Whether SetChannel gets past its checks; until then it touches nothing. */
    predicate Selects(dwSpace: nat, dwChannel: nat, jsonOk: bool)
      requires -1 <= g_Max_Type < g_Channel_Base.Length
      reads this, g_Channel_Base
    {
      conn != null && Lookup(Bases(), |g_Channel_JSON|, dwSpace, dwChannel).Some? && jsonOk
    }

    /** The checks. */
    method Select(dwSpace: nat, dwChannel: nat, jsonOk: bool) returns (selected: bool)
      requires Valid() && dwSpace < TWO32 && dwChannel < TWO32
      ensures selected == Selects(dwSpace, dwChannel, jsonOk)
      ensures selected ==> dwSpace != NO_CHANNEL && dwChannel != NO_CHANNEL
    {
      if conn == null {
        return false;
      }
      var index := FindChannel(dwSpace, dwChannel);
      selected := index.Some? && jsonOk;
    }

    /** Asks the server for the stream; answer is what it said, as the step of that moment. */
    method Request(peer: Peer) returns (accepted: bool, ghost answer: Steps.Step)
      requires conn != null && Sound() && !m_bRecvThreadValid
      modifies ConnRepr()
      ensures Sound() && ConnRepr() == old(ConnRepr()) && View() == old(View()).(conn := Connected())
      ensures Answers(peer, answer)
      ensures StreamOf(answer) == if accepted then Some(Connected()) else None
      ensures accepted ==> conn.s >= 0
    {
      var respHeader := new byte[512];
      var rc, respCode, chunks := conn.sendGetRequest_WaitHeader(peer, respHeader, 512);
      accepted := rc == 0 && respCode == 200;
      answer := Steps.Respond(Reachable(peer), peer.stream, chunks, peer.reset);
    }

    /** SetChannel past its checks. */
    method Retune(dwSpace: nat, dwChannel: nat, peer: Peer, queued: nat, threadOk: bool)
      returns (ok: bool, ghost answer: Steps.Step)
      requires Valid() && conn != null && dwSpace != NO_CHANNEL && dwChannel != NO_CHANNEL
      modifies this`m_dwCurSpace, this`m_dwCurChannel, this`m_bRecvThreadValid, this`threadExists
      modifies m_pGrabTsData, ConnRepr()
      ensures Valid() && ConnRepr() == old(ConnRepr()) && Answers(peer, answer)
      ensures ok <==>
                var a := Meaning(Receive([], answer.chunks, peer.reset));
                threadOk && peer.connectErrno == 0 && peer.sendRet >= 0 && a.Answer? && a.code == 200
      ensures View() == Retuned(old(View()), StreamOf(answer), Steps.Tuned(dwSpace, dwChannel), threadOk)
    {
      waitForRecvThreadFinish(queued);
      var accepted;
      accepted, answer := Request(peer);
      AnswerSays(peer, answer);
      if accepted {
        ok := StartReceiving(dwSpace, dwChannel, threadOk);
      } else {
        GiveUp();
        ok := false;
      }
    }

    /** No channel is received. */
    method GiveUp()
      requires Sound() && Spaced() && !m_bRecvThreadValid && g_Max_Type >= 0 && conn != null
      modifies this`m_dwCurSpace, this`m_dwCurChannel, conn`s, conn`bufsize, conn`wire
      ensures Valid() && View() == Hung(old(View()))
    {
      conn.disconnect();
      m_dwCurSpace, m_dwCurChannel := NO_CHANNEL, NO_CHANNEL;
    }

    /** Publishes the channel, purges the ring and starts the receive thread. */
    method StartReceiving(dwSpace: nat, dwChannel: nat, threadOk: bool) returns (ok: bool)
      requires Sound() && Spaced() && !m_bRecvThreadValid && g_Max_Type >= 0 && conn != null && conn.s >= 0
      requires dwSpace != NO_CHANNEL && dwChannel != NO_CHANNEL
      modifies this`m_dwCurSpace, this`m_dwCurChannel, this`m_bRecvThreadValid, this`threadExists
      modifies m_pGrabTsData, conn`s, conn`bufsize, conn`wire
      ensures Valid() && ok == threadOk
      ensures View() == Started(old(View()), Steps.Tuned(dwSpace, dwChannel), ok)
    {
      m_dwCurSpace, m_dwCurChannel := dwSpace, dwChannel;
      m_pGrabTsData.purge_TsStream();
      if !threadOk {
        m_dwCurSpace, m_dwCurChannel := NO_CHANNEL, NO_CHANNEL;
        conn.disconnect();
        return false;
      }
      threadExists := true;
      m_bRecvThreadValid := true;
      ok := true;
    }

    /** SetChannel, with its outcome as the step system has it. */
    method ChangeChannel(dwSpace: nat, dwChannel: nat, jsonOk: bool, peer: Peer, queued: nat, threadOk: bool)
      returns (ok: bool, ghost answer: Steps.Step)
      requires Valid() && dwSpace < TWO32 && dwChannel < TWO32
      modifies Repr()
      ensures Valid() && Repr() == old(Repr()) && Answers(peer, answer)
      ensures unchanged(this`g_Max_Type, this`g_Channel_JSON, g_pType, g_Channel_Base)
      ensures ok <==> old(Selects(dwSpace, dwChannel, jsonOk)) && StreamOf(answer).Some? && threadOk
      ensures !old(Selects(dwSpace, dwChannel, jsonOk)) ==> unchanged(old(Repr()))
      ensures old(Selects(dwSpace, dwChannel, jsonOk)) ==> dwChannel != NO_CHANNEL
      ensures old(Selects(dwSpace, dwChannel, jsonOk)) ==>
                View() == Retuned(old(View()), StreamOf(answer), Steps.Tuned(dwSpace, dwChannel), threadOk)
    {
      var selected := Select(dwSpace, dwChannel, jsonOk);
      if !selected {
        return false, NoRequest(peer);
      }
      ok, answer := Retune(dwSpace, dwChannel, peer, queued, threadOk);
      AnswerSays(peer, answer);
    }

    /**
     SetChannel. A refused request leaves everything as it was. Past the checks the old
     stream is given up: the new channel is current and its thread running exactly
     when the server answers 200 and the thread starts, and then what the connection
     holds is the body of that answer; otherwise no channel is current.
     */
    method SetChannel(dwSpace: nat, dwChannel: nat, jsonOk: bool, peer: Peer, queued: nat, threadOk: bool)
      returns (ok: bool, ghost answer: Steps.Step)
      requires Valid() && dwSpace < TWO32 && dwChannel < TWO32
      modifies Repr()
      ensures Valid() && Repr() == old(Repr()) && Answers(peer, answer)
      ensures unchanged(this`g_Max_Type, this`g_Channel_JSON, g_pType, g_Channel_Base)
      ensures var a := Meaning(Receive([], answer.chunks, peer.reset));
              && (Judge(peer.stream, peer.reset).Definite? ==> a == Judge(peer.stream, peer.reset).answer)
              && (ok <==>
                    && old(conn != null && Lookup(Bases(), |g_Channel_JSON|, dwSpace, dwChannel).Some?) && jsonOk
                    && peer.connectErrno == 0 && peer.sendRet >= 0 && a.Answer? && a.code == 200 && threadOk)
              && (ok ==> Connected().open && Connected().held + Connected().wire == a.body)
      ensures ok ==> m_dwCurSpace == dwSpace && m_dwCurChannel == dwChannel && m_bRecvThreadValid
                     && m_pGrabTsData.View() == RingState.Purged(old(m_pGrabTsData.View()))
      ensures !old(Selects(dwSpace, dwChannel, jsonOk)) ==> unchanged(old(Repr()))
      ensures old(Selects(dwSpace, dwChannel, jsonOk)) ==>
                View() == Retuned(old(View()), StreamOf(answer), Steps.Tuned(dwSpace, dwChannel), threadOk)
      ensures old(Selects(dwSpace, dwChannel, jsonOk)) && !ok ==>
                m_dwCurChannel == 0xffff_ffff && !m_bRecvThreadValid && Connected() == CLOSED
    {
      ok, answer := ChangeChannel(dwSpace, dwChannel, jsonOk, peer, queued, threadOk);
      AnswerSays(peer, answer);
      DeliveryIsCut(answer.chunks, peer.stream, peer.reset);
    }

    /** SetChannel's index test. */
    method FindChannel(dwSpace: nat, dwChannel: nat) returns (index: Option<nat>)
      requires Valid() && dwSpace < TWO32 && dwChannel < TWO32
      ensures index == Lookup(Bases(), |g_Channel_JSON|, dwSpace, dwChannel)
      ensures index.Some? ==> dwSpace != NO_CHANNEL && dwChannel != NO_CHANNEL
    {
      if g_Max_Type < 0 || dwSpace > g_Max_Type {
        return None;
      }
      var bonChannel := Add32(dwChannel, g_Channel_Base[dwSpace]);
      if bonChannel < g_Channel_Base[dwSpace] {
        return None;
      }
      if bonChannel >= |g_Channel_JSON| {
        return None;
      }
      if dwSpace < g_Max_Type && bonChannel >= g_Channel_Base[dwSpace + 1] {
        return None;
      }
      SpaceIsGapFree(Bases(), |g_Channel_JSON|, dwSpace, dwChannel);
      index := Some(bonChannel);
    }
  }

  /** A JSON array has no more elements than its text has bytes. */
  ghost predicate Shrinks(parse: seq<byte> -> Option<seq<Entry>>) {
    forall text :: parse(text).Some? ==> |parse(text).value| <= |text|
  }

  /** The step is an answer that the server's bytes come to, in some pieces. */
  ghost predicate Answers(peer: Peer, answer: Steps.Step) {
    && answer.Respond? && answer.reached == (peer.connectErrno == 0 && peer.sendRet >= 0)
    && answer.stream == peer.stream && answer.reset == peer.reset
    && Delivers(answer.chunks, peer.stream)
  }

  /** Any answer, to a request that is not made. */
  ghost function NoRequest(peer: Peer): (answer: Steps.Step)
    ensures Answers(peer, answer)
  {
    Steps.Respond(Reachable(peer), peer.stream, Greedy(peer.stream), peer.reset)
  }

  /** What the step says in terms of the answer itself. */
  lemma AnswerSays(peer: Peer, answer: Steps.Step)
    requires Answers(peer, answer)
    ensures var a, c := Meaning(Receive([], answer.chunks, peer.reset)), StreamOf(answer);
            && (c.Some? <==> peer.connectErrno == 0 && peer.sendRet >= 0 && a.Answer? && a.code == 200)
            && (c.Some? ==> c.value.open && c.value.held + c.value.wire == a.body)
  {
  }

  // ----- the scan of the channel list, on values -----

  predicate ScannedTo(es: seq<Entry>, i: nat, types: seq<string>, bases: seq<nat>) {
    && i <= |es| && (forall x :: 0 <= x < i ==> es[x].Typed?)
    && bases == Starts(es, i) && |types| == |bases|
    && (forall k :: 0 <= k < |bases| ==> es[bases[k]] == Typed(types[k]))
    && (i > 0 ==> es[i - 1] == Typed(types[|types| - 1]))
  }

  lemma ScanNewRun(es: seq<Entry>, i: nat, types: seq<string>, bases: seq<nat>)
    requires ScannedTo(es, i, types, bases) && i < |es| && es[i].Typed?
    requires types == [] || types[|types| - 1] != es[i].t
    ensures ScannedTo(es, i + 1, types + [es[i].t], bases + [i])
  {
  }

  lemma ScanSameRun(es: seq<Entry>, i: nat, types: seq<string>, bases: seq<nat>)
    requires ScannedTo(es, i, types, bases) && i < |es| && es[i].Typed?
    requires types != [] && types[|types| - 1] == es[i].t
    ensures ScannedTo(es, i + 1, types, bases)
  {
  }

  lemma ScanStops(es: seq<Entry>, i: nat, types: seq<string>, bases: seq<nat>, limit: nat)
    requires ScannedTo(es, i, types, bases) && 1 <= |types| <= limit
    requires i < |es| ==> es[i].Typed? && types[|types| - 1] != es[i].t && |types| == limit
    ensures Grouped(es, types, bases, limit, i)
  {
  }
}
