/**
 The cache's local RPC (blockcache/http_helper.cpp, leveldb_helper.cc, leveldb_server.cpp):
 a put or get is printed as a comma command, framed, sent in packets, received in pieces
 of any size, parsed, executed and answered the same way.
 */
module Frames {
  import opened Basics

  const MSG_SIZE: nat := 5000000
  const PACKET_SIZE: nat := 60000

  /** sizeof(int), the length prefix of a frame. */
  const HEADER: nat := 4

  const MAX_DATA: nat := MSG_SIZE - HEADER

  /** The four bytes of a non-negative C int in memory, least significant first. */
  function IntBytes(n: nat): (b: Bytes)
    requires n < 0x8000_0000
    ensures |b| == HEADER
  {
    [(n % 256) as char, (n / 256 % 256) as char, (n / 65536 % 256) as char, (n / 16777216) as char]
  }

  function IntOf(b: Bytes): nat
    requires |b| == HEADER
  {
    b[0] as int + b[1] as int * 256 + b[2] as int * 65536 + b[3] as int * 16777216
  }

  lemma IntRoundTrip(n: nat)
    requires n < 0x8000_0000
    ensures IntOf(IntBytes(n)) == n
  {
    assert n / 256 / 256 == n / 65536 && n / 65536 / 256 == n / 16777216;
  }

  function Zeros(n: nat): (z: Bytes)
    ensures |z| == n
  {
    seq(n, _ => '\0')
  }

  /** The frame that createBuffer lays out: size, data, zero padding up to MSG_SIZE. */
  function Frame(data: Bytes): (f: Bytes)
    requires |data| <= MAX_DATA
    ensures |f| == MSG_SIZE
  {
    IntBytes(|data|) + data + Zeros(MAX_DATA - |data|)
  }

  /** What extractBuffer reads from a frame. */
  function Unframe(f: Bytes): (data: Bytes)
    requires |f| == MSG_SIZE && IntOf(f[..HEADER]) <= MAX_DATA
  {
    f[HEADER..HEADER + IntOf(f[..HEADER])]
  }

  lemma UnframeFrame(data: Bytes)
    requires |data| <= MAX_DATA
    ensures IntOf(Frame(data)[..HEADER]) == |data|
    ensures Unframe(Frame(data)) == data
  {
    IntRoundTrip(|data|);
    assert Frame(data)[..HEADER] == IntBytes(|data|);
  }

  /** malloc, bzero, store the size, memcpy the data after it. */
  method CreateBuffer(data: Bytes) returns (buffer: array<char>)
    requires |data| <= MAX_DATA
    ensures fresh(buffer) && buffer[..] == Frame(data)
  {
    buffer := new char[MSG_SIZE](_ => '\0');
    var header := IntBytes(|data|);
    buffer[0], buffer[1], buffer[2], buffer[3] := header[0], header[1], header[2], header[3];
    assert buffer[..HEADER] == header;
    for i := 0 to |data|
      invariant buffer[..HEADER] == header
      invariant forall j | 0 <= j < i :: buffer[HEADER + j] == data[j]
      invariant forall j | HEADER + i <= j < MSG_SIZE :: buffer[j] == '\0'
    {
      buffer[HEADER + i] := data[i];
    }
    assert forall j | 0 <= j < HEADER :: buffer[j] == buffer[..HEADER][j];
  }

  method ExtractBuffer(buffer: array<char>) returns (data: Bytes)
    requires buffer.Length == MSG_SIZE && IntOf(buffer[..HEADER]) <= MAX_DATA
    ensures data == Unframe(buffer[..])
  {
    assert buffer[..][..HEADER] == buffer[..HEADER];
    var dataSize := IntOf(buffer[..HEADER]);
    var copy := new char[MSG_SIZE](_ => '\0');
    for i := 0 to dataSize
      invariant copy[..i] == buffer[HEADER..HEADER + i]
    {
      copy[i] := buffer[HEADER + i];
    }
    data := copy[..dataSize];
  }

  /** The bytes on one direction of a socket; whatever one side writes the other reads in order. */
  class Stream {
    var bytes: Bytes

    constructor ()
      ensures bytes == []
    {
      bytes := [];
    }

    /** send(): assumed to take all it is given. */
    method Send(piece: Bytes)
      modifies this
      ensures bytes == old(bytes) + piece
    {
      bytes := bytes + piece;
    }

    /** recv(): between 1 and `room` bytes of what is there, as the network pleases; none at the end. */
    method Recv(room: nat) returns (piece: Bytes)
      requires room > 0
      modifies this
      ensures old(bytes) == piece + bytes
      ensures |piece| <= room && (piece == [] <==> old(bytes) == [])
    {
      if bytes == [] {
        return [];
      }
      var n: nat :| 1 <= n <= room && n <= |bytes|;
      piece, bytes := bytes[..n], bytes[n..];
    }
  }

  /** The sending loop of sendLocalMsg and sendLevelDBMsg. */
  method SendFrame(buffer: array<char>, sock: Stream)
    requires buffer.Length == MSG_SIZE
    modifies sock
    ensures sock.bytes == old(sock.bytes) + buffer[..]
  {
    var bytesLeft: int, bufferPtr := MSG_SIZE, 0;
    while bytesLeft > 0
      invariant bytesLeft == MSG_SIZE - bufferPtr
      invariant 0 <= bufferPtr
      invariant sock.bytes == old(sock.bytes) + buffer[..Min(bufferPtr, MSG_SIZE)]
    {
      var sendSize := PACKET_SIZE;
      if bytesLeft < PACKET_SIZE {
        sendSize := bytesLeft;
      }
      sock.Send(buffer[bufferPtr..bufferPtr + sendSize]);
      bytesLeft := bytesLeft - PACKET_SIZE;
      bufferPtr := bufferPtr + PACKET_SIZE;
    }
    assert buffer[..MSG_SIZE] == buffer[..];
  }

  /**
   The receiving loop.  Each recv asks for a whole packet, whatever room is left; the writes
   stay inside the buffer because the peer sends no more than one frame.  When the peer
   closes early, the rest of the buffer keeps what it held.
   */
  method RecvFrame(buffer: array<char>, sock: Stream)
    requires buffer.Length == MSG_SIZE
    requires |sock.bytes| <= MSG_SIZE
    modifies buffer, sock
    ensures buffer[..] == old(sock.bytes) + old(buffer[|sock.bytes|..])
    ensures sock.bytes == []
  {
    var bufferPtr, n := 0, 1;
    while bufferPtr < MSG_SIZE && n > 0
      invariant bufferPtr + |sock.bytes| == |old(sock.bytes)|
      invariant old(sock.bytes) == buffer[..bufferPtr] + sock.bytes
      invariant buffer[bufferPtr..] == old(buffer[..])[bufferPtr..]
      invariant n >= 0 && (n == 0 ==> sock.bytes == [])
      decreases MSG_SIZE - bufferPtr, n
    {
      var piece := sock.Recv(PACKET_SIZE);
      n := |piece|;
      CopyIn(buffer, bufferPtr, piece);
      bufferPtr := bufferPtr + n;
    }
    assert |sock.bytes| == 0;
    assert buffer[..] == buffer[..bufferPtr] + buffer[bufferPtr..];
  }

  method CopyIn(buffer: array<char>, at: nat, piece: Bytes)
    requires at + |piece| <= buffer.Length
    modifies buffer
    ensures buffer[..at + |piece|] == old(buffer[..at]) + piece
    ensures buffer[at + |piece|..] == old(buffer[..])[at + |piece|..]
  {
    for i := 0 to |piece|
      invariant buffer[..at + i] == old(buffer[..at]) + piece[..i]
      invariant buffer[at + i..] == old(buffer[..])[at + i..]
    {
      buffer[at + i] := piece[i];
    }
  }

  // ------------------------------------------ when the receiver stays inside

  /** A schedule of receive sizes the receiving loop can see on a stream of `total` bytes. */
  predicate Schedule(sizes: seq<nat>, total: nat) {
    && (forall i | 0 <= i < |sizes| :: 1 <= sizes[i] <= PACKET_SIZE)
    && (forall i | 0 <= i < |sizes| :: Sum(sizes[..i]) < MSG_SIZE)
    && Sum(sizes) <= total
  }

  function Sum(sizes: seq<nat>): nat {
    if sizes == [] then 0 else Sum(sizes[..|sizes| - 1]) + sizes[|sizes| - 1]
  }

  /** `n` receives of one byte each. */
  function Singles(n: nat): (sizes: seq<nat>)
    ensures |sizes| == n && forall i | 0 <= i < n :: sizes[i] == 1
  {
    seq(n, _ => 1)
  }

  lemma {:induction false} SumSingles(n: nat)
    ensures Sum(Singles(n)) == n
  {
    if n > 0 {
      SumSingles(n - 1);
      assert Singles(n)[..n - 1] == Singles(n - 1);
    }
  }

  /** No schedule writes past the buffer exactly when the peer sends at most one frame. */
  lemma InsideIffOneFrame(total: nat)
    ensures (forall sizes | Schedule(sizes, total) :: Sum(sizes) <= MSG_SIZE) <==> total <= MSG_SIZE
  {
    if total > MSG_SIZE {
      var ones := Singles(MSG_SIZE - 1);
      var sizes := ones + [2];
      SumSingles(MSG_SIZE - 1);
      assert sizes[..|sizes| - 1] == ones;
      forall i | 0 <= i < |sizes|
        ensures Sum(sizes[..i]) < MSG_SIZE
      {
        assert sizes[..i] == Singles(i);
        SumSingles(i);
      }
      assert Schedule(sizes, total);
    }
  }
}

module LevelDb {
  import opened Basics
  import opened Frames

  // -------------------------------------------------- command printing

  const FAILED := "Operation failed"

  predicate CommaFree(s: string) {
    ',' !in s
  }

  function GetCommand(key: Hash): Bytes {
    "get," + key
  }

  function PutCommand(key: Hash, value: Bytes): Bytes {
    "put," + key + "," + value
  }

  // --------------------------------------------------- command parsing

  /** std::getline(ss, line, ','): the text up to the next comma, which is eaten. */
  function GetLine(s: Bytes): (r: (Bytes, Bytes))
    ensures CommaFree(r.0)
    ensures if ',' in s then s == r.0 + "," + r.1 else r == (s, "")
    ensures |r.0| + |r.1| <= |s|
  {
    if s == "" then ("", "")
    else if s[0] == ',' then ("", s[1..])
    else
      var r := GetLine(s[1..]);
      assert s == [s[0]] + s[1..];
      ([s[0]] + r.0, r.1)
  }

  lemma {:induction false} GetLineOf(line: Bytes, rest: Bytes)
    requires CommaFree(line)
    ensures GetLine(line + "," + rest) == (line, rest)
    ensures GetLine(line) == (line, "")
  {
    if line != "" {
      GetLineOf(line[1..], rest);
      assert (line + "," + rest)[1..] == line[1..] + "," + rest;
      assert line == [line[0]] + line[1..];
    } else {
      assert ("" + "," + rest)[1..] == rest;
    }
  }

  /** Unmodelled: mget, and a put with no second comma (the source throws); no client sends them. */
  datatype Op = PutOp(key: Hash, value: Bytes) | GetOp(key: Hash) | Unknown | Unmodelled

  /** do_operation's reading of a command: the value is all that follows the second comma. */
  function Parse(command: Bytes): Op {
    var (action, rest) := GetLine(command);
    if action == "put" then
      var key := GetLine(rest).0;
      var index := |action| + |key| + 2;
      if index <= |command| then PutOp(key, command[index..]) else Unmodelled
    else if action == "get" then GetOp(GetLine(rest).0)
    else if action == "mget" then Unmodelled
    else Unknown
  }

  /** The key the server sees: the text before the first comma. */
  function KeyOf(key: Hash): Hash {
    GetLine(key).0
  }

  /** The value it sees: all that follows. */
  function ValueOf(key: Hash, value: Bytes): Bytes {
    if CommaFree(key) then value else GetLine(key).1 + "," + value
  }

  lemma ParsePutOf(key: Hash, rest: Bytes)
    requires CommaFree(key)
    ensures Parse("put," + key + "," + rest) == PutOp(key, rest)
  {
    var command := "put," + key + "," + rest;
    assert command == "put" + "," + (key + "," + rest);
    GetLineOf("put", key + "," + rest);
    GetLineOf(key, rest);
    assert command == ("put," + key + ",") + rest;
  }

  /** Any value survives printing and parsing, commas and NULs included; a key is cut at its first comma. */
  lemma ParsePut(key: Hash, value: Bytes)
    ensures Parse(PutCommand(key, value)) == PutOp(KeyOf(key), ValueOf(key, value))
    ensures Parse(PutCommand(key, value)) == PutOp(key, value) <==> CommaFree(key)
  {
    ParsePutOf(KeyOf(key), ValueOf(key, value));
    if !CommaFree(key) {
      Regroup(GetLine(key).0, GetLine(key).1, value);
    }
  }

  lemma Regroup(k: Bytes, rest: Bytes, value: Bytes)
    ensures "put," + (k + "," + rest) + "," + value == "put," + k + "," + (rest + "," + value)
  {
  }

  lemma ParseGet(key: Hash)
    ensures Parse(GetCommand(key)) == GetOp(KeyOf(key))
    ensures Parse(GetCommand(key)) == GetOp(key) <==> CommaFree(key)
  {
    assert GetCommand(key) == "get" + "," + key;
    GetLineOf("get", key);
  }

  // ------------------------------------------------------------ the map

  type Db = map<Hash, Bytes>

  predicate Fits(db: Db) {
    forall k | k in db :: |db[k]| <= MAX_DATA
  }

  /** What a get through the RPC reports: the one value that spells the failure reply reads as a miss. */
  function Lookup(db: Db, key: Hash): Option<Bytes> {
    if key in db && db[key] != FAILED then Some(db[key]) else None
  }

  /** The effect of a command on the store. */
  function NextDb(db: Db, op: Op): Db {
    if op.PutOp? then db[op.key := op.value] else db
  }

  /** The reply to a command. */
  function Reply(db: Db, op: Op): Bytes {
    if op.PutOp? then "OK"
    else if op.GetOp? && op.key in db then db[op.key]
    else FAILED
  }

  /** The cache process: leveldb_server.cpp. */
  class LevelDBServer {
    var db: Db
    const buffer: array<char>

    ghost predicate Valid()
      reads this
    {
      buffer.Length == MSG_SIZE && Fits(db)
    }

    constructor ()
      ensures Valid() && fresh(buffer) && db == map[]
    {
      db := map[];
      buffer := new char[MSG_SIZE](_ => '\0');
    }

    /** do_operation and the choice of reply. */
    method Execute(command: Bytes) returns (reply: Bytes)
      requires Valid()
      requires |command| <= MAX_DATA && !Parse(command).Unmodelled?
      modifies this`db
      ensures Valid() && |reply| <= MAX_DATA
      ensures db == NextDb(old(db), Parse(command))
      ensures reply == Reply(old(db), Parse(command))
    {
      reply := FAILED;
      match Parse(command)
      case PutOp(k, v) =>
        db := db[k := v];
        reply := "OK";
      case GetOp(k) =>
        if k in db {
          reply := db[k];
        }
      case Unknown =>
    }

    /** One turn of run_mono_thread's loop on an accepted connection. */
    method Serve(request: Stream, response: Stream, ghost sent: Bytes)
      requires Valid() && request != response
      requires |sent| <= MAX_DATA && !Parse(sent).Unmodelled?
      requires request.bytes == Frame(sent) && response.bytes == []
      modifies this`db, buffer, request, response
      ensures Valid()
      ensures db == NextDb(old(db), Parse(sent))
      ensures |Reply(old(db), Parse(sent))| <= MAX_DATA
      ensures response.bytes == Frame(Reply(old(db), Parse(sent)))
    {
      RecvFrame(buffer, request);
      var command := Received(buffer, sent);
      var reply := Execute(command);
      var out := CreateBuffer(reply);
      SendFrame(out, response);
    }
  }

  /** extractBuffer on a buffer that holds a whole frame gives the frame's data. */
  method Received(buffer: array<char>, ghost sent: Bytes) returns (data: Bytes)
    requires |sent| <= MAX_DATA && buffer[..] == Frame(sent)
    ensures data == sent
  {
    UnframeFrame(sent);
    assert buffer.Length == |buffer[..]|;
    assert buffer[..HEADER] == buffer[..][..HEADER];
    data := ExtractBuffer(buffer);
  }

  /** The client end of the RPC: leveldb_helper.cc over HttpHelper::sendLocalMsg. */
  class LevelDBHelper {
    const server: LevelDBServer

    ghost predicate Valid()
      reads server
    {
      server.Valid()
    }

    constructor (server: LevelDBServer)
      ensures this.server == server
    {
      this.server := server;
    }

    /** sendLocalMsg with getResp: one connection, one frame each way. */
    method SendLocalMsg(msg: Bytes) returns (resp: Bytes)
      requires Valid() && |msg| <= MAX_DATA && !Parse(msg).Unmodelled?
      modifies server`db, server.buffer
      ensures Valid()
      ensures server.db == NextDb(old(server.db), Parse(msg))
      ensures resp == Reply(old(server.db), Parse(msg))
    {
      var request := new Stream();
      var response := new Stream();
      var buffer := CreateBuffer(msg);
      SendFrame(buffer, request);
      assert request.bytes == Frame(msg);
      server.Serve(request, response, msg);
      RecvFrame(buffer, response);
      assert buffer[MSG_SIZE..] == [];
      resp := Received(buffer, Reply(old(server.db), Parse(msg)));
    }

    method Get(blockHash: Hash, data0: Bytes) returns (rc: int, data: Bytes)
      requires Valid() && |GetCommand(blockHash)| <= MAX_DATA
      modifies server`db, server.buffer
      ensures Valid() && server.db == old(server.db)
      ensures rc == 0 <==> Lookup(server.db, KeyOf(blockHash)).Some?
      ensures data == if rc == 0 then Lookup(server.db, KeyOf(blockHash)).value else data0
    {
      ParseGet(blockHash);
      var response := SendLocalMsg(GetCommand(blockHash));
      if response == FAILED {
        return 1, data0;
      }
      return 0, response;
    }

    method Put(blockHash: Hash, data: Bytes) returns (rc: int)
      requires Valid() && |PutCommand(blockHash, data)| <= MAX_DATA
      modifies server`db, server.buffer
      ensures Valid() && server.db == old(server.db)[KeyOf(blockHash) := ValueOf(blockHash, data)]
      ensures rc == 0
    {
      ParsePut(blockHash, data);
      var response := SendLocalMsg(PutCommand(blockHash, data));
      rc := if response == FAILED then 1 else 0;
    }

    method AlreadyExists(blockHash: Hash) returns (yes: bool)
      requires Valid() && |GetCommand(blockHash)| <= MAX_DATA
      modifies server`db, server.buffer
      ensures Valid() && server.db == old(server.db)
      ensures yes <==> Lookup(server.db, KeyOf(blockHash)).Some?
    {
      var rc, dummy := Get(blockHash, "");
      yes := rc == 0;
    }
  }
  // ------------------------------------------------- sequences of calls

  datatype Call = CallPut(key: Hash, value: Bytes) | CallGet(key: Hash)

  predicate Sendable(call: Call) {
    |if call.CallPut? then PutCommand(call.key, call.value) else GetCommand(call.key)| <= MAX_DATA
  }

  /** One call on a plain map; comma-free keys and their values are kept as they are. */
  function Applied(db: Db, call: Call): Db {
    if call.CallPut? then db[KeyOf(call.key) := ValueOf(call.key, call.value)] else db
  }

  /** A plain map after the calls. */
  function AfterCalls(db: Db, calls: seq<Call>): Db {
    if calls == [] then db else Applied(AfterCalls(db, calls[..|calls| - 1]), calls[|calls| - 1])
  }

  /** What a plain map answers to a call: the value held, None for a put. */
  function AnswerTo(db: Db, call: Call): Option<Bytes> {
    if call.CallGet? then Lookup(db, KeyOf(call.key)) else None
  }

  /** What it answers to a sequence of calls, one after the other. */
  function Answers(db: Db, calls: seq<Call>): (answers: seq<Option<Bytes>>)
    ensures |answers| == |calls|
  {
    if calls == [] then []
    else
      var before := calls[..|calls| - 1];
      Answers(db, before) + [AnswerTo(AfterCalls(db, before), calls[|calls| - 1])]
  }

  lemma {:induction false} AnswersAt(db: Db, calls: seq<Call>, i: nat)
    requires i < |calls|
    ensures Answers(db, calls)[i] == AnswerTo(AfterCalls(db, calls[..i]), calls[i])
    decreases |calls|
  {
    if i < |calls| - 1 {
      AnswersAt(db, calls[..|calls| - 1], i);
      assert calls[..|calls| - 1][..i] == calls[..i];
    }
  }

  lemma NextCall(db: Db, calls: seq<Call>, i: nat)
    requires i < |calls|
    ensures var before := AfterCalls(db, calls[..i]);
      && AfterCalls(db, calls[..i + 1]) == Applied(before, calls[i])
      && Answers(db, calls[..i + 1]) == Answers(db, calls[..i]) + [AnswerTo(before, calls[i])]
  {
    assert calls[..i + 1][..i] == calls[..i];
  }

  method PerformOne(helper: LevelDBHelper, call: Call) returns (answer: Option<Bytes>)
    requires helper.Valid() && Sendable(call)
    modifies helper.server`db, helper.server.buffer
    ensures helper.Valid() && helper.server.db == Applied(old(helper.server.db), call)
    ensures answer == AnswerTo(old(helper.server.db), call)
  {
    match call
    case CallPut(key, value) =>
      var rc := helper.Put(key, value);
      answer := None;
    case CallGet(key) =>
      var rc, data := helper.Get(key, "");
      answer := if rc == 0 then Some(data) else None;
  }

  /** Any sequence of helper calls gives the answers of a plain map and leaves its contents. */
  method Perform(helper: LevelDBHelper, calls: seq<Call>) returns (answers: seq<Option<Bytes>>)
    requires helper.Valid()
    requires forall i | 0 <= i < |calls| :: Sendable(calls[i])
    modifies helper.server`db, helper.server.buffer
    ensures helper.Valid() && helper.server.db == AfterCalls(old(helper.server.db), calls)
    ensures answers == Answers(old(helper.server.db), calls)
  {
    answers := [];
    for i := 0 to |calls|
      invariant helper.Valid() && helper.server.db == AfterCalls(old(helper.server.db), calls[..i])
      invariant answers == Answers(old(helper.server.db), calls[..i])
    {
      var answer := PerformOne(helper, calls[i]);
      answers := answers + [answer];
      NextCall(old(helper.server.db), calls, i);
    }
    assert calls[..|calls|] == calls;
  }

  /**
   A get answers with the value of the latest earlier put of its key, unless that value spells
   the failure reply.  Keys count as the same up to their first comma.
   */
  lemma {:induction false} LatestPutAnswers(db: Db, calls: seq<Call>, i: nat, p: nat)
    requires p < i < |calls|
    requires calls[i].CallGet? && calls[p].CallPut? && KeyOf(calls[p].key) == KeyOf(calls[i].key)
    requires forall q | p < q < i && calls[q].CallPut? :: KeyOf(calls[q].key) != KeyOf(calls[i].key)
    ensures var value := ValueOf(calls[p].key, calls[p].value);
      Answers(db, calls)[i] == if value == FAILED then None else Some(value)
  {
    AnswersAt(db, calls, i);
    HeldSince(db, calls, i, p);
  }

  lemma {:induction false} HeldSince(db: Db, calls: seq<Call>, i: nat, p: nat)
    requires p < i <= |calls| && calls[p].CallPut?
    requires forall q | p < q < i && calls[q].CallPut? :: KeyOf(calls[q].key) != KeyOf(calls[p].key)
    ensures KeyOf(calls[p].key) in AfterCalls(db, calls[..i])
    ensures AfterCalls(db, calls[..i])[KeyOf(calls[p].key)] == ValueOf(calls[p].key, calls[p].value)
    decreases i
  {
    assert calls[..i][..i - 1] == calls[..i - 1];
    if p < i - 1 {
      HeldSince(db, calls, i - 1, p);
    }
  }
}
