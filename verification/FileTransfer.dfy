/** File upload and download of the chat: the server's file receiver
    (module3/07/server.c, lines 102-181 and 357-378), the two chunking senders
    (module3/07/client.c, lines 61-119, and module3/07/server.c, lines 218-271) and the
    client's receiver (module3/07/client.c, lines 121-205).

    A directory is a map from names to contents; `fopen` may fail at any call. */
module FileTransfer {
  import opened Bytes
  import opened ChatMessages
  import opened Options

  type Directory = map<string, seq<Byte>>

  /** Whether the n-th `fopen` for writing succeeds when it is made for a given name. */
  type Disk = (nat, string) -> bool

  ghost predicate AlwaysOpens(disk: Disk) {
    forall n: nat, name: string :: disk(n, name)
  }

  // ---------- the server's receiver as functions ----------

  /** `file` is the name under which the open stream was created, if a stream is open. */
  datatype Server = Server(file: Option<string>, filename: string, bytesReceived: int, totalSize: int,
                           isReceiving: bool, senderFd: int, storage: Directory, opens: nat)

  const IDLE_SERVER := Server(None, "", 0, 0, false, -1, map[], 0)

  /** `reset_file_receiver`, lines 102-112. */
  function Reset(s: Server): Server {
    s.(file := None, filename := "", bytesReceived := 0, totalSize := 0, isReceiving := false, senderFd := -1)
  }

  /** `start_file_receive`, lines 114-137. */
  function Start(disk: Disk, s: Server, filename: string, totalSize: int, senderFd: int): Server {
    var s := if s.isReceiving && s.filename != filename then Reset(s) else s;
    if s.isReceiving && s.filename == filename then s
    else if !disk(s.opens, filename) then s.(file := None, opens := s.opens + 1)
    else s.(file := Some(filename), storage := s.storage[filename := []], opens := s.opens + 1,
            filename := SafeCopy(filename, MAX_FILENAME), totalSize := totalSize, bytesReceived := 0,
            isReceiving := true, senderFd := senderFd)
  }

  function Written(d: Directory, name: string, data: seq<Byte>): Directory {
    if name in d then d[name := d[name] + data] else d[name := data]
  }

  /** `append_file_data`, lines 139-166. */
  function Append(disk: Disk, s: Server, filename: string, data: seq<Byte>): Server {
    var s := if !s.isReceiving || s.filename != filename then Start(disk, s, filename, 0, -1) else s;
    if s.file.None? then s
    else
      var s := s.(storage := Written(s.storage, s.file.value, data), bytesReceived := s.bytesReceived + |data|);
      if s.totalSize > 0 && s.bytesReceived >= s.totalSize then s.(file := None, isReceiving := false) else s
  }

  /** `finish_file_receive`, lines 168-181. */
  function Finish(s: Server): Server {
    if s.isReceiving && s.file.Some? then s.(file := None, isReceiving := false) else s
  }

  /** The file cases of `handle_client_message`, lines 357-378. */
  function Handle(disk: Disk, s: Server, m: Message, fd: int): Server {
    match m.kind
    case MsgFile =>
      var s := Start(disk, s, m.filename, m.totalSize, fd);
      if |m.data| > 0 then Append(disk, s, m.filename, m.data) else s
    case MsgFileData =>
      var s := if !s.isReceiving || s.filename != m.filename
               then Start(disk, s, m.filename, m.totalSize, fd) else s;
      Append(disk, s, m.filename, m.data)
    case MsgFileEnd => Finish(s)
    case _ => s
  }

  /** Messages in the order in which they arrive, each with the descriptor it came from. */
  function HandleAll(disk: Disk, s: Server, arrivals: seq<(Message, int)>): Server
    decreases |arrivals|
  {
    if arrivals == [] then s
    else HandleAll(disk, Handle(disk, s, arrivals[0].0, arrivals[0].1), arrivals[1..])
  }

  lemma {:induction false} HandleAllJoin(disk: Disk, s: Server, a: seq<(Message, int)>, b: seq<(Message, int)>)
    ensures HandleAll(disk, s, a + b) == HandleAll(disk, HandleAll(disk, s, a), b)
    decreases |a|
  {
    if a == [] {
      assert a + b == b;
    } else {
      HandleAllJoin(disk, Handle(disk, s, a[0].0, a[0].1), a[1..], b);
      assert (a + b)[1..] == a[1..] + b;
    }
  }

  // ---------- what any interleaving of messages keeps ----------

  /** The filename field of a message on the wire has room for 255 characters. */
  ghost predicate Wire(m: Message) {
    |m.filename| < MAX_FILENAME && |m.data| <= BUFFER_SIZE
  }

  ghost predicate Consistent(s: Server) {
    && (s.isReceiving <==> s.file.Some?)
    && (s.file.Some? ==>
          && s.file.value == s.filename
          && s.filename in s.storage
          && s.bytesReceived == |s.storage[s.filename]|
          && (s.totalSize > 0 ==> s.bytesReceived < s.totalSize))
  }

  ghost function OpenContent(s: Server): seq<Byte>
    requires Consistent(s) && s.file.Some?
  {
    s.storage[s.file.value]
  }

  lemma {:induction false} StartKeeps(disk: Disk, s: Server, filename: string, totalSize: int, senderFd: int)
    requires Consistent(s) && |filename| < MAX_FILENAME
    ensures var r := Start(disk, s, filename, totalSize, senderFd);
            && Consistent(r)
            && (r.file.Some? ==> r.filename == filename)
            && (r.file.Some? ==> OpenContent(r) == if s.file == Some(filename) then OpenContent(s) else [])
  {
  }

  lemma {:induction false} AppendKeeps(disk: Disk, s: Server, filename: string, data: seq<Byte>)
    requires Consistent(s) && |filename| < MAX_FILENAME
    ensures var r := Append(disk, s, filename, data);
            && Consistent(r)
            && (r.file.Some? ==>
                  OpenContent(r) == (if s.file == Some(filename) then OpenContent(s) else []) + data)
            && (r.file.Some? ==> r.filename == filename)
  {
    var t := if !s.isReceiving || s.filename != filename then Start(disk, s, filename, 0, -1) else s;
    StartKeeps(disk, s, filename, 0, -1);
    if t.file.Some? {
      assert Written(t.storage, t.file.value, data)[filename] == t.storage[filename] + data;
    }
  }

  /** What a message adds to the open file: its data, or nothing when it is not a file message. */
  ghost function Added(m: Message): seq<Byte> {
    if m.kind.MsgFile? || m.kind.MsgFileData? then m.data else []
  }

  lemma {:induction false} HandleKeeps(disk: Disk, s: Server, m: Message, fd: int)
    requires Consistent(s) && Wire(m)
    ensures var r := Handle(disk, s, m, fd);
            && Consistent(r)
            && (r.file.Some? ==>
                  OpenContent(r) == (if s.file == r.file then OpenContent(s) else []) + Added(m))
  {
    match m.kind
    case MsgFile =>
      StartKeeps(disk, s, m.filename, m.totalSize, fd);
      AppendKeeps(disk, Start(disk, s, m.filename, m.totalSize, fd), m.filename, m.data);
    case MsgFileData =>
      StartKeeps(disk, s, m.filename, m.totalSize, fd);
      var t := if !s.isReceiving || s.filename != m.filename
               then Start(disk, s, m.filename, m.totalSize, fd) else s;
      AppendKeeps(disk, t, m.filename, m.data);
    case _ =>
  }

  /** The data of the messages handled since the stream that is open now was opened. */
  ghost function DataSinceOpen(disk: Disk, arrivals: seq<(Message, int)>): seq<Byte> {
    if arrivals == [] then []
    else
      var n := |arrivals| - 1;
      var before := HandleAll(disk, IDLE_SERVER, arrivals[..n]);
      var after := HandleAll(disk, IDLE_SERVER, arrivals);
      (if before.file == after.file then DataSinceOpen(disk, arrivals[..n]) else []) + Added(arrivals[n].0)
  }

  /** Whatever file messages arrive from whomever in whatever order: the receiver counts itself
      as receiving exactly while a stream is open, that stream's file holds exactly the data
      accepted since it was opened, and `bytes_received` is its length. */
  lemma {:induction false} OpenFileOverRuns(disk: Disk, arrivals: seq<(Message, int)>)
    requires forall a :: a in arrivals ==> Wire(a.0)
    ensures var s := HandleAll(disk, IDLE_SERVER, arrivals);
            && Consistent(s)
            && (s.file.Some? ==> OpenContent(s) == DataSinceOpen(disk, arrivals))
            && (s.file.Some? ==> s.bytesReceived == |DataSinceOpen(disk, arrivals)|)
  {
    if arrivals != [] {
      var n := |arrivals| - 1;
      OpenFileOverRuns(disk, arrivals[..n]);
      assert arrivals[n] in arrivals && arrivals == arrivals[..n] + [arrivals[n]];
      HandleAllJoin(disk, IDLE_SERVER, arrivals[..n], [arrivals[n]]);
      HandleKeeps(disk, HandleAll(disk, IDLE_SERVER, arrivals[..n]), arrivals[n].0, arrivals[n].1);
    }
  }

  // ---------- the senders ----------

  /** What successive reads of at most 4096 bytes yield. */
  function Chunks(content: seq<Byte>): seq<seq<Byte>> {
    if content == [] then []
    else if |content| <= BUFFER_SIZE then [content]
    else [content[..BUFFER_SIZE]] + Chunks(content[BUFFER_SIZE..])
  }

  ghost function Concat(parts: seq<seq<Byte>>): seq<Byte> {
    if parts == [] then [] else parts[0] + Concat(parts[1..])
  }

  function FileMessage(kind: Kind, nickname: string, filename: string, totalSize: int, data: seq<Byte>): Message {
    Message(kind, SafeCopy(nickname, MAX_NICKNAME), "", data, totalSize, SafeCopy(filename, MAX_FILENAME))
  }

  ghost function ChunkMessages(nickname: string, filename: string, totalSize: int, parts: seq<seq<Byte>>)
      : seq<Message>
  {
    seq(|parts|, i requires 0 <= i < |parts| => FileMessage(MsgFileData, nickname, filename, totalSize, parts[i]))
  }

  /** Header, chunks, end. */
  ghost function Transmission(nickname: string, filename: string, content: seq<Byte>): seq<Message> {
    [FileMessage(MsgFile, nickname, filename, |content|, [])] +
    ChunkMessages(nickname, filename, |content|, Chunks(content)) +
    [FileMessage(MsgFileEnd, nickname, filename, |content|, [])]
  }

  lemma {:induction false} ChunksRebuild(content: seq<Byte>)
    ensures Concat(Chunks(content)) == content
    ensures forall i :: 0 <= i < |Chunks(content)| ==> 0 < |Chunks(content)[i]| <= BUFFER_SIZE
  {
    if content == [] {
    } else if |content| <= BUFFER_SIZE {
      assert [content][1..] == [];
    } else {
      var head, rest := content[..BUFFER_SIZE], content[BUFFER_SIZE..];
      ChunksRebuild(rest);
      assert ([head] + Chunks(rest))[1..] == Chunks(rest);
    }
  }

  /** The reading loop both senders share: client.c, lines 86-106, and server.c, lines 247-260. */
  method SendChunks(nickname: string, filename: string, content: seq<Byte>) returns (sent: seq<Message>)
    ensures sent == ChunkMessages(nickname, filename, |content|, Chunks(content))
  {
    sent := [];
    var position := 0;
    ghost var parts: seq<seq<Byte>> := [];
    while position < |content|
      invariant 0 <= position <= |content|
      invariant parts + Chunks(content[position..]) == Chunks(content)
      invariant sent == ChunkMessages(nickname, filename, |content|, parts)
    {
      var bytesRead := if |content| - position < BUFFER_SIZE then |content| - position else BUFFER_SIZE;
      var buffer := content[position..position + bytesRead];
      NextChunk(content[position..], buffer, parts);
      assert content[position..][|buffer|..] == content[position + bytesRead..];
      sent := sent + [FileMessage(MsgFileData, nickname, filename, |content|, buffer)];
      parts := parts + [buffer];
      position := position + bytesRead;
    }
    assert content[position..] == [];
    assert parts + [] == parts;
  }

  lemma {:induction false} NextChunk(rest: seq<Byte>, buffer: seq<Byte>, parts: seq<seq<Byte>>)
    requires rest != [] && |buffer| == (if |rest| < BUFFER_SIZE then |rest| else BUFFER_SIZE)
    requires buffer == rest[..|buffer|]
    ensures parts + Chunks(rest) == (parts + [buffer]) + Chunks(rest[|buffer|..])
  {
    if |rest| <= BUFFER_SIZE {
      assert rest[..|rest|] == rest && Chunks(rest[|buffer|..]) == [];
    }
  }

  /** `send_file` of the client, with every send succeeding. */
  method SendFile(nickname: string, filename: string, content: seq<Byte>) returns (sent: seq<Message>)
    ensures sent == Transmission(nickname, filename, content)
  {
    var header := FileMessage(MsgFile, nickname, filename, |content|, []);
    var chunks := SendChunks(nickname, filename, content);
    var end := FileMessage(MsgFileEnd, nickname, filename, |content|, []);
    sent := [header] + chunks + [end];
  }

  /** `send_file_to_client` of the server: the header is sent again as the end message. */
  method SendFileToClient(storage: Directory, filename: string) returns (code: int, sent: seq<Message>)
    ensures if filename in storage
            then code == 0 && sent == Transmission("SERVER", filename, storage[filename])
            else code == -1 && sent == []
  {
    if filename !in storage {
      return -1, [];
    }
    var content := storage[filename];
    var message := FileMessage(MsgFile, "SERVER", filename, |content|, []);
    var chunks := SendChunks("SERVER", filename, content);
    return 0, [message] + chunks + [message.(kind := MsgFileEnd)];
  }

  // ---------- upload ----------

  /** The messages of one sender, none interleaved. */
  ghost function From(messages: seq<Message>, fd: int): seq<(Message, int)> {
    seq(|messages|, i requires 0 <= i < |messages| => (messages[i], fd))
  }

  /** The server is receiving `name`, has `content` of it, and expects `total` bytes. */
  ghost predicate ReceivingAt(s: Server, name: string, content: seq<Byte>, total: int) {
    && Consistent(s)
    && s.file == Some(name)
    && s.totalSize == total
    && s.storage[name] == content
  }

  lemma {:induction false} HandleChunk(disk: Disk, s: Server, m: Message, fd: int, name: string,
                                       content: seq<Byte>, total: int)
    requires ReceivingAt(s, name, content, total)
    requires m.kind.MsgFileData? && m.filename == name
    ensures var r := Handle(disk, s, m, fd);
            && Consistent(r)
            && r.storage == s.storage[name := content + m.data]
            && if total > 0 && |content + m.data| >= total then r.file.None?
               else ReceivingAt(r, name, content + m.data, total)
  {
  }

  /** A chunk that finds no stream for its file opens one, as a header would. */
  lemma {:induction false} ChunkOpens(disk: Disk, s: Server, m: Message, fd: int)
    requires AlwaysOpens(disk) && Consistent(s) && Wire(m) && m.kind.MsgFileData?
    requires !(s.isReceiving && s.filename == m.filename)
    ensures var t := Start(disk, s, m.filename, m.totalSize, fd);
            && Handle(disk, s, m, fd) == Handle(disk, t, m, fd)
            && ReceivingAt(t, m.filename, [], m.totalSize) && t.storage == s.storage[m.filename := []]
  {
  }

  ghost predicate Parts(parts: seq<seq<Byte>>) {
    forall i :: 0 <= i < |parts| ==> 0 < |parts[i]| <= BUFFER_SIZE
  }

  lemma {:induction false} ConcatLast(parts: seq<seq<Byte>>)
    requires parts != []
    ensures Concat(parts) == Concat(parts[..|parts| - 1]) + parts[|parts| - 1]
  {
    var n := |parts| - 1;
    if n > 0 {
      ConcatLast(parts[1..]);
      assert parts[1..][..n - 1] == parts[..n][1..];
    } else {
      assert parts[1..] == [] && parts[..0] == [];
      assert Concat(parts) == parts[0] + [];
    }
  }

  /** The bytes in all chunks but the last. */
  ghost function BeforeLast(parts: seq<seq<Byte>>): nat {
    if parts == [] then 0 else |Concat(parts[..|parts| - 1])|
  }

  lemma {:induction false} BeforeLastTail(parts: seq<seq<Byte>>)
    requires |parts| > 1
    ensures BeforeLast(parts) == |parts[0]| + BeforeLast(parts[1..])
  {
    var n := |parts| - 1;
    assert parts[..n][1..] == parts[1..][..n - 1];
  }

  lemma {:induction false} ChunkArrivals(nickname: string, filename: string, total: int, parts: seq<seq<Byte>>, fd: int)
    requires parts != []
    ensures From(ChunkMessages(nickname, filename, total, parts), fd) ==
            [(FileMessage(MsgFileData, nickname, filename, total, parts[0]), fd)] +
            From(ChunkMessages(nickname, filename, total, parts[1..]), fd)
  {
  }

  /** Chunks go to the end of the open file as long as none but the last reaches its size. */
  lemma {:induction false} ChunksAppend(disk: Disk, s: Server, nickname: string, filename: string, total: int,
                                        parts: seq<seq<Byte>>, fd: int, content: seq<Byte>, expected: int)
    requires Parts(parts)
    requires ReceivingAt(s, SafeCopy(filename, MAX_FILENAME), content, expected)
    requires expected <= 0 || parts == [] || |content| + BeforeLast(parts) < expected
    ensures var name := SafeCopy(filename, MAX_FILENAME);
            var r := HandleAll(disk, s, From(ChunkMessages(nickname, filename, total, parts), fd));
            && r.storage == s.storage[name := content + Concat(parts)]
            && Consistent(r)
    decreases |parts|
  {
    var name := SafeCopy(filename, MAX_FILENAME);
    if parts == [] {
      assert content + [] == content;
    } else {
      ChunkArrivals(nickname, filename, total, parts, fd);
      var m := FileMessage(MsgFileData, nickname, filename, total, parts[0]);
      HandleChunk(disk, s, m, fd, name, content, expected);
      var t := Handle(disk, s, m, fd);
      assert content + parts[0] + Concat(parts[1..]) == content + Concat(parts);
      if |parts| == 1 {
        assert parts[1..] == [] && parts[..0] == [];
        assert content + Concat(parts) == content + parts[0];
      } else {
        BeforeLastTail(parts);
        ChunksAppend(disk, t, nickname, filename, total, parts[1..], fd, content + parts[0], expected);
      }
    }
  }

  /** When an earlier chunk reaches the size the open stream expects, the stream is closed under
      the rest of the upload, which then starts a new file: the beginning is lost. */
  lemma {:induction false} ChunksCut(disk: Disk, s: Server, nickname: string, filename: string, total: int,
                                     parts: seq<seq<Byte>>, fd: int, content: seq<Byte>, expected: int)
    requires AlwaysOpens(disk) && Parts(parts)
    requires ReceivingAt(s, SafeCopy(filename, MAX_FILENAME), content, expected)
    requires parts != [] && 0 < expected <= |content| + BeforeLast(parts)
    requires |Concat(parts)| <= total
    ensures var name := SafeCopy(filename, MAX_FILENAME);
            var r := HandleAll(disk, s, From(ChunkMessages(nickname, filename, total, parts), fd));
            && name in r.storage && |r.storage[name]| < |Concat(parts)|
    decreases |parts|
  {
    var name := SafeCopy(filename, MAX_FILENAME);
    assert parts[..0] == [] && Concat(parts[..0]) == [];
    assert |parts| > 1;
    BeforeLastTail(parts);
    ChunkArrivals(nickname, filename, total, parts, fd);
    var m := FileMessage(MsgFileData, nickname, filename, total, parts[0]);
    HandleChunk(disk, s, m, fd, name, content, expected);
    var t, rest := Handle(disk, s, m, fd), parts[1..];
    if t.file.None? {
      ChunkArrivals(nickname, filename, total, rest, fd);
      var m' := FileMessage(MsgFileData, nickname, filename, total, rest[0]);
      ChunkOpens(disk, t, m', fd);
      var u := Start(disk, t, name, total, fd);
      ConcatLast(rest);
      ChunksAppend(disk, u, nickname, filename, total, rest, fd, [], total);
      assert [] + Concat(rest) == Concat(rest);
    } else {
      ChunksCut(disk, t, nickname, filename, total, rest, fd, content + parts[0], expected);
    }
  }

  /** The state in which an upload finds the server right for it: no stream of that name is open,
      or one that has received nothing and expects more than all but the last chunk. */
  ghost predicate Ready(s: Server, name: string, content: seq<Byte>) {
    || !(s.isReceiving && s.filename == name)
    || (s.bytesReceived == 0 &&
        (s.totalSize <= 0 || content == [] || (|content| - 1) / BUFFER_SIZE * BUFFER_SIZE < s.totalSize))
  }

  /** All chunks but the last are full. */
  lemma {:induction false} ChunksBeforeLast(content: seq<Byte>)
    requires content != []
    ensures Chunks(content) != [] && Parts(Chunks(content)) && Concat(Chunks(content)) == content
    ensures BeforeLast(Chunks(content)) == (|content| - 1) / BUFFER_SIZE * BUFFER_SIZE < |content|
    decreases |content|
  {
    ChunksRebuild(content);
    var parts := Chunks(content);
    if |content| <= BUFFER_SIZE {
      assert parts[..0] == [];
    } else {
      var rest := content[BUFFER_SIZE..];
      ChunksBeforeLast(rest);
      assert parts[1..] == Chunks(rest);
      BeforeLastTail(parts);
      OneChunkMore(|rest|);
    }
  }

  lemma {:induction false} OneChunkMore(n: nat)
    requires n > 0
    ensures (n + BUFFER_SIZE - 1) / BUFFER_SIZE == 1 + (n - 1) / BUFFER_SIZE
  {
  }

  /** The server after the header of an upload. */
  lemma {:induction false} AfterHeader(disk: Disk, s: Server, nickname: string, filename: string,
                                       content: seq<Byte>, fd: int)
    requires AlwaysOpens(disk) && Consistent(s)
    ensures var name := SafeCopy(filename, MAX_FILENAME);
            var t := Handle(disk, s, FileMessage(MsgFile, nickname, filename, |content|, []), fd);
            if s.isReceiving && s.filename == name
            then t == s && ReceivingAt(t, name, OpenContent(s), s.totalSize)
            else ReceivingAt(t, name, [], |content|) && t.storage == s.storage[name := []]
  {
  }

  lemma {:induction false} TransmissionParts(disk: Disk, s: Server, nickname: string, filename: string,
                                             content: seq<Byte>, fd: int)
    ensures var t := Handle(disk, s, FileMessage(MsgFile, nickname, filename, |content|, []), fd);
            var u := HandleAll(disk, t, From(ChunkMessages(nickname, filename, |content|, Chunks(content)), fd));
            HandleAll(disk, s, From(Transmission(nickname, filename, content), fd)) == Finish(u)
  {
    var header := FileMessage(MsgFile, nickname, filename, |content|, []);
    var end := FileMessage(MsgFileEnd, nickname, filename, |content|, []);
    var chunks := ChunkMessages(nickname, filename, |content|, Chunks(content));
    assert From(Transmission(nickname, filename, content), fd) == [(header, fd)] + (From(chunks, fd) + [(end, fd)]);
    HandleAllJoin(disk, Handle(disk, s, header, fd), From(chunks, fd), [(end, fd)]);
  }

  lemma {:induction false} SameEntry(d: Directory, name: string, a: seq<Byte>, b: seq<Byte>)
    ensures d[name := a] == d[name := b] <==> a == b
  {
    assert d[name := a][name] == a && d[name := b][name] == b;
  }

  /** What the chunks of an upload leave behind when the server already has `had` of the file. */
  lemma {:induction false} ChunksStored(disk: Disk, t: Server, nickname: string, filename: string, content: seq<Byte>,
                                        fd: int, had: seq<Byte>, expected: int)
    requires AlwaysOpens(disk) && content != []
    requires ReceivingAt(t, SafeCopy(filename, MAX_FILENAME), had, expected)
    ensures var name := SafeCopy(filename, MAX_FILENAME);
            var u := HandleAll(disk, t, From(ChunkMessages(nickname, filename, |content|, Chunks(content)), fd));
            if expected <= 0 || |had| + (|content| - 1) / BUFFER_SIZE * BUFFER_SIZE < expected
            then Consistent(u) && u.storage == t.storage[name := had + content]
            else name in u.storage && |u.storage[name]| < |content|
  {
    ChunksBeforeLast(content);
    var parts := Chunks(content);
    if expected <= 0 || |had| + BeforeLast(parts) < expected {
      ChunksAppend(disk, t, nickname, filename, |content|, parts, fd, had, expected);
    } else {
      ChunksCut(disk, t, nickname, filename, |content|, parts, fd, had, expected);
    }
  }

  /** How much of the file the server has after the header, and how much it expects. */
  ghost function Had(s: Server, name: string): seq<Byte>
    requires Consistent(s)
  {
    if s.isReceiving && s.filename == name then OpenContent(s) else []
  }

  ghost function Expects(s: Server, name: string, content: seq<Byte>): int {
    if s.isReceiving && s.filename == name then s.totalSize else |content|
  }

  lemma {:induction false} ReadyMeans(s: Server, name: string, content: seq<Byte>)
    requires Consistent(s)
    ensures Ready(s, name, content) <==>
            Had(s, name) == [] &&
            (content == [] || Expects(s, name, content) <= 0
             || (|content| - 1) / BUFFER_SIZE * BUFFER_SIZE < Expects(s, name, content))
  {
    if content != [] {
      ChunksBeforeLast(content);
    }
  }

  lemma {:induction false} UploadStores(disk: Disk, s: Server, nickname: string, filename: string, content: seq<Byte>,
                                        fd: int)
    requires AlwaysOpens(disk) && Consistent(s)
    ensures var name := SafeCopy(filename, MAX_FILENAME);
            var r := HandleAll(disk, s, From(Transmission(nickname, filename, content), fd));
            var had, expected := Had(s, name), Expects(s, name, content);
            if content == [] || expected <= 0 || |had| + (|content| - 1) / BUFFER_SIZE * BUFFER_SIZE < expected
            then !r.isReceiving && r.storage == s.storage[name := had + content]
            else name in r.storage && |r.storage[name]| < |content|
  {
    var name := SafeCopy(filename, MAX_FILENAME);
    var t := Handle(disk, s, FileMessage(MsgFile, nickname, filename, |content|, []), fd);
    AfterHeader(disk, s, nickname, filename, content, fd);
    TransmissionParts(disk, s, nickname, filename, content, fd);
    assert ReceivingAt(t, name, Had(s, name), Expects(s, name, content));
    if content == [] {
      assert Had(s, name) + content == Had(s, name);
    } else {
      ChunksStored(disk, t, nickname, filename, content, fd, Had(s, name), Expects(s, name, content));
    }
  }

  /** Uploading a file makes the server store exactly its bytes under its name, and touches no
      other file, if and only if the server is ready for it; an idle server always is. */
  lemma {:induction false} UploadIsExact(disk: Disk, s: Server, nickname: string, filename: string,
                                         content: seq<Byte>, fd: int)
    requires AlwaysOpens(disk) && Consistent(s) && |content| < 0x8000_0000
    ensures var name := SafeCopy(filename, MAX_FILENAME);
            var r := HandleAll(disk, s, From(Transmission(nickname, filename, content), fd));
            && (r.storage == s.storage[name := content] <==> Ready(s, name, content))
            && (Ready(s, name, content) ==> !r.isReceiving)
  {
    var name := SafeCopy(filename, MAX_FILENAME);
    UploadStores(disk, s, nickname, filename, content, fd);
    ReadyMeans(s, name, content);
    SameEntry(s.storage, name, Had(s, name) + content, content);
    assert Had(s, name) == [] ==> Had(s, name) + content == content;
    assert Had(s, name) + content == content ==> Had(s, name) == [];
    assert s.storage[name := content][name] == content;
  }

  // ---------- download ----------

  /** The static variables of `receive_file`. */
  datatype Receiver = Receiver(file: Option<string>, currentFile: string, bytesReceived: int, totalSize: int,
                               folder: Directory, opens: nat)

  /** The `fopen` both branches that open a file share. */
  function OpenAnew(disk: Disk, r: Receiver, m: Message): Receiver {
    var q := r.(file := None, currentFile := SafeCopy(m.filename, MAX_FILENAME), totalSize := m.totalSize,
                bytesReceived := 0, opens := r.opens + 1);
    if disk(r.opens, m.filename) then q.(file := Some(m.filename), folder := r.folder[m.filename := []]) else q
  }

  function Store(r: Receiver, data: seq<Byte>): Receiver
    requires r.file.Some?
  {
    r.(folder := Written(r.folder, r.file.value, data), bytesReceived := r.bytesReceived + |data|)
  }

  /** `receive_file`, lines 121-205. */
  function Receive(disk: Disk, r: Receiver, m: Message): Receiver {
    match m.kind
    case MsgFile =>
      var r := OpenAnew(disk, r, m);
      if r.file.Some? && |m.data| > 0 then Store(r, m.data) else r
    case MsgFileData =>
      var r := if r.file.None? then OpenAnew(disk, r, m) else r;
      var r := if r.file.Some? && r.currentFile != m.filename then OpenAnew(disk, r, m) else r;
      if r.file.None? then r
      else
        var r := Store(r, m.data);
        if r.bytesReceived >= r.totalSize then r.(file := None) else r
    case MsgFileEnd => r.(file := None)
    case _ => r
  }

  function ReceiveAll(disk: Disk, r: Receiver, messages: seq<Message>): Receiver
    decreases |messages|
  {
    if messages == [] then r else ReceiveAll(disk, Receive(disk, r, messages[0]), messages[1..])
  }

  lemma {:induction false} ReceiveAllJoin(disk: Disk, r: Receiver, a: seq<Message>, b: seq<Message>)
    ensures ReceiveAll(disk, r, a + b) == ReceiveAll(disk, ReceiveAll(disk, r, a), b)
    decreases |a|
  {
    if a == [] {
      assert a + b == b;
    } else {
      ReceiveAllJoin(disk, Receive(disk, r, a[0]), a[1..], b);
      assert (a + b)[1..] == a[1..] + b;
    }
  }

  ghost predicate Downloading(r: Receiver, name: string, content: seq<Byte>, total: int) {
    && r.file == Some(name) && r.currentFile == name && r.totalSize == total
    && name in r.folder && r.folder[name] == content && r.bytesReceived == |content|
  }

  lemma {:induction false} DownloadChunks(disk: Disk, r: Receiver, nickname: string, filename: string, total: int,
                                          parts: seq<seq<Byte>>, content: seq<Byte>)
    requires Parts(parts) && Downloading(r, SafeCopy(filename, MAX_FILENAME), content, total)
    requires parts == [] || |content| + BeforeLast(parts) < total
    ensures var q := ReceiveAll(disk, r, ChunkMessages(nickname, filename, total, parts));
            q.folder == r.folder[SafeCopy(filename, MAX_FILENAME) := content + Concat(parts)]
    decreases |parts|
  {
    var name := SafeCopy(filename, MAX_FILENAME);
    if parts == [] {
      assert content + [] == content;
    } else {
      var m := FileMessage(MsgFileData, nickname, filename, total, parts[0]);
      assert ChunkMessages(nickname, filename, total, parts) ==
             [m] + ChunkMessages(nickname, filename, total, parts[1..]);
      assert content + parts[0] + Concat(parts[1..]) == content + Concat(parts);
      if |parts| == 1 {
        assert parts[1..] == [] && parts[..0] == [];
        assert content + Concat(parts) == content + parts[0];
      } else {
        BeforeLastTail(parts);
        DownloadChunks(disk, Receive(disk, r, m), nickname, filename, total, parts[1..], content + parts[0]);
      }
    }
  }

  lemma {:induction false} HeaderReceived(disk: Disk, r: Receiver, nickname: string, filename: string,
                                          content: seq<Byte>)
    requires AlwaysOpens(disk)
    ensures var name := SafeCopy(filename, MAX_FILENAME);
            var t := Receive(disk, r, FileMessage(MsgFile, nickname, filename, |content|, []));
            Downloading(t, name, [], |content|) && t.folder == r.folder[name := []]
  {
  }

  lemma {:induction false} ReceiveParts(disk: Disk, r: Receiver, header: Message, chunks: seq<Message>, end: Message)
    ensures ReceiveAll(disk, r, [header] + chunks + [end]) ==
            Receive(disk, ReceiveAll(disk, Receive(disk, r, header), chunks), end)
  {
    assert [header] + chunks + [end] == [header] + (chunks + [end]);
    assert ([header] + (chunks + [end]))[1..] == chunks + [end] && [end][1..] == [];
    ReceiveAllJoin(disk, Receive(disk, r, header), chunks, [end]);
    var t := ReceiveAll(disk, Receive(disk, r, header), chunks);
    assert ReceiveAll(disk, t, [end]) == ReceiveAll(disk, Receive(disk, t, end), []);
  }

  /** A complete transmission rebuilds the file at the receiver, whatever the receiver was doing
      before, for every length including 0 and the multiples of 4096. */
  lemma {:induction false} TransmissionIsReceived(disk: Disk, r: Receiver, nickname: string, filename: string,
                                                  content: seq<Byte>)
    requires AlwaysOpens(disk) && |content| < 0x8000_0000
    ensures var q := ReceiveAll(disk, r, Transmission(nickname, filename, content));
            && q.folder == r.folder[SafeCopy(filename, MAX_FILENAME) := content]
            && q.file.None?
  {
    var header := FileMessage(MsgFile, nickname, filename, |content|, []);
    var chunks := ChunkMessages(nickname, filename, |content|, Chunks(content));
    HeaderReceived(disk, r, nickname, filename, content);
    ReceiveParts(disk, r, header, chunks, FileMessage(MsgFileEnd, nickname, filename, |content|, []));
    if content == [] {
      assert chunks == [];
    } else {
      ChunksBeforeLast(content);
      DownloadChunks(disk, Receive(disk, r, header), nickname, filename, |content|, Chunks(content), []);
      assert [] + content == content;
    }
  }

  /** Upload followed by download is the identity: what an idle server stored for one client is
      what any receiver rebuilds from the messages the server then sends it. */
  lemma {:induction false} UploadThenDownload(serverDisk: Disk, clientDisk: Disk, s: Server, r: Receiver,
                                              nickname: string, filename: string, content: seq<Byte>, fd: int)
    requires AlwaysOpens(serverDisk) && AlwaysOpens(clientDisk)
    requires Consistent(s) && !s.isReceiving && |content| < 0x8000_0000
    ensures var name := SafeCopy(filename, MAX_FILENAME);
            var storage := HandleAll(serverDisk, s, From(Transmission(nickname, filename, content), fd)).storage;
            && name in storage
            && ReceiveAll(clientDisk, r, Transmission("SERVER", name, storage[name])).folder ==
               r.folder[name := content]
  {
    UploadIsExact(serverDisk, s, nickname, filename, content, fd);
    var name := SafeCopy(filename, MAX_FILENAME);
    TransmissionIsReceived(clientDisk, r, "SERVER", name, content);
  }

  // ---------- the programs' own state ----------

  /** The global `file_receiver` of the server and the directory it writes to. */
  class FileReceiver {
    const disk: Disk
    var file: Option<string>
    var filename: string
    var bytesReceived: int
    var totalSize: int
    var isReceiving: bool
    var senderFd: int
    var storage: Directory
    var opens: nat

    ghost function Value(): Server
      reads this
    {
      Server(file, filename, bytesReceived, totalSize, isReceiving, senderFd, storage, opens)
    }

    constructor (disk: Disk)
      ensures this.disk == disk && Value() == IDLE_SERVER
    {
      this.disk := disk;
      file, filename, bytesReceived, totalSize := None, "", 0, 0;
      isReceiving, senderFd, storage, opens := false, -1, map[], 0;
    }

    method ResetFileReceiver()
      modifies this
      ensures Value() == Reset(old(Value()))
    {
      file := None;
      filename := "";
      bytesReceived, totalSize := 0, 0;
      isReceiving := false;
      senderFd := -1;
    }

    method StartFileReceive(name: string, total: int, sender: int)
      modifies this
      ensures Value() == Start(disk, old(Value()), name, total, sender)
    {
      if isReceiving && filename != name {
        ResetFileReceiver();
      }
      if !isReceiving || filename != name {
        var success := disk(opens, name);
        opens := opens + 1;
        if !success {
          file := None;
          return;
        }
        file, storage := Some(name), storage[name := []];
        filename := SafeCopy(name, MAX_FILENAME);
        totalSize, bytesReceived := total, 0;
        isReceiving, senderFd := true, sender;
      }
    }

    method AppendFileData(name: string, data: seq<Byte>)
      modifies this
      ensures Value() == Append(disk, old(Value()), name, data)
    {
      if !isReceiving || filename != name {
        StartFileReceive(name, 0, -1);
      }
      if file.Some? {
        storage := Written(storage, file.value, data);
        bytesReceived := bytesReceived + |data|;
        if totalSize > 0 && bytesReceived >= totalSize {
          file, isReceiving := None, false;
        }
      }
    }

    method FinishFileReceive()
      modifies this
      ensures Value() == Finish(old(Value()))
    {
      if isReceiving && file.Some? {
        file, isReceiving := None, false;
      }
    }

    /** The file cases of `handle_client_message`; the relay to the other clients is separate. */
    method HandleFileMessage(m: Message, fd: int)
      modifies this
      ensures Value() == Handle(disk, old(Value()), m, fd)
    {
      match m.kind
      case MsgFile =>
        StartFileReceive(m.filename, m.totalSize, fd);
        if |m.data| > 0 {
          AppendFileData(m.filename, m.data);
        }
      case MsgFileData =>
        if !isReceiving || filename != m.filename {
          StartFileReceive(m.filename, m.totalSize, fd);
        }
        AppendFileData(m.filename, m.data);
      case MsgFileEnd =>
        FinishFileReceive();
      case _ =>
    }
  }

  /** The static variables of `receive_file` in the client. */
  class FileDownload {
    const disk: Disk
    var file: Option<string>
    var currentFile: string
    var bytesReceived: int
    var totalSize: int
    var folder: Directory
    var opens: nat

    ghost function Value(): Receiver
      reads this
    {
      Receiver(file, currentFile, bytesReceived, totalSize, folder, opens)
    }

    constructor (disk: Disk)
      ensures this.disk == disk && Value() == Receiver(None, "", 0, 0, map[], 0)
    {
      this.disk := disk;
      file, currentFile, bytesReceived, totalSize, folder, opens := None, "", 0, 0, map[], 0;
    }

    method Open(m: Message)
      modifies this
      ensures Value() == OpenAnew(disk, old(Value()), m)
    {
      file := None;
      currentFile := SafeCopy(m.filename, MAX_FILENAME);
      totalSize, bytesReceived := m.totalSize, 0;
      if disk(opens, m.filename) {
        file, folder := Some(m.filename), folder[m.filename := []];
      }
      opens := opens + 1;
    }

    method ReceiveFile(m: Message)
      modifies this
      ensures Value() == Receive(disk, old(Value()), m)
    {
      match m.kind
      case MsgFile =>
        Open(m);
        if file.Some? && |m.data| > 0 {
          folder := Written(folder, file.value, m.data);
          bytesReceived := bytesReceived + |m.data|;
        }
      case MsgFileData =>
        if file.None? {
          Open(m);
        }
        if file.Some? && currentFile != m.filename {
          Open(m);
        }
        if file.Some? {
          folder := Written(folder, file.value, m.data);
          bytesReceived := bytesReceived + |m.data|;
          if bytesReceived >= totalSize {
            file := None;
          }
        }
      case MsgFileEnd =>
        file := None;
      case _ =>
    }
  }
}
