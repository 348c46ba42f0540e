/** The file copy protocol of module3/01: the parent sends files down one pipe, the child writes
    the copies and acknowledges each file on a second pipe.

    Parent and child are two programs that take turns in any order; an event names the one that
    moves. The acknowledgement pipe holds bytes, and a read takes whatever is there, up to its
    buffer. On the data pipe a header and the end mark are read on their own (a read returns
    what is there when it is made, and the parent pauses after a header), while file data, in
    however many writes it came, is read in pieces of any length from 1 to 4095 bytes. A write
    waits until the pipe has room for it; a read waits for data unless the other end is closed. */
module PipeCopy {
  import opened Options
  import opened Text

  const BUFFER_SIZE := 4096
  const MAX_FILENAME := 256
  const HEADER_SIZE := 512
  const ACK_SIZE := 10
  const READY := "READY\0"
  const ACK := "ACK\0"
  const END := "END\0"

  /** `create_copy_name`. */
  function CopyName(name: string): string {
    name + ".copy"
  }

  /** What the parent prints as the header of a file. */
  function Header(name: string, size: int): string {
    "FILE:" + name + "|SIZE:" + FormatInt(size)
  }

  type Disk = map<string, string>

  function Content(disk: Disk, name: string): string {
    if name in disk then disk[name] else ""
  }

  // ---------- the child ----------

  datatype ChildAt = Start | Reading | Exited

  datatype Child = Child(at: ChildAt, open: Option<string>, receiving: bool, size: int, total: int,
                         filename: string)

  /** What handling a buffer changes: the files, the child, and what goes to the parent. */
  datatype Outcome = Outcome(disk: Disk, child: Child, reply: string)

  /** Lines 93-98, 156-161 and 178-183: the file is complete, or believed to be. */
  function CloseFile(disk: Disk, c: Child): Outcome {
    if c.open.Some? then Outcome(disk, c.(open := None, receiving := false), ACK) else Outcome(disk, c, "")
  }

  /** Lines 107-110: the name ends at the first bar; without one the last name stays. */
  function NameIn(text: string, last: string): string {
    if |text| < 5 then last
    else
      var bar := IndexOf(text[5..], '|');
      if bar < |text| - 5 then text[5..][..bar] else last
  }

  /** Line 112: without a number the last size stays. */
  function SizeIn(text: string, at: nat, last: int): int
    requires at <= |text|
  {
    if |text| - at < 5 then last
    else
      var n := ScanInt(text[at + 5..]);
      if n.Some? then n.value else last
  }

  /** Lines 102-138. */
  function OpenCopy(disk: Disk, c: Child, buffer: string): Outcome {
    var text := CString(buffer);
    var at := Find(text, "SIZE:");
    if at.None? then Outcome(disk, c, "")
    else
      var name, size := NameIn(text, c.filename), SizeIn(text, at.value, c.size);
      var disk' := disk[CopyName(name) := ""];
      if size == 0 then Outcome(disk', c.(open := None, receiving := false, size := 0, filename := name), ACK)
      else
        var c' := c.(open := Some(CopyName(name)), receiving := true, size := size, total := 0, filename := name);
        Outcome(disk', c', "")
  }

  /** Lines 91-139. */
  function TakeHeader(disk: Disk, c: Child, buffer: string): Outcome {
    var closed := CloseFile(disk, c);
    var next := OpenCopy(closed.disk, closed.child, buffer);
    next.(reply := closed.reply + next.reply)
  }

  /** Lines 141-151. */
  function TakeEnd(disk: Disk, c: Child): Outcome {
    var closed := CloseFile(disk, c);
    closed.(child := closed.child.(at := Exited))
  }

  /** Lines 153-186. */
  function TakeData(disk: Disk, c: Child, buffer: string): Outcome {
    if !c.receiving || c.open.None? then Outcome(disk, c, "")
    else if c.size - c.total <= 0 then CloseFile(disk, c)
    else
      var count := if |buffer| < c.size - c.total then |buffer| else c.size - c.total;
      var disk' := disk[c.open.value := Content(disk, c.open.value) + buffer[..count]];
      var c' := c.(total := c.total + count);
      if c'.total >= c.size then CloseFile(disk', c') else Outcome(disk', c', "")
  }

  /** A buffer that the child takes for a header or for the end, whatever was meant. */
  predicate LooksLikeControl(buffer: string) {
    StartsWith(buffer, "FILE:") || StartsWith(buffer, "END")
  }

  function Take(disk: Disk, c: Child, buffer: string): Outcome {
    if StartsWith(buffer, "FILE:") then TakeHeader(disk, c, buffer)
    else if StartsWith(buffer, "END") then TakeEnd(disk, c)
    else TakeData(disk, c, buffer)
  }

  // ---------- the system ----------

  datatype Segment = Control(bytes: string) | Payload(bytes: string)

  datatype ParentAt = WaitReady | NextFile | Sending | WaitAck | Done

  datatype Parent = Parent(at: ParentAt, i: nat, sent: nat)

  /** The names on the command line and the capacity of the data pipe. */
  datatype Setup = Setup(names: seq<string>, capacity: nat)

  /** `headers` and `acks` are bookkeeping: how many headers and acknowledgements were written. */
  datatype System = System(disk: Disk, data: seq<Segment>, ack: string, parent: Parent, child: Child,
                           headers: nat, acks: nat)

  datatype Event = ParentMoves | ChildMoves(count: nat)

  function Initial(disk: Disk): System {
    System(disk, [], "", Parent(WaitReady, 0, 0), Child(Start, None, false, 0, 0, ""), 0, 0)
  }

  function PipeSize(data: seq<Segment>): nat {
    if data == [] then 0 else |data[0].bytes| + PipeSize(data[1..])
  }

  /** Consecutive data writes are one stretch of bytes to the reader. */
  function PutPayload(data: seq<Segment>, bytes: string): seq<Segment> {
    if data != [] && data[|data| - 1].Payload?
    then data[..|data| - 1] + [Payload(data[|data| - 1].bytes + bytes)]
    else data + [Payload(bytes)]
  }

  predicate Room(u: Setup, data: seq<Segment>, count: nat) {
    PipeSize(data) + count <= u.capacity
  }

  /** Line 50: the next piece of the file. */
  function Piece(content: string, sent: nat): (piece: string)
    ensures |piece| <= BUFFER_SIZE
  {
    if sent >= |content| then ""
    else if |content| - sent <= BUFFER_SIZE then content[sent..]
    else content[sent..sent + BUFFER_SIZE]
  }

  /** Lines 26-48, and 62-63 after the last name. */
  function StartFile(u: Setup, s: System): System {
    var p := s.parent;
    if p.i >= |u.names| then
      if Room(u, s.data, |END|) then s.(data := s.data + [Control(END)], parent := p.(at := Done)) else s
    else if u.names[p.i] !in s.disk then s.(parent := p.(i := p.i + 1))
    else
      var header := Header(u.names[p.i], |s.disk[u.names[p.i]]|) + "\0";
      if Room(u, s.data, |header|)
      then s.(data := s.data + [Control(header)], parent := p.(at := Sending, sent := 0), headers := s.headers + 1)
      else s
  }

  /** Lines 50-53. */
  function SendPiece(u: Setup, s: System): System {
    var p := s.parent;
    var piece := if p.i < |u.names| then Piece(Content(s.disk, u.names[p.i]), p.sent) else "";
    if piece == "" then s.(parent := p.(at := WaitAck))
    else if Room(u, s.data, |piece|)
    then s.(data := PutPayload(s.data, piece), parent := p.(sent := p.sent + |piece|))
    else s
  }

  /** What is left after `read(ack_read_fd, ack, sizeof(ack))`. */
  function AfterRead(ack: string): string {
    if |ack| <= ACK_SIZE then "" else ack[ACK_SIZE..]
  }

  function ParentStep(u: Setup, s: System): System {
    match s.parent.at
    case WaitReady => if s.ack == "" then s else s.(ack := AfterRead(s.ack), parent := s.parent.(at := NextFile))
    case NextFile => StartFile(u, s)
    case Sending => SendPiece(u, s)
    case WaitAck =>
      if s.ack == "" then s
      else s.(ack := AfterRead(s.ack), parent := s.parent.(at := NextFile, i := s.parent.i + 1))
    case Done => s
  }

  /** The bytes the next read of at most `count` returns, and what it leaves. */
  function ReadLength(data: seq<Segment>, count: nat): (n: nat)
    requires data != []
    ensures n <= |data[0].bytes|
  {
    var available := |data[0].bytes|;
    var limit := if data[0].Control? || count > BUFFER_SIZE - 1 then BUFFER_SIZE - 1
                 else if count == 0 then 1 else count;
    if available < limit then available else limit
  }

  function AfterReading(data: seq<Segment>, n: nat): seq<Segment>
    requires data != [] && n <= |data[0].bytes|
  {
    if n == |data[0].bytes| then data[1..]
    else [if data[0].Control? then Control(data[0].bytes[n..]) else Payload(data[0].bytes[n..])] + data[1..]
  }

  function CountAcks(reply: string): nat {
    |reply| / |ACK|
  }

  function ChildRead(s: System, count: nat): System
    requires s.data != []
  {
    var n := ReadLength(s.data, count);
    var o := Take(s.disk, s.child, s.data[0].bytes[..n]);
    s.(disk := o.disk, child := o.child, data := AfterReading(s.data, n), ack := s.ack + o.reply,
       acks := s.acks + CountAcks(o.reply))
  }

  function ChildStep(s: System, count: nat): System {
    match s.child.at
    case Start => s.(ack := s.ack + READY, child := s.child.(at := Reading))
    case Reading =>
      if s.data != [] then ChildRead(s, count)
      else if s.parent.at.Done? then s.(child := s.child.(at := Exited))
      else s
    case Exited => s
  }

  function Step(u: Setup, s: System, e: Event): System {
    match e
    case ParentMoves => ParentStep(u, s)
    case ChildMoves(count) => ChildStep(s, count)
  }

  function Run(u: Setup, s: System, events: seq<Event>): System
    decreases |events|
  {
    if events == [] then s else Run(u, Step(u, s, events[0]), events[1..])
  }

  /** No piece of file data that the child reads looks like a header or the end mark. */
  ghost predicate Clean(s: System, e: Event) {
    e.ChildMoves? && s.child.at.Reading? && s.data != [] && s.data[0].Payload? ==>
      !LooksLikeControl(s.data[0].bytes[..ReadLength(s.data, e.count)])
  }

  ghost predicate CleanRun(u: Setup, s: System, events: seq<Event>)
    decreases |events|
  {
    events != [] ==> Clean(s, events[0]) && CleanRun(u, Step(u, s, events[0]), events[1..])
  }

  /** What the protocol needs of the command line: names that the header can carry and whose
      copies' names fit the buffers of both programs, headers that their buffer holds, sizes an
      `int` can count, no name that is another one's copy, and a data pipe that takes a full
      write. */
  ghost predicate Copyable(u: Setup, disk: Disk) {
    && u.capacity >= BUFFER_SIZE
    && (forall j :: 0 <= j < |u.names| ==> Carried(u.names[j], disk))
    && (forall i, j :: 0 <= i < |u.names| && 0 <= j < |u.names| ==> u.names[i] != CopyName(u.names[j]))
  }

  ghost predicate Carried(name: string, disk: Disk) {
    && '|' !in name && '\0' !in name && !Contains(name, "SIZE:") && |CopyName(name)| < MAX_FILENAME
    && |Content(disk, name)| < 0x8000_0000 && |Header(name, |Content(disk, name)|)| < HEADER_SIZE
  }

  ghost predicate Finished(s: System) {
    s.parent.at.Done? && s.child.at.Exited?
  }

  /** How many of the first `i` names are files. */
  ghost function Existing(names: seq<string>, disk: Disk, i: nat): nat
    requires i <= |names|
  {
    if i == 0 then 0 else Existing(names, disk, i - 1) + if names[i - 1] in disk then 1 else 0
  }
}
