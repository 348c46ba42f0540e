/** What parent and child of module3/01 keep at every step, whatever the order of their turns
    and however the data is split into reads. */
module PipeCopySafety {
  import opened Options
  import opened Text
  import opened PipeCopy
  import opened PipeHeader

  // ---------- the invariant ----------

  ghost predicate IsCopy(names: seq<string>, name: string) {
    exists j :: 0 <= j < |names| && name == CopyName(names[j])
  }

  /** Every file but the copies is as it was. */
  ghost predicate Frame(names: seq<string>, before: Disk, disk: Disk) {
    forall name: string {:trigger IsCopy(names, name)} :: !IsCopy(names, name) ==>
      (name in disk <==> name in before) && Content(disk, name) == Content(before, name)
  }

  predicate HasCopy(before: Disk, disk: Disk, name: string) {
    CopyName(name) in disk && disk[CopyName(name)] == Content(before, name)
  }

  /** The first `i` names that are files have equal copies, except a copy being written anew. */
  ghost predicate Copied(names: seq<string>, before: Disk, disk: Disk, i: nat, writing: Option<string>) {
    forall j :: 0 <= j < i && j < |names| && names[j] in before && writing != Some(names[j]) ==>
      HasCopy(before, disk, names[j])
  }

  predicate Idle(c: Child) {
    c.at.Reading? && c.open.None? && !c.receiving
  }

  function Payloads(bytes: string): seq<Segment> {
    if bytes == "" then [] else [Payload(bytes)]
  }

  /** The three stages of a transfer, seen from the child. */
  ghost predicate HeaderUnread(name: string, content: string, s: System) {
    && s.parent.sent <= |content|
    && s.data == [Control(Header(name, |content|) + "\0")] + Payloads(content[..s.parent.sent])
    && s.ack == "" && Idle(s.child) && s.headers == s.acks + 1
  }

  ghost predicate Receiving(name: string, content: string, s: System) {
    && 0 <= s.child.total <= s.parent.sent <= |content| && s.child.total < |content| == s.child.size
    && s.data == Payloads(content[s.child.total..s.parent.sent])
    && s.ack == "" && s.child.at.Reading? && s.child.open == Some(CopyName(name)) && s.child.receiving
    && CopyName(name) in s.disk && s.disk[CopyName(name)] == content[..s.child.total]
    && s.headers == s.acks + 1
  }

  ghost predicate Complete(name: string, content: string, s: System) {
    && s.parent.sent == |content| && s.data == [] && s.ack == ACK && Idle(s.child)
    && CopyName(name) in s.disk && s.disk[CopyName(name)] == content
    && s.headers == s.acks
  }

  ghost predicate Transfer(name: string, content: string, s: System) {
    HeaderUnread(name, content, s) || Receiving(name, content, s) || Complete(name, content, s)
  }

  ghost predicate InTransfer(u: Setup, before: Disk, s: System) {
    && s.parent.i < |u.names| && u.names[s.parent.i] in before
    && s.headers == Existing(u.names, before, s.parent.i) + 1
    && Transfer(u.names[s.parent.i], Content(before, u.names[s.parent.i]), s)
  }

  ghost predicate Phase(u: Setup, before: Disk, s: System) {
    match s.parent.at
    case WaitReady =>
      && s.parent.i == 0 && s.data == [] && s.headers == s.acks == 0
      && ((s.child.at.Start? && s.child.open.None? && !s.child.receiving && s.ack == "")
          || (Idle(s.child) && s.ack == READY))
    case NextFile =>
      && s.parent.i <= |u.names| && s.data == [] && s.ack == "" && Idle(s.child)
      && s.headers == s.acks == Existing(u.names, before, s.parent.i)
    case Sending => InTransfer(u, before, s)
    case WaitAck => InTransfer(u, before, s) && s.parent.sent == |Content(before, u.names[s.parent.i])|
    case Done =>
      && s.parent.i == |u.names| && s.ack == "" && s.headers == s.acks == Existing(u.names, before, s.parent.i)
      && ((s.data == [Control(END)] && Idle(s.child)) || (s.data == [] && s.child.at.Exited?))
  }

  function Writing(u: Setup, p: Parent): Option<string> {
    if (p.at.Sending? || p.at.WaitAck?) && p.i < |u.names| then Some(u.names[p.i]) else None
  }

  datatype Aspect = TheFrame | TheCopies | ThePhase

  ghost predicate Holds(u: Setup, before: Disk, s: System, aspect: Aspect) {
    match aspect
    case TheFrame => Frame(u.names, before, s.disk)
    case TheCopies => Copied(u.names, before, s.disk, s.parent.i, Writing(u, s.parent))
    case ThePhase => Phase(u, before, s)
  }

  ghost predicate Inv(u: Setup, before: Disk, s: System) {
    forall aspect: Aspect :: Holds(u, before, s, aspect)
  }

  lemma {:induction false} InitialInv(u: Setup, before: Disk)
    ensures Inv(u, before, Initial(before))
  {
  }

  // ---------- files ----------

  /** A name on the command line is nobody's copy, so its file never changes. */
  lemma {:induction false} SourceKept(u: Setup, before: Disk, disk: Disk, i: nat)
    requires Copyable(u, before) && Frame(u.names, before, disk) && i < |u.names|
    ensures u.names[i] in disk <==> u.names[i] in before
    ensures Content(disk, u.names[i]) == Content(before, u.names[i])
  {
    assert !IsCopy(u.names, u.names[i]);
  }

  lemma {:induction false} CopyNameInjective(a: string, b: string)
    requires CopyName(a) == CopyName(b)
    ensures a == b
  {
    assert CopyName(a)[..|a|] == a;
    assert CopyName(b)[..|b|] == b;
  }

  /** Writing the copy of `names[i]` touches no other copy and no source. */
  lemma {:induction false} WriteCopy(names: seq<string>, before: Disk, disk: Disk, i: nat, bytes: string)
    requires i < |names| && Frame(names, before, disk) && Copied(names, before, disk, i, Some(names[i]))
    ensures Frame(names, before, disk[CopyName(names[i]) := bytes])
    ensures Copied(names, before, disk[CopyName(names[i]) := bytes], i, Some(names[i]))
  {
    var disk' := disk[CopyName(names[i]) := bytes];
    assert IsCopy(names, CopyName(names[i]));
    forall j | 0 <= j < i && names[j] in before && names[j] != names[i]
      ensures HasCopy(before, disk', names[j])
    {
      if CopyName(names[j]) == CopyName(names[i]) {
        CopyNameInjective(names[j], names[i]);
      }
      assert HasCopy(before, disk, names[j]);
    }
  }

  lemma {:induction false} CopyDone(names: seq<string>, before: Disk, disk: Disk, i: nat)
    requires i < |names| && Copied(names, before, disk, i, Some(names[i])) && HasCopy(before, disk, names[i])
    ensures Copied(names, before, disk, i + 1, None)
  {
  }

  lemma {:induction false} CopySkipped(names: seq<string>, before: Disk, disk: Disk, i: nat)
    requires i < |names| && Copied(names, before, disk, i, None) && names[i] !in before
    ensures Copied(names, before, disk, i + 1, None)
  {
  }

  // ---------- the data pipe ----------

  lemma {:induction false} PutGrows(content: string, from: nat, sent: nat, more: nat)
    requires from <= sent < more <= |content|
    ensures PutPayload(Payloads(content[from..sent]), content[sent..more]) == Payloads(content[from..more])
    ensures forall header: string ::
              PutPayload([Control(header)] + Payloads(content[from..sent]), content[sent..more])
              == [Control(header)] + Payloads(content[from..more])
  {
    assert content[from..more] == content[from..sent] + content[sent..more];
  }

  lemma {:induction false} ReadShrinks(content: string, from: nat, n: nat, sent: nat)
    requires from < sent <= |content| && n <= sent - from
    ensures Payloads(content[from..sent])[0].bytes[..n] == content[from..from + n]
    ensures AfterReading(Payloads(content[from..sent]), n) == Payloads(content[from + n..sent])
  {
    assert content[from..sent][n..] == content[from + n..sent];
  }

  // ---------- parent steps ----------

  lemma {:induction false} EndKeeps(u: Setup, before: Disk, s: System)
    requires Inv(u, before, s) && s.parent.at.NextFile? && s.parent.i >= |u.names|
    ensures Inv(u, before, StartFile(u, s))
  {
    assert Holds(u, before, s, TheFrame) && Holds(u, before, s, TheCopies) && Holds(u, before, s, ThePhase);
  }

  lemma {:induction false} SkipKeeps(u: Setup, before: Disk, s: System)
    requires Copyable(u, before) && Inv(u, before, s) && s.parent.at.NextFile?
    requires s.parent.i < |u.names| && u.names[s.parent.i] !in before
    ensures Inv(u, before, StartFile(u, s))
  {
    assert Holds(u, before, s, TheFrame) && Holds(u, before, s, TheCopies) && Holds(u, before, s, ThePhase);
    SourceKept(u, before, s.disk, s.parent.i);
    CopySkipped(u.names, before, s.disk, s.parent.i);
  }

  lemma {:induction false} SendHeaderKeeps(u: Setup, before: Disk, s: System)
    requires Copyable(u, before) && Inv(u, before, s) && s.parent.at.NextFile?
    requires s.parent.i < |u.names| && u.names[s.parent.i] in before
    ensures Inv(u, before, StartFile(u, s))
  {
    assert Holds(u, before, s, TheFrame) && Holds(u, before, s, TheCopies) && Holds(u, before, s, ThePhase);
    SourceKept(u, before, s.disk, s.parent.i);
    assert Carried(u.names[s.parent.i], before);
    var t := StartFile(u, s);
    assert t == s || HeaderUnread(u.names[s.parent.i], Content(before, u.names[s.parent.i]), t);
  }

  lemma {:induction false} StartFileKeeps(u: Setup, before: Disk, s: System)
    requires Copyable(u, before) && Inv(u, before, s) && s.parent.at.NextFile?
    ensures Inv(u, before, StartFile(u, s))
  {
    if s.parent.i >= |u.names| {
      EndKeeps(u, before, s);
    } else if u.names[s.parent.i] !in before {
      SkipKeeps(u, before, s);
    } else {
      SendHeaderKeeps(u, before, s);
    }
  }

  lemma {:induction false} SendUnread(u: Setup, name: string, content: string, s: System, n: nat)
    requires HeaderUnread(name, content, s) && 0 < n && s.parent.sent + n <= |content|
    ensures HeaderUnread(name, content, s.(data := PutPayload(s.data, content[s.parent.sent..s.parent.sent + n]),
                                           parent := s.parent.(sent := s.parent.sent + n)))
  {
    PutGrows(content, 0, s.parent.sent, s.parent.sent + n);
    assert content[0..s.parent.sent] == content[..s.parent.sent];
    assert content[0..s.parent.sent + n] == content[..s.parent.sent + n];
  }

  lemma {:induction false} SendReceiving(u: Setup, name: string, content: string, s: System, n: nat)
    requires Receiving(name, content, s) && 0 < n && s.parent.sent + n <= |content|
    ensures Receiving(name, content, s.(data := PutPayload(s.data, content[s.parent.sent..s.parent.sent + n]),
                                        parent := s.parent.(sent := s.parent.sent + n)))
  {
    PutGrows(content, s.child.total, s.parent.sent, s.parent.sent + n);
  }

  lemma {:induction false} PieceIs(content: string, sent: nat)
    requires sent <= |content|
    ensures var n := |Piece(content, sent)|;
            && sent + n <= |content| && Piece(content, sent) == content[sent..sent + n]
            && (n == 0 <==> sent == |content|)
            && n == if |content| - sent < 4096 then |content| - sent else 4096
  {
  }

  lemma {:induction false} TransferSent(name: string, content: string, s: System)
    requires Transfer(name, content, s)
    ensures s.parent.sent <= |content|
  {
  }

  lemma {:induction false} SendKeepsTransfer(u: Setup, name: string, content: string, s: System, n: nat)
    requires Transfer(name, content, s) && 0 < n && s.parent.sent + n <= |content|
    ensures Transfer(name, content, s.(data := PutPayload(s.data, content[s.parent.sent..s.parent.sent + n]),
                                       parent := s.parent.(sent := s.parent.sent + n)))
  {
    if HeaderUnread(name, content, s) {
      SendUnread(u, name, content, s, n);
    } else {
      SendReceiving(u, name, content, s, n);
    }
  }

  lemma {:induction false} SendPieceKeeps(u: Setup, before: Disk, s: System)
    requires Copyable(u, before) && Inv(u, before, s) && s.parent.at.Sending?
    ensures Inv(u, before, SendPiece(u, s))
  {
    assert Holds(u, before, s, TheFrame) && Holds(u, before, s, TheCopies) && Holds(u, before, s, ThePhase);
    var content := Content(before, u.names[s.parent.i]);
    SourceKept(u, before, s.disk, s.parent.i);
    TransferSent(u.names[s.parent.i], content, s);
    PieceIs(content, s.parent.sent);
    var n := |Piece(content, s.parent.sent)|;
    if n > 0 && Room(u, s.data, n) {
      SendKeepsTransfer(u, u.names[s.parent.i], content, s, n);
    }
  }

  lemma {:induction false} AckedIsComplete(name: string, content: string, s: System)
    requires Transfer(name, content, s) && s.ack != ""
    ensures Complete(name, content, s)
  {
  }

  lemma {:induction false} AckReadKeepsCopies(u: Setup, before: Disk, s: System)
    requires Holds(u, before, s, TheCopies) && Holds(u, before, s, ThePhase) && s.parent.at.WaitAck? && s.ack != ""
    ensures Holds(u, before, ParentStep(u, s), TheCopies)
  {
    AckedIsComplete(u.names[s.parent.i], Content(before, u.names[s.parent.i]), s);
    CopyDone(u.names, before, s.disk, s.parent.i);
  }

  lemma {:induction false} AckReadKeepsPhase(u: Setup, before: Disk, s: System)
    requires Holds(u, before, s, ThePhase) && s.parent.at.WaitAck? && s.ack != ""
    ensures Holds(u, before, ParentStep(u, s), ThePhase)
  {
    AckedIsComplete(u.names[s.parent.i], Content(before, u.names[s.parent.i]), s);
    assert Existing(u.names, before, s.parent.i + 1) == Existing(u.names, before, s.parent.i) + 1;
  }

  lemma {:induction false} WaitAckKeeps(u: Setup, before: Disk, s: System)
    requires Inv(u, before, s) && s.parent.at.WaitAck?
    ensures Inv(u, before, ParentStep(u, s))
  {
    assert Holds(u, before, s, TheFrame) && Holds(u, before, s, TheCopies) && Holds(u, before, s, ThePhase);
    if s.ack != "" {
      AckReadKeepsCopies(u, before, s);
      AckReadKeepsPhase(u, before, s);
    }
  }

  lemma {:induction false} ParentKeeps(u: Setup, before: Disk, s: System)
    requires Copyable(u, before) && Inv(u, before, s)
    ensures Inv(u, before, ParentStep(u, s))
  {
    assert Holds(u, before, s, TheFrame) && Holds(u, before, s, TheCopies) && Holds(u, before, s, ThePhase);
    match s.parent.at
    case WaitReady =>
    case NextFile => StartFileKeeps(u, before, s);
    case Sending => SendPieceKeeps(u, before, s);
    case WaitAck => WaitAckKeeps(u, before, s);
    case Done =>
  }

  // ---------- child steps ----------

  lemma {:induction false} ReadWhole(s: System, count: nat)
    requires s.data != [] && s.data[0].Control? && |s.data[0].bytes| < BUFFER_SIZE
    ensures ReadLength(s.data, count) == |s.data[0].bytes|
    ensures s.data[0].bytes[..ReadLength(s.data, count)] == s.data[0].bytes
    ensures AfterReading(s.data, ReadLength(s.data, count)) == s.data[1..]
  {
  }

  lemma {:induction false} HeaderReadTransfer(name: string, content: string, s: System, count: nat)
    requires '|' !in name && '\0' !in name && !Contains(name, "SIZE:") && |Header(name, |content|)| < HEADER_SIZE
    requires HeaderUnread(name, content, s)
    ensures var t := ChildRead(s, count);
            && Transfer(name, content, t) && t.parent == s.parent && t.headers == s.headers
            && t.disk == s.disk[CopyName(name) := ""]
  {
    ReadWhole(s, count);
    HeaderAlone(s.disk, s.child, name, |content|);
    assert content[..0] == "";
    assert content[0..s.parent.sent] == content[..s.parent.sent];
    var t := ChildRead(s, count);
    if content == "" {
      assert Complete(name, content, t);
    } else {
      assert Receiving(name, content, t);
    }
  }

  /** The child reads the header: it opens the copy, or acknowledges an empty file at once. */
  lemma {:induction false} HeaderReadKeeps(u: Setup, before: Disk, s: System, count: nat)
    requires Copyable(u, before) && Inv(u, before, s) && (s.parent.at.Sending? || s.parent.at.WaitAck?)
    requires s.parent.i < |u.names| && HeaderUnread(u.names[s.parent.i], Content(before, u.names[s.parent.i]), s)
    ensures Inv(u, before, ChildRead(s, count))
  {
    assert Holds(u, before, s, TheFrame) && Holds(u, before, s, TheCopies) && Holds(u, before, s, ThePhase);
    var name := u.names[s.parent.i];
    assert Carried(name, before);
    HeaderReadTransfer(name, Content(before, name), s, count);
    WriteCopy(u.names, before, s.disk, s.parent.i, "");
  }

  /** A piece of data: what the child takes of it is the file's next stretch. */
  lemma {:induction false} TakeDataIs(name: string, content: string, s: System, n: nat)
    requires Receiving(name, content, s) && s.child.total + n <= s.parent.sent && 0 < n
    ensures var piece := content[s.child.total..s.child.total + n];
            var disk := s.disk[CopyName(name) := content[..s.child.total + n]];
            var c := s.child.(total := s.child.total + n);
            TakeData(s.disk, s.child, piece) ==
            if s.child.total + n == |content| then Outcome(disk, c.(open := None, receiving := false), ACK)
            else Outcome(disk, c, "")
  {
    var piece := content[s.child.total..s.child.total + n];
    assert piece[..n] == piece;
    assert content[..s.child.total] + piece == content[..s.child.total + n];
  }

  lemma {:induction false} DataReadIs(name: string, content: string, s: System, count: nat, n: nat)
    requires Receiving(name, content, s) && s.data != [] && n == ReadLength(s.data, count)
    requires !LooksLikeControl(s.data[0].bytes[..n])
    ensures 0 < n && s.child.total + n <= s.parent.sent
    ensures var t := ChildRead(s, count);
            && t.data == Payloads(content[s.child.total + n..s.parent.sent])
            && t.disk == s.disk[CopyName(name) := content[..s.child.total + n]]
            && t.parent == s.parent && t.headers == s.headers
            && (if s.child.total + n == |content|
                then t.child == s.child.(total := |content|, open := None, receiving := false)
                     && t.ack == ACK && t.acks == s.acks + 1
                else t.child == s.child.(total := s.child.total + n) && t.ack == "" && t.acks == s.acks)
  {
    ReadShrinks(content, s.child.total, n, s.parent.sent);
    TakeDataIs(name, content, s, n);
    assert "" + ACK == ACK;
  }

  lemma {:induction false} DataReadTransfer(name: string, content: string, s: System, count: nat)
    requires Receiving(name, content, s) && s.data != [] && Clean(s, ChildMoves(count))
    ensures Transfer(name, content, ChildRead(s, count)) && ChildRead(s, count).parent == s.parent
    ensures ChildRead(s, count).headers == s.headers
  {
    var n, t := ReadLength(s.data, count), ChildRead(s, count);
    DataReadIs(name, content, s, count, n);
    if s.child.total + n == |content| {
      assert content[..s.child.total + n] == content;
      assert content[s.child.total + n..s.parent.sent] == "";
      assert Complete(name, content, t);
    } else {
      assert Receiving(name, content, t);
    }
  }

  lemma {:induction false} DataReadKeeps(u: Setup, before: Disk, s: System, count: nat)
    requires Inv(u, before, s) && (s.parent.at.Sending? || s.parent.at.WaitAck?)
    requires s.parent.i < |u.names| && Receiving(u.names[s.parent.i], Content(before, u.names[s.parent.i]), s)
    requires s.data != [] && Clean(s, ChildMoves(count))
    ensures Inv(u, before, ChildRead(s, count))
  {
    assert Holds(u, before, s, TheFrame) && Holds(u, before, s, TheCopies) && Holds(u, before, s, ThePhase);
    var name, content := u.names[s.parent.i], Content(before, u.names[s.parent.i]);
    var n := ReadLength(s.data, count);
    DataReadIs(name, content, s, count, n);
    WriteCopy(u.names, before, s.disk, s.parent.i, content[..s.child.total + n]);
    DataReadTransfer(name, content, s, count);
  }

  lemma {:induction false} EndReadKeeps(u: Setup, before: Disk, s: System, count: nat)
    requires Inv(u, before, s) && s.parent.at.Done? && s.data != []
    ensures Inv(u, before, ChildRead(s, count))
  {
    assert Holds(u, before, s, TheFrame) && Holds(u, before, s, TheCopies) && Holds(u, before, s, ThePhase);
    ReadWhole(s, count);
    assert StartsWith(END, "END") && !StartsWith(END, "FILE:");
    assert Take(s.disk, s.child, END) == Outcome(s.disk, s.child.(at := Exited), "");
    assert "" + "" == "";
  }

  lemma {:induction false} ChildReadKeeps(u: Setup, before: Disk, s: System, count: nat)
    requires Copyable(u, before) && Inv(u, before, s) && Clean(s, ChildMoves(count))
    requires s.child.at.Reading? && s.data != []
    ensures Inv(u, before, ChildRead(s, count))
  {
    assert Holds(u, before, s, TheFrame) && Holds(u, before, s, TheCopies) && Holds(u, before, s, ThePhase);
    match s.parent.at
    case WaitReady =>
    case NextFile =>
    case Sending => TransferReadKeeps(u, before, s, count);
    case WaitAck => TransferReadKeeps(u, before, s, count);
    case Done => EndReadKeeps(u, before, s, count);
  }

  lemma {:induction false} TransferReadKeeps(u: Setup, before: Disk, s: System, count: nat)
    requires Copyable(u, before) && Inv(u, before, s) && Clean(s, ChildMoves(count))
    requires s.child.at.Reading? && s.data != [] && (s.parent.at.Sending? || s.parent.at.WaitAck?)
    ensures Inv(u, before, ChildRead(s, count))
  {
    assert Holds(u, before, s, TheFrame) && Holds(u, before, s, TheCopies) && Holds(u, before, s, ThePhase);
    if HeaderUnread(u.names[s.parent.i], Content(before, u.names[s.parent.i]), s) {
      HeaderReadKeeps(u, before, s, count);
    } else {
      DataReadKeeps(u, before, s, count);
    }
  }

  lemma {:induction false} ReadyKeeps(u: Setup, before: Disk, s: System, count: nat)
    requires Inv(u, before, s) && s.child.at.Start?
    ensures Inv(u, before, ChildStep(s, count))
  {
    assert Holds(u, before, s, TheFrame) && Holds(u, before, s, TheCopies) && Holds(u, before, s, ThePhase);
    assert "" + READY == READY;
  }

  lemma {:induction false} WaitKeeps(u: Setup, before: Disk, s: System, count: nat)
    requires Inv(u, before, s) && s.child.at.Reading? && s.data == []
    ensures ChildStep(s, count) == s
  {
    assert Holds(u, before, s, ThePhase);
  }

  lemma {:induction false} ChildKeeps(u: Setup, before: Disk, s: System, count: nat)
    requires Copyable(u, before) && Inv(u, before, s) && Clean(s, ChildMoves(count))
    ensures Inv(u, before, ChildStep(s, count))
  {
    match s.child.at
    case Start => ReadyKeeps(u, before, s, count);
    case Reading =>
      if s.data != [] {
        ChildReadKeeps(u, before, s, count);
      } else {
        WaitKeeps(u, before, s, count);
      }
    case Exited =>
  }

  lemma {:induction false} StepKeeps(u: Setup, before: Disk, s: System, e: Event)
    requires Copyable(u, before) && Inv(u, before, s) && Clean(s, e)
    ensures Inv(u, before, Step(u, s, e))
  {
    match e
    case ParentMoves => ParentKeeps(u, before, s);
    case ChildMoves(count) => ChildKeeps(u, before, s, count);
  }

  /** The invariant holds after every run without a look-alike read. */
  lemma {:induction false} RunKeeps(u: Setup, before: Disk, s: System, events: seq<Event>)
    requires Copyable(u, before) && Inv(u, before, s) && CleanRun(u, s, events)
    ensures Inv(u, before, Run(u, s, events))
    decreases |events|
  {
    if events != [] {
      StepKeeps(u, before, s, events[0]);
      RunKeeps(u, before, Step(u, s, events[0]), events[1..]);
    }
  }
}
