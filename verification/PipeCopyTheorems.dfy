/** What the copy protocol of module3/01 achieves. */
module PipeCopyTheorems {
  import opened Text
  import opened PipeCopy
  import opened PipeCopySafety

  // ---------- the copies ----------

  /** When both programs have finished, every file named has a byte-equal copy, one
      acknowledgement was sent for each file, and no other file changed. */
  lemma {:induction false} FinishedMeansCopied(u: Setup, before: Disk, events: seq<Event>)
    requires Copyable(u, before) && CleanRun(u, Initial(before), events) && Finished(Run(u, Initial(before), events))
    ensures var s := Run(u, Initial(before), events);
            && (forall j :: 0 <= j < |u.names| && u.names[j] in before ==>
                  u.names[j] + ".copy" in s.disk && s.disk[u.names[j] + ".copy"] == before[u.names[j]])
            && s.acks == s.headers == Existing(u.names, before, |u.names|)
            && Frame(u.names, before, s.disk)
  {
    InitialInv(u, before);
    RunKeeps(u, before, Initial(before), events);
    var s := Run(u, Initial(before), events);
    assert Holds(u, before, s, TheFrame) && Holds(u, before, s, TheCopies) && Holds(u, before, s, ThePhase);
    forall j | 0 <= j < |u.names| && u.names[j] in before
      ensures u.names[j] + ".copy" in s.disk && s.disk[u.names[j] + ".copy"] == before[u.names[j]]
    {
      assert HasCopy(before, s.disk, u.names[j]);
    }
  }

  /** A header is sent only when every earlier one has been acknowledged and the
      acknowledgement has been read. */
  lemma {:induction false} HeaderAfterAck(u: Setup, before: Disk, s: System, e: Event)
    requires Copyable(u, before) && Inv(u, before, s)
    ensures s.acks <= s.headers <= s.acks + 1
    ensures Step(u, s, e).headers > s.headers ==> s.acks == s.headers && s.ack == "" && s.data == []
  {
    assert Holds(u, before, s, TheFrame) && Holds(u, before, s, TheCopies) && Holds(u, before, s, ThePhase);
    match e
    case ParentMoves =>
    case ChildMoves(count) =>
  }

  /** A read of file data can return any number of bytes from 1 to 4095 that are there, and no
      other; a read of a header or the end mark returns all of it. */
  lemma {:induction false} ReadSizes(data: seq<Segment>, n: nat)
    requires data != [] && data[0].bytes != ""
    ensures data[0].Payload? ==>
              ((exists count: nat :: ReadLength(data, count) == n) <==> 1 <= n <= 4095 && n <= |data[0].bytes|)
    ensures data[0].Control? && |data[0].bytes| <= 4095 ==>
              forall count: nat :: ReadLength(data, count) == |data[0].bytes|
  {
    if data[0].Payload? && 1 <= n <= 4095 && n <= |data[0].bytes| {
      assert ReadLength(data, n) == n;
    }
  }

  // ---------- progress ----------

  ghost function Rest(names: seq<string>, before: Disk, i: nat): nat
    decreases |names| - i
  {
    if i >= |names| then 0
    else Rest(names, before, i + 1) + 4 + 2 * |Content(before, names[i])|
  }

  ghost function ParentWork(u: Setup, before: Disk, p: Parent): int {
    match p.at
    case WaitReady => Rest(u.names, before, p.i) + 4
    case NextFile => Rest(u.names, before, p.i) + 3
    case Sending =>
      Rest(u.names, before, p.i + 1) + 5
      + (if p.i < |u.names| then 2 * (|Content(before, u.names[p.i])| - p.sent) else 0)
    case WaitAck => Rest(u.names, before, p.i + 1) + 4
    case Done => 0
  }

  ghost function PipeWork(data: seq<Segment>): nat {
    if data == [] then 0
    else (if data[0].Control? then 1 else |data[0].bytes|) + PipeWork(data[1..])
  }

  /** The steps that are still to come, at most. */
  ghost function Work(u: Setup, before: Disk, s: System): int {
    ParentWork(u, before, s.parent) + PipeWork(s.data) + if s.child.at.Start? then 1 else 0
  }

  lemma {:induction false} PutWorks(data: seq<Segment>, bytes: string)
    ensures PipeWork(PutPayload(data, bytes)) == PipeWork(data) + |bytes|
  {
    if data != [] && !(|data| == 1 && data[0].Payload?) {
      assert PutPayload(data, bytes) == [data[0]] + PutPayload(data[1..], bytes);
      PutWorks(data[1..], bytes);
    }
  }

  lemma {:induction false} WorkNotNegative(u: Setup, before: Disk, s: System)
    requires Inv(u, before, s)
    ensures Work(u, before, s) >= 0
  {
    assert Holds(u, before, s, TheFrame) && Holds(u, before, s, TheCopies) && Holds(u, before, s, ThePhase);
  }

  lemma {:induction false} SendPieceWorks(u: Setup, before: Disk, s: System)
    requires s.parent.at.Sending? && s.parent.i < |u.names| && SendPiece(u, s) != s
    requires var name := u.names[s.parent.i];
             Content(s.disk, name) == Content(before, name) && s.parent.sent <= |Content(before, name)|
    ensures Work(u, before, SendPiece(u, s)) < Work(u, before, s)
  {
    PieceIs(Content(before, u.names[s.parent.i]), s.parent.sent);
    PutWorks(s.data, Piece(Content(before, u.names[s.parent.i]), s.parent.sent));
  }

  lemma {:induction false} StartFileWorks(u: Setup, before: Disk, s: System)
    requires s.parent.at.NextFile? && s.data == [] && StartFile(u, s) != s
    requires s.parent.i < |u.names| ==> Content(s.disk, u.names[s.parent.i]) == Content(before, u.names[s.parent.i])
    ensures Work(u, before, StartFile(u, s)) < Work(u, before, s)
  {
    var t := StartFile(u, s);
    assert t.data == [] || (|t.data| == 1 && t.data[0].Control? && t.data[1..] == []);
  }

  lemma {:induction false} ParentWorks(u: Setup, before: Disk, s: System)
    requires Copyable(u, before) && Inv(u, before, s) && ParentStep(u, s) != s
    ensures Work(u, before, ParentStep(u, s)) < Work(u, before, s)
  {
    match s.parent.at
    case WaitReady => AckWorks(u, before, s);
    case NextFile => NextFileWorks(u, before, s);
    case Sending => SendingWorks(u, before, s);
    case WaitAck => AckWorks(u, before, s);
    case Done =>
  }

  lemma {:induction false} AckWorks(u: Setup, before: Disk, s: System)
    requires (s.parent.at.WaitReady? || s.parent.at.WaitAck?) && ParentStep(u, s) != s
    ensures Work(u, before, ParentStep(u, s)) < Work(u, before, s)
  {
  }

  lemma {:induction false} NextFileWorks(u: Setup, before: Disk, s: System)
    requires Copyable(u, before) && Inv(u, before, s) && s.parent.at.NextFile? && StartFile(u, s) != s
    ensures Work(u, before, StartFile(u, s)) < Work(u, before, s)
  {
    assert Holds(u, before, s, TheFrame);
    assert Holds(u, before, s, ThePhase);
    if s.parent.i < |u.names| {
      SourceKept(u, before, s.disk, s.parent.i);
    }
    StartFileWorks(u, before, s);
  }

  lemma {:induction false} SendingWorks(u: Setup, before: Disk, s: System)
    requires Copyable(u, before) && Inv(u, before, s) && s.parent.at.Sending? && SendPiece(u, s) != s
    ensures Work(u, before, SendPiece(u, s)) < Work(u, before, s)
  {
    assert Holds(u, before, s, TheFrame);
    assert Holds(u, before, s, ThePhase);
    SourceKept(u, before, s.disk, s.parent.i);
    TransferSent(u.names[s.parent.i], Content(before, u.names[s.parent.i]), s);
    SendPieceWorks(u, before, s);
  }

  lemma {:induction false} ReadWorks(data: seq<Segment>, n: nat)
    requires data != [] && 0 < n <= |data[0].bytes| && (data[0].Control? ==> n == |data[0].bytes|)
    ensures PipeWork(AfterReading(data, n)) < PipeWork(data)
  {
    if n < |data[0].bytes| {
      assert AfterReading(data, n)[1..] == data[1..];
    }
  }

  lemma {:induction false} FrontIs(u: Setup, before: Disk, s: System, count: nat)
    requires Copyable(u, before) && Inv(u, before, s) && s.data != []
    ensures var n := ReadLength(s.data, count);
            0 < n <= |s.data[0].bytes| && (s.data[0].Control? ==> n == |s.data[0].bytes|)
  {
    assert Holds(u, before, s, TheFrame) && Holds(u, before, s, TheCopies) && Holds(u, before, s, ThePhase);
    if s.parent.at.Sending? || s.parent.at.WaitAck? {
      assert Carried(u.names[s.parent.i], before);
    }
  }

  lemma {:induction false} ChildWorks(u: Setup, before: Disk, s: System, count: nat)
    requires Copyable(u, before) && Inv(u, before, s) && ChildStep(s, count) != s
    ensures Work(u, before, ChildStep(s, count)) < Work(u, before, s)
  {
    assert Holds(u, before, s, TheFrame) && Holds(u, before, s, TheCopies) && Holds(u, before, s, ThePhase);
    if s.child.at.Reading? && s.data != [] {
      FrontIs(u, before, s, count);
      ReadWorks(s.data, ReadLength(s.data, count));
      TakeStays(s.disk, s.child, s.data[0].bytes[..ReadLength(s.data, count)]);
    }
  }

  lemma {:induction false} TakeStays(disk: Disk, c: Child, buffer: string)
    requires c.at.Reading?
    ensures !Take(disk, c, buffer).child.at.Start?
  {
  }

  /** Every step that changes anything leaves less to do: no run changes state for ever. */
  lemma {:induction false} StepWorks(u: Setup, before: Disk, s: System, e: Event)
    requires Copyable(u, before) && Inv(u, before, s) && Step(u, s, e) != s
    ensures Work(u, before, Step(u, s, e)) < Work(u, before, s)
  {
    match e
    case ParentMoves => ParentWorks(u, before, s);
    case ChildMoves(count) => ChildWorks(u, before, s, count);
  }

  ghost predicate Busy(u: Setup, s: System, events: seq<Event>)
    decreases |events|
  {
    events != [] ==> Step(u, s, events[0]) != s && Busy(u, Step(u, s, events[0]), events[1..])
  }

  /** A run in which every turn does something is no longer than twice the data plus a few
      steps for each name. */
  lemma {:induction false} RunsAreBounded(u: Setup, before: Disk, s: System, events: seq<Event>)
    requires Copyable(u, before) && Inv(u, before, s) && CleanRun(u, s, events) && Busy(u, s, events)
    ensures |events| <= Work(u, before, s)
    decreases |events|
  {
    WorkNotNegative(u, before, s);
    if events != [] {
      StepWorks(u, before, s, events[0]);
      StepKeeps(u, before, s, events[0]);
      RunsAreBounded(u, before, Step(u, s, events[0]), events[1..]);
    }
  }

  /** Neither side waits for ever: until both have finished the parent can move, or the child
      can, whatever length its read returns. */
  lemma {:induction false} NoDeadlock(u: Setup, before: Disk, s: System, count: nat)
    requires Copyable(u, before) && Inv(u, before, s) && !Finished(s)
    ensures ParentStep(u, s) != s || ChildStep(s, count) != s
  {
    if s.child.at.Reading? && s.data != [] {
      FrontIs(u, before, s, count);
      ReadWorks(s.data, ReadLength(s.data, count));
      assert ChildStep(s, count).data != s.data;
    } else {
      ParentTurn(u, before, s);
    }
  }

  /** With nothing for the child to read, it is the parent's turn, or the child's to start. */
  lemma {:induction false} ParentTurn(u: Setup, before: Disk, s: System)
    requires Copyable(u, before) && Inv(u, before, s) && !Finished(s) && (s.child.at.Reading? ==> s.data == [])
    ensures ParentStep(u, s).parent != s.parent || s.child.at.Start?
  {
    assert Holds(u, before, s, TheFrame);
    assert Holds(u, before, s, ThePhase);
    if s.parent.at.NextFile? && s.parent.i < |u.names| {
      SourceKept(u, before, s.disk, s.parent.i);
      assert Carried(u.names[s.parent.i], before);
    } else if s.parent.at.Sending? {
      SourceKept(u, before, s.disk, s.parent.i);
      TransferSent(u.names[s.parent.i], Content(before, u.names[s.parent.i]), s);
      PieceIs(Content(before, u.names[s.parent.i]), s.parent.sent);
    }
  }

  // ---------- which files are safe ----------

  ghost predicate MarkerFree(content: string) {
    !Contains(content, "FILE:") && !Contains(content, "END")
  }

  /** Whatever the lengths of the reads, none is taken for a header or the end mark, exactly when
      the file contains neither mark. */
  lemma {:induction false} EveryReadCleanExactlyWhen(content: string)
    ensures (forall from: nat, to: nat :: from < to <= |content| && to - from < BUFFER_SIZE ==>
               !LooksLikeControl(content[from..to]))
            <==> MarkerFree(content)
  {
    if MarkerFree(content) {
      forall from: nat, to: nat | from < to <= |content| && to - from < BUFFER_SIZE
        ensures !LooksLikeControl(content[from..to])
      {
        ReadIsClean(content, from, to);
      }
    } else {
      MarkIsRead(content);
    }
  }

  lemma {:induction false} ReadIsClean(content: string, from: nat, to: nat)
    requires MarkerFree(content) && from <= to <= |content|
    ensures !LooksLikeControl(content[from..to])
  {
    assert !StartsWith(content[from..], "FILE:") && !StartsWith(content[from..], "END");
    assert content[from..to] <= content[from..];
  }

  lemma {:induction false} MarkIsRead(content: string)
    requires !MarkerFree(content)
    ensures exists from: nat, to: nat :: from < to <= |content| && to - from < BUFFER_SIZE
                                         && LooksLikeControl(content[from..to])
  {
    if Contains(content, "END") {
      var k :| 0 <= k <= |content| && StartsWith(content[k..], "END");
      MarkAt(content, "END", k);
    } else {
      var k :| 0 <= k <= |content| && StartsWith(content[k..], "FILE:");
      MarkAt(content, "FILE:", k);
    }
  }

  lemma {:induction false} MarkAt(content: string, mark: string, k: nat)
    requires mark == "END" || mark == "FILE:"
    requires k <= |content| && StartsWith(content[k..], mark)
    ensures k + |mark| <= |content| && LooksLikeControl(content[k..k + |mark|])
  {
    assert content[k..k + |mark|] == content[k..][..|mark|];
    assert StartsWith(content[k..k + |mark|], mark);
  }

  ghost predicate AllMarkerFree(u: Setup, before: Disk) {
    forall j :: 0 <= j < |u.names| ==> MarkerFree(Content(before, u.names[j]))
  }

  lemma {:induction false} ReceivingReadsClean(name: string, content: string, s: System, count: nat)
    requires Receiving(name, content, s) && MarkerFree(content) && s.data != []
    ensures Clean(s, ChildMoves(count))
  {
    var n := ReadLength(s.data, count);
    ReadShrinks(content, s.child.total, n, s.parent.sent);
    ReadIsClean(content, s.child.total, s.child.total + n);
  }

  lemma {:induction false} MarkerFreeIsClean(u: Setup, before: Disk, s: System, e: Event)
    requires Copyable(u, before) && AllMarkerFree(u, before) && Inv(u, before, s)
    ensures Clean(s, e)
  {
    assert Holds(u, before, s, ThePhase);
    if e.ChildMoves? && s.child.at.Reading? && s.data != [] && s.data[0].Payload? {
      ReceivingReadsClean(u.names[s.parent.i], Content(before, u.names[s.parent.i]), s, e.count);
    }
  }

  /** Files that contain neither mark are copied whatever the schedule and the read lengths. */
  lemma {:induction false} MarkerFreeRunsClean(u: Setup, before: Disk, s: System, events: seq<Event>)
    requires Copyable(u, before) && AllMarkerFree(u, before) && Inv(u, before, s)
    ensures CleanRun(u, s, events)
    decreases |events|
  {
    if events != [] {
      MarkerFreeIsClean(u, before, s, events[0]);
      StepKeeps(u, before, s, events[0]);
      MarkerFreeRunsClean(u, before, Step(u, s, events[0]), events[1..]);
    }
  }

  lemma {:induction false} MarkerFreeFilesCopied(u: Setup, before: Disk, events: seq<Event>)
    requires Copyable(u, before) && AllMarkerFree(u, before) && Finished(Run(u, Initial(before), events))
    ensures var s := Run(u, Initial(before), events);
            forall j :: 0 <= j < |u.names| && u.names[j] in before ==>
              u.names[j] + ".copy" in s.disk && s.disk[u.names[j] + ".copy"] == before[u.names[j]]
  {
    InitialInv(u, before);
    MarkerFreeRunsClean(u, before, Initial(before), events);
    FinishedMeansCopied(u, before, events);
  }
}
