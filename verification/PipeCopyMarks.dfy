/** Files that contain "FILE:" or "END" and the copy protocol of module3/01: which reads break
    it, and that every such file has a run in which its copy is acknowledged too early. */
module PipeCopyMarks {
  import opened Options
  import opened Text
  import opened PipeCopy
  import opened PipeHeader
  import opened PipeCopySafety
  import opened PipeCopyTheorems

  // ---------- a look-alike read ----------

  /** A data read that starts with "END" ends the child, and one that is just "FILE:" makes it
      drop the file: either way the copy that is open is acknowledged as it stands. */
  lemma {:induction false} MarkReadAcks(s: System, mark: string)
    requires s.child.at.Reading? && s.child.open.Some? && s.ack == "" && (mark == "END" || mark == "FILE:")
    requires s.data != [] && s.data[0].Payload? && |mark| <= |s.data[0].bytes| && s.data[0].bytes[..|mark|] == mark
    ensures var t := ChildStep(s, |mark|);
            && t.acks == s.acks + 1 && t.headers == s.headers && t.ack == ACK && t.disk == s.disk
            && t.child.open.None? && (mark == "END" ==> t.child.at.Exited?)
  {
    assert ReadLength(s.data, |mark|) == |mark|;
    assert "" + ACK == ACK && ACK + "" == ACK;
    if mark == "END" {
      assert mark[0] == 'E' && "FILE:"[0] == 'F';
      assert !StartsWith(mark, "FILE:");
    } else {
      NoSizeInMark();
    }
  }

  lemma {:induction false} NoSizeInMark()
    ensures CString("FILE:") == "FILE:" && Find("FILE:", "SIZE:").None?
  {
    var s := "FILE:";
    assert '\0' !in s;
    IndexOfSplit(s, '\0', "");
    forall k | 0 <= k <= |s|
      ensures !StartsWith(s[k..], "SIZE:")
    {
      if k < |s| {
        assert s[k..][0] == s[k] && s[k] != 'S';
      }
    }
  }

  // ---------- a run up to the first mark ----------

  /** `mark` stands at `k`. */
  ghost predicate MarkIsAt(content: string, k: nat, mark: string) {
    && (mark == "END" || mark == "FILE:") && k + |mark| <= |content| && content[k..k + |mark|] == mark
  }

  lemma {:induction false} MarkSomewhere(content: string) returns (k: nat, mark: string)
    requires !MarkerFree(content)
    ensures MarkIsAt(content, k, mark)
  {
    mark := if Contains(content, "END") then "END" else "FILE:";
    k :| 0 <= k <= |content| && StartsWith(content[k..], mark);
    assert content[k..k + |mark|] == content[k..][..|mark|];
  }

  /** The system in the middle of the file `j`, before the child has read up to `k`. */
  ghost predicate Underway(u: Setup, before: Disk, s: System, j: nat, k: nat) {
    && Transferable(u, before, j) && Inv(u, before, s) && s.parent.at.Sending? && s.parent.i == j
    && Receiving(u.names[j], before[u.names[j]], s) && s.child.total <= k < |before[u.names[j]]|
  }

  /** A file of the command line, and a data pipe that holds the end of a mark beside a write. */
  ghost predicate Transferable(u: Setup, before: Disk, j: nat) {
    j < |u.names| && u.names[j] in before && Copyable(u, before) && u.capacity >= BUFFER_SIZE + 5
  }

  /** With less than a mark's length unread there is room for the next piece. */
  lemma {:induction false} PieceGoesOut(u: Setup, s: System, name: string, content: string, n: nat)
    requires u.capacity >= BUFFER_SIZE + 5 && s.parent.at.Sending? && s.parent.i < |u.names|
    requires u.names[s.parent.i] == name && Content(s.disk, name) == content && Receiving(name, content, s)
    requires s.parent.sent - s.child.total < 5 && n == |Piece(content, s.parent.sent)| && n > 0
    ensures s.parent.sent + n <= |content|
    ensures ParentStep(u, s) == s.(data := PutPayload(s.data, content[s.parent.sent..s.parent.sent + n]),
                                   parent := s.parent.(sent := s.parent.sent + n))
  {
    PieceIs(content, s.parent.sent);
    assert PipeSize(s.data) == s.parent.sent - s.child.total;
  }

  lemma {:induction false} SendNext(u: Setup, before: Disk, s: System, j: nat, k: nat)
    requires Underway(u, before, s, j, k)
    requires s.parent.sent - s.child.total < 5 && s.parent.sent < |before[u.names[j]]|
    ensures var t := ParentStep(u, s);
            Underway(u, before, t, j, k) && t.child == s.child && t.acks == s.acks && t.parent.sent > s.parent.sent
  {
    var name := u.names[j];
    var content := before[name];
    assert Holds(u, before, s, TheFrame);
    SourceKept(u, before, s.disk, j);
    PieceIs(content, s.parent.sent);
    var n := |Piece(content, s.parent.sent)|;
    PieceGoesOut(u, s, name, content, n);
    SendReceiving(u, name, content, s, n);
    ParentKeeps(u, before, s);
  }

  lemma {:induction false} ReadOne(u: Setup, before: Disk, s: System, j: nat, k: nat)
    requires Underway(u, before, s, j, k) && s.child.total < s.parent.sent && s.child.total < k
    ensures var t := ChildStep(s, 1);
            && Underway(u, before, t, j, k) && t.parent == s.parent && t.acks == s.acks
            && t.child.total == s.child.total + 1
  {
    var content := before[u.names[j]];
    assert ReadLength(s.data, 1) == 1;
    assert "FILE:"[0] == 'F' && "END"[0] == 'E';
    assert Clean(s, ChildMoves(1));
    DataReadIs(u.names[j], content, s, 1, 1);
    DataReadTransfer(u.names[j], content, s, 1);
    ChildKeeps(u, before, s, 1);
  }

  /** A schedule that brings the child to `k`, byte by byte, with the mark there in the pipe. */
  lemma {:induction false} ReadUpTo(u: Setup, before: Disk, s: System, j: nat, k: nat, m: nat)
      returns (events: seq<Event>)
    requires Underway(u, before, s, j, k) && m <= 5 && k + m <= |before[u.names[j]]|
    ensures var t := Run(u, s, events);
            Underway(u, before, t, j, k) && t.acks == s.acks && t.child.total == k && k + m <= t.parent.sent
    decreases |before[u.names[j]]| - s.parent.sent + (k - s.child.total)
  {
    if s.parent.sent - s.child.total < 5 && s.parent.sent < |before[u.names[j]]| {
      SendNext(u, before, s, j, k);
      var rest := ReadUpTo(u, before, ParentStep(u, s), j, k, m);
      events := [ParentMoves] + rest;
      assert events[1..] == rest;
    } else if s.child.total < k {
      ReadOne(u, before, s, j, k);
      var rest := ReadUpTo(u, before, ChildStep(s, 1), j, k, m);
      events := [ChildMoves(1)] + rest;
      assert events[1..] == rest;
    } else {
      events := [];
    }
  }

  // ---------- a run up to the file ----------

  /** The parent has not yet opened the file `j`. */
  ghost predicate Upcoming(s: System, j: nat) {
    s.parent.i < j || (s.parent.i == j && (s.parent.at.WaitReady? || s.parent.at.NextFile?))
  }

  /** A read of a single byte is never taken for a header or the end mark. */
  lemma {:induction false} SingleByteClean(s: System)
    ensures Clean(s, ChildMoves(1))
  {
    if s.data != [] && s.data[0].Payload? {
      assert ReadLength(s.data, 1) <= 1;
    }
  }

  lemma {:induction false} ParentStaysBefore(u: Setup, s: System, j: nat)
    requires Upcoming(s, j) && !(s.parent.at.NextFile? && s.parent.i == j)
    ensures Upcoming(ParentStep(u, s), j)
  {
    match s.parent.at
    case WaitReady =>
    case NextFile =>
    case Sending =>
    case WaitAck =>
    case Done =>
  }

  /** With reads of single bytes the run gets past the files before `j`. */
  lemma {:induction false} ReachFile(u: Setup, before: Disk, s: System, j: nat) returns (events: seq<Event>)
    requires Copyable(u, before) && Inv(u, before, s) && j < |u.names| && Upcoming(s, j)
    ensures var t := Run(u, s, events);
            Inv(u, before, t) && t.parent.at.NextFile? && t.parent.i == j
    decreases Work(u, before, s)
  {
    if s.parent.at.NextFile? && s.parent.i == j {
      events := [];
    } else {
      assert Holds(u, before, s, ThePhase);
      NoDeadlock(u, before, s, 1);
      SingleByteClean(s);
      var e := if ParentStep(u, s) != s then ParentMoves else ChildMoves(1);
      WorkNotNegative(u, before, s);
      StepWorks(u, before, s, e);
      StepKeeps(u, before, s, e);
      ParentStaysBefore(u, s, j);
      var rest := ReachFile(u, before, Step(u, s, e), j);
      events := [e] + rest;
      assert events[1..] == rest;
    }
  }

  lemma {:induction false} HeaderGoesOut(u: Setup, before: Disk, s: System, j: nat)
    requires Transferable(u, before, j) && Inv(u, before, s) && s.parent.at.NextFile? && s.parent.i == j
    ensures var name := u.names[j];
            var t := ParentStep(u, s);
            && Inv(u, before, t) && t.parent == Parent(Sending, j, 0)
            && t.headers == s.headers + 1 && t.acks == s.acks == Existing(u.names, before, j)
            && HeaderUnread(name, before[name], t) && t.data == [Control(Header(name, |before[name]|) + "\0")]
  {
    var name := u.names[j];
    assert Holds(u, before, s, TheFrame) && Holds(u, before, s, ThePhase);
    SourceKept(u, before, s.disk, j);
    assert Carried(name, before);
    assert before[name][..0] == "";
    ParentKeeps(u, before, s);
  }

  lemma {:induction false} HeaderComesIn(u: Setup, before: Disk, s: System, j: nat, k: nat)
    requires Transferable(u, before, j) && k < |before[u.names[j]]| && Inv(u, before, s)
    requires s.parent == Parent(Sending, j, 0) && HeaderUnread(u.names[j], before[u.names[j]], s)
    requires s.data == [Control(Header(u.names[j], |before[u.names[j]]|) + "\0")]
    ensures Underway(u, before, ChildStep(s, 0), j, k) && ChildStep(s, 0).acks == s.acks
  {
    var name := u.names[j];
    assert Carried(name, before);
    ChildKeeps(u, before, s, 0);
    ReadWhole(s, 0);
    HeaderAlone(s.disk, s.child, name, |before[name]|);
    assert Holds(u, before, ChildStep(s, 0), ThePhase);
  }

  /** The header is sent and read. */
  lemma {:induction false} HeaderGoesOver(u: Setup, before: Disk, s: System, j: nat, k: nat)
    requires Transferable(u, before, j) && k < |before[u.names[j]]|
    requires Inv(u, before, s) && s.parent.at.NextFile? && s.parent.i == j
    ensures var t := Run(u, s, [ParentMoves, ChildMoves(0)]);
            Underway(u, before, t, j, k) && t.acks == Existing(u.names, before, j)
  {
    var sent := ParentStep(u, s);
    HeaderGoesOut(u, before, s, j);
    HeaderComesIn(u, before, sent, j, k);
    RunFirst(u, s, [ParentMoves, ChildMoves(0)], ParentMoves, [ChildMoves(0)]);
    RunFirst(u, sent, [ChildMoves(0)], ChildMoves(0), []);
  }

  lemma {:induction false} RunFirst(u: Setup, s: System, events: seq<Event>, e: Event, rest: seq<Event>)
    requires events == [e] + rest
    ensures Run(u, s, events) == Run(u, Step(u, s, e), rest)
  {
    assert events[1..] == rest;
  }

  lemma {:induction false} HeadOfJoin(a: seq<Event>, b: seq<Event>)
    requires a != []
    ensures a == [a[0]] + a[1..] && a + b == [a[0]] + (a[1..] + b)
  {
  }

  lemma {:induction false} RunJoin(u: Setup, s: System, a: seq<Event>, b: seq<Event>)
    ensures Run(u, s, a + b) == Run(u, Run(u, s, a), b)
    decreases |a|
  {
    if a == [] {
      assert a + b == b;
    } else {
      RunJoin(u, Step(u, s, a[0]), a[1..], b);
      HeadOfJoin(a, b);
      RunFirst(u, s, a + b, a[0], a[1..] + b);
      RunFirst(u, s, a, a[0], a[1..]);
    }
  }

  lemma {:induction false} Start(u: Setup, before: Disk, j: nat, k: nat) returns (events: seq<Event>)
    requires Transferable(u, before, j) && k < |before[u.names[j]]|
    ensures var t := Run(u, Initial(before), events);
            Underway(u, before, t, j, k) && t.acks == Existing(u.names, before, j)
  {
    InitialInv(u, before);
    var first := ReachFile(u, before, Initial(before), j);
    HeaderGoesOver(u, before, Run(u, Initial(before), first), j, k);
    RunJoin(u, Initial(before), first, [ParentMoves, ChildMoves(0)]);
    events := first + [ParentMoves, ChildMoves(0)];
  }

  lemma {:induction false} MarkIsRead(name: string, content: string, s: System, k: nat, mark: string)
    requires Receiving(name, content, s) && MarkIsAt(content, k, mark)
    requires s.child.total == k && k + |mark| <= s.parent.sent
    ensures var t := ChildStep(s, |mark|);
            && t.acks == s.acks + 1 == t.headers && t.disk == s.disk && t.disk[CopyName(name)] == content[..k]
            && (mark == "END" ==> t.child.at.Exited?)
  {
    assert content[k..s.parent.sent][..|mark|] == content[k..k + |mark|];
    MarkReadAcks(s, mark);
  }

  lemma {:induction false} RunThree(u: Setup, s: System, a: seq<Event>, b: seq<Event>, e: Event)
    ensures Run(u, s, a + b + [e]) == Step(u, Run(u, Run(u, s, a), b), e)
  {
    RunJoin(u, s, a, b);
    RunJoin(u, s, a + b, [e]);
    var t := Run(u, s, a + b);
    assert [e][1..] == [];
    assert Run(u, t, [e]) == Run(u, Step(u, t, e), []);
  }

  /** Any file of the command line with a mark at `k` has a run from the start that ends with the
      child reading that mark: the file is acknowledged when its copy holds its first `k` bytes
      only. */
  lemma {:induction false} MarkAcksEarly(u: Setup, before: Disk, j: nat, k: nat, mark: string)
      returns (events: seq<Event>)
    requires Transferable(u, before, j) && MarkIsAt(before[u.names[j]], k, mark)
    ensures var t := Run(u, Initial(before), events);
            && t.acks == t.headers == Existing(u.names, before, j) + 1 && CopyName(u.names[j]) in t.disk
            && t.disk[CopyName(u.names[j])] == before[u.names[j]][..k] && (mark == "END" ==> t.child.at.Exited?)
  {
    var first := Start(u, before, j, k);
    var s := Run(u, Initial(before), first);
    var onward := ReadUpTo(u, before, s, j, k, |mark|);
    MarkIsRead(u.names[j], before[u.names[j]], Run(u, s, onward), k, mark);
    events := first + onward + [ChildMoves(|mark|)];
    RunThree(u, Initial(before), first, onward, ChildMoves(|mark|));
  }

  lemma {:induction false} ExitedKeepsDisk(u: Setup, s: System, events: seq<Event>)
    requires s.child.at.Exited?
    ensures Run(u, s, events).disk == s.disk
    decreases |events|
  {
    if events != [] {
      ExitedKeepsDisk(u, Step(u, s, events[0]), events[1..]);
    }
  }

  /** After a run of that kind that ends at an "END", no continuation completes the copy. */
  lemma {:induction false} EndMarkTruncates(u: Setup, before: Disk, j: nat, k: nat) returns (events: seq<Event>)
    requires Transferable(u, before, j) && MarkIsAt(before[u.names[j]], k, "END")
    ensures Run(u, Initial(before), events).acks == Existing(u.names, before, j) + 1
    ensures forall more: seq<Event> :: !HasCopy(before, Run(u, Initial(before), events + more).disk, u.names[j])
  {
    events := MarkAcksEarly(u, before, j, k, "END");
    forall more: seq<Event>
      ensures !HasCopy(before, Run(u, Initial(before), events + more).disk, u.names[j])
    {
      RunJoin(u, Initial(before), events, more);
      ExitedKeepsDisk(u, Run(u, Initial(before), events), more);
      assert |before[u.names[j]][..k]| < |before[u.names[j]]|;
    }
  }

  // ---------- exactly which command lines are safe ----------

  /** The same name stands on the command line again, and its transfer is not yet acknowledged. */
  ghost predicate Rewritten(u: Setup, s: System, name: string) {
    s.headers > s.acks && Writing(u, s.parent) == Some(name)
  }

  /** Every file that the child has acknowledged has a byte-equal copy, unless the copy is just
      being written anew. */
  ghost predicate AckedCopied(u: Setup, before: Disk, s: System) {
    forall j :: 0 <= j < |u.names| && u.names[j] in before && Existing(u.names, before, j) < s.acks ==>
      HasCopy(before, s.disk, u.names[j]) || Rewritten(u, s, u.names[j])
  }

  lemma {:induction false} ExistingGrows(names: seq<string>, before: Disk, i: nat, j: nat)
    requires i <= j <= |names|
    ensures Existing(names, before, i) <= Existing(names, before, j)
  {
    if i < j {
      ExistingGrows(names, before, i, j - 1);
    }
  }

  lemma {:induction false} AckedBefore(u: Setup, before: Disk, s: System, j: nat)
    requires Inv(u, before, s) && j < |u.names| && u.names[j] in before && Existing(u.names, before, j) < s.acks
    ensures HasCopy(before, s.disk, u.names[j]) || Rewritten(u, s, u.names[j])
  {
    assert Holds(u, before, s, TheCopies) && Holds(u, before, s, ThePhase);
    var i := s.parent.i;
    if i <= j {
      ExistingGrows(u.names, before, i, j);
      if i < j {
        ExistingGrows(u.names, before, i + 1, j);
      }
    }
  }

  lemma {:induction false} AckedIsCopied(u: Setup, before: Disk, events: seq<Event>)
    requires Copyable(u, before) && AllMarkerFree(u, before)
    ensures AckedCopied(u, before, Run(u, Initial(before), events))
  {
    InitialInv(u, before);
    MarkerFreeRunsClean(u, before, Initial(before), events);
    RunKeeps(u, before, Initial(before), events);
    var s := Run(u, Initial(before), events);
    forall j | 0 <= j < |u.names| && u.names[j] in before && Existing(u.names, before, j) < s.acks
      ensures HasCopy(before, s.disk, u.names[j]) || Rewritten(u, s, u.names[j])
    {
      AckedBefore(u, before, s, j);
    }
  }

  /** Whatever the schedule and the lengths of the reads, every acknowledged file has a byte-equal
      copy, if and only if none of the files contains either mark. */
  lemma {:induction false} AckedIsCopiedExactlyWhen(u: Setup, before: Disk)
    requires Copyable(u, before) && u.capacity >= BUFFER_SIZE + 5
    ensures (forall events: seq<Event> :: AckedCopied(u, before, Run(u, Initial(before), events)))
            <==> AllMarkerFree(u, before)
  {
    if AllMarkerFree(u, before) {
      forall events: seq<Event>
        ensures AckedCopied(u, before, Run(u, Initial(before), events))
      {
        AckedIsCopied(u, before, events);
      }
    } else {
      var j :| 0 <= j < |u.names| && !MarkerFree(Content(before, u.names[j]));
      var k, mark := MarkSomewhere(Content(before, u.names[j]));
      var events := MarkAcksEarly(u, before, j, k, mark);
      assert |before[u.names[j]][..k]| < |before[u.names[j]]|;
      assert !AckedCopied(u, before, Run(u, Initial(before), events));
    }
  }

  /** With no name given twice the exception never applies: an acknowledged file has its copy. */
  lemma {:induction false} OnceNamedIsCopied(u: Setup, before: Disk, events: seq<Event>, j: nat)
    requires Copyable(u, before) && AllMarkerFree(u, before) && j < |u.names| && u.names[j] in before
    requires forall i :: 0 <= i < |u.names| && i != j ==> u.names[i] != u.names[j]
    requires Existing(u.names, before, j) < Run(u, Initial(before), events).acks
    ensures HasCopy(before, Run(u, Initial(before), events).disk, u.names[j])
  {
    AckedIsCopied(u, before, events);
    InitialInv(u, before);
    MarkerFreeRunsClean(u, before, Initial(before), events);
    RunKeeps(u, before, Initial(before), events);
    assert Holds(u, before, Run(u, Initial(before), events), ThePhase);
  }

  lemma {:induction false} ShortCopy(u: Setup, before: Disk, s: System, j: nat)
    requires Underway(u, before, s, j, 0)
    ensures !HasCopy(before, s.disk, u.names[j])
  {
    assert before[u.names[j]][..s.child.total] == "";
  }

  /** A file named again later on loses its acknowledged copy when the second header is read. */
  lemma {:induction false} TwiceNamed(u: Setup, before: Disk, i: nat, j: nat) returns (events: seq<Event>)
    requires Transferable(u, before, j) && i < j && u.names[i] == u.names[j] && before[u.names[j]] != ""
    ensures Existing(u.names, before, i) < Run(u, Initial(before), events).acks
    ensures !HasCopy(before, Run(u, Initial(before), events).disk, u.names[i])
  {
    EarlierCounts(u.names, before, i, j);
    events := Start(u, before, j, 0);
    ShortCopy(u, before, Run(u, Initial(before), events), j);
  }

  lemma {:induction false} EarlierCounts(names: seq<string>, before: Disk, i: nat, j: nat)
    requires i < j < |names| && names[i] in before
    ensures Existing(names, before, i) < Existing(names, before, j)
  {
    ExistingGrows(names, before, i + 1, j);
  }
}
