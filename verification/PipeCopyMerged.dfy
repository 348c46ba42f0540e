/** The copy protocol of module3/01 when a read returns a header together with data behind it:
    the data is lost, and the parent waits for an acknowledgement that comes only if the rest of
    the file contains "FILE:" or "END". */
module PipeCopyMerged {
  import opened Options
  import opened Text
  import opened PipeCopy
  import opened PipeHeader
  import opened PipeCopySafety
  import opened PipeCopyTheorems
  import opened PipeCopyMarks

  /** A header and the first `n` bytes of data in one buffer. */
  function MergedRead(s: System, n: nat): System
    requires |s.data| == 2 && n <= |s.data[1].bytes|
  {
    var o := Take(s.disk, s.child, s.data[0].bytes + s.data[1].bytes[..n]);
    s.(disk := o.disk, child := o.child, data := AfterReading(s.data[1..], n), ack := s.ack + o.reply,
       acks := s.acks + CountAcks(o.reply))
  }

  /** `n` bytes of the file have been swallowed: the child can never count up to its size. */
  ghost predicate Starved(u: Setup, s: System, name: string, content: string, n: nat) {
    && n > 0 && s.parent.i < |u.names| && u.names[s.parent.i] == name
    && (s.parent.at.Sending? || s.parent.at.WaitAck?) && s.parent.sent <= |content|
    && (s.parent.at.WaitAck? ==> s.parent.sent == |content|)
    && name in s.disk && s.disk[name] == content
    && s.child.at.Reading? && s.child.open == Some(CopyName(name)) && s.child.receiving
    && 0 <= s.child.total && s.child.total + n <= s.parent.sent && s.child.size == |content|
    && CopyName(name) in s.disk && |s.disk[CopyName(name)]| == s.child.total
    && s.data == Payloads(content[s.child.total + n..s.parent.sent]) && s.ack == ""
  }

  /** What `SendPiece` does in a starved state. */
  lemma {:induction false} StarvedPiece(u: Setup, s: System, name: string, content: string, n: nat)
    requires Starved(u, s, name, content, n) && s.parent.at.Sending?
    ensures var m := |Piece(content, s.parent.sent)|;
            && s.parent.sent + m <= |content| && (m == 0 <==> s.parent.sent == |content|)
            && ParentStep(u, s) ==
               if m == 0 then s.(parent := s.parent.(at := WaitAck))
               else if !Room(u, s.data, m) then s
               else s.(data := Payloads(content[s.child.total + n..s.parent.sent + m]),
                       parent := s.parent.(sent := s.parent.sent + m))
  {
    PieceIs(content, s.parent.sent);
    var m := |Piece(content, s.parent.sent)|;
    if m > 0 {
      PutGrows(content, s.child.total + n, s.parent.sent, s.parent.sent + m);
    }
  }

  lemma {:induction false} ParentStarves(u: Setup, s: System, name: string, content: string, n: nat)
    requires Starved(u, s, name, content, n)
    ensures Starved(u, ParentStep(u, s), name, content, n)
    ensures ParentStep(u, s).acks == s.acks && ParentStep(u, s).parent.i == s.parent.i
  {
    if s.parent.at.Sending? {
      StarvedPiece(u, s, name, content, n);
    }
  }

  /** A read of `m` bytes that does not look like control leaves the system starved. */
  lemma {:induction false} ReadStarves(u: Setup, s: System, name: string, content: string, n: nat, count: nat)
    requires Starved(u, s, name, content, n) && s.data != [] && Clean(s, ChildMoves(count))
    ensures var t := ChildStep(s, count);
            && Starved(u, t, name, content, n) && t.acks == s.acks && t.parent == s.parent
            && t.child.total == s.child.total + ReadLength(s.data, count)
  {
    var from, m := s.child.total + n, ReadLength(s.data, count);
    ReadShrinks(content, from, m, s.parent.sent);
    TakesAll(s.disk, s.child, content[from..from + m]);
    assert |CopyName(name)| > |name|;
    assert "" + "" == "";
  }

  lemma {:induction false} ChildStarves(u: Setup, s: System, name: string, content: string, n: nat, count: nat)
    requires Starved(u, s, name, content, n) && n <= |content| && MarkerFree(content[n..])
    ensures Starved(u, ChildStep(s, count), name, content, n) && ChildStep(s, count).acks == s.acks
  {
    if s.data != [] {
      RestReadsClean(s, content, n, count);
      ReadStarves(u, s, name, content, n, count);
    }
  }

  lemma {:induction false} RestReadsClean(s: System, content: string, n: nat, count: nat)
    requires n <= |content| && MarkerFree(content[n..]) && 0 <= s.child.total && s.data != []
    requires s.child.total + n <= s.parent.sent <= |content|
    requires s.data == Payloads(content[s.child.total + n..s.parent.sent])
    ensures Clean(s, ChildMoves(count))
  {
    var from, m := s.child.total + n, ReadLength(s.data, count);
    ReadShrinks(content, from, m, s.parent.sent);
    ReadIsClean(content[n..], from - n, from - n + m);
    assert content[n..][from - n..from - n + m] == content[from..from + m];
  }

  /** Data that does not fill the file up is written whole and not acknowledged. */
  lemma {:induction false} TakesAll(disk: Disk, c: Child, buffer: string)
    requires !LooksLikeControl(buffer) && c.receiving && c.open.Some? && c.open.value in disk
    requires c.total + |buffer| < c.size
    ensures Take(disk, c, buffer) ==
            Outcome(disk[c.open.value := disk[c.open.value] + buffer], c.(total := c.total + |buffer|), "")
  {
    assert buffer[..|buffer|] == buffer;
  }

  lemma {:induction false} StarvesForEver(u: Setup, s: System, name: string, content: string, n: nat,
                                          events: seq<Event>)
    requires Starved(u, s, name, content, n) && n <= |content| && MarkerFree(content[n..])
    ensures Starved(u, Run(u, s, events), name, content, n)
    ensures Run(u, s, events).acks == s.acks && Run(u, s, events).parent.i == s.parent.i
    decreases |events|
  {
    if events != [] {
      ParentStarves(u, s, name, content, n);
      if events[0].ChildMoves? {
        ChildStarves(u, s, name, content, n, events[0].count);
      }
      StarvesForEver(u, Step(u, s, events[0]), name, content, n, events[1..]);
    }
  }

  // ---------- a mark further on in the file ----------

  lemma {:induction false} StarvedSend(u: Setup, s: System, name: string, content: string, n: nat)
    requires Starved(u, s, name, content, n) && u.capacity >= BUFFER_SIZE + 5
    requires s.parent.sent - (s.child.total + n) < 5 && s.parent.sent < |content|
    ensures var t := ParentStep(u, s);
            Starved(u, t, name, content, n) && t.child == s.child && t.acks == s.acks && t.parent.sent > s.parent.sent
  {
    ParentStarves(u, s, name, content, n);
    PieceIs(content, s.parent.sent);
    assert PipeSize(s.data) == s.parent.sent - (s.child.total + n);
  }

  lemma {:induction false} StarvedRead(u: Setup, s: System, name: string, content: string, n: nat)
    requires Starved(u, s, name, content, n) && s.child.total + n < s.parent.sent
    ensures var t := ChildStep(s, 1);
            && Starved(u, t, name, content, n) && t.parent == s.parent && t.acks == s.acks
            && t.child.total == s.child.total + 1
  {
    assert ReadLength(s.data, 1) == 1;
    SingleByteClean(s);
    ReadStarves(u, s, name, content, n, 1);
  }

  /** A schedule that brings the child to `k`, byte by byte, with `m` bytes behind it in the pipe. */
  lemma {:induction false} StarvedUpTo(u: Setup, s: System, name: string, content: string, n: nat, k: nat, m: nat)
      returns (events: seq<Event>)
    requires Starved(u, s, name, content, n) && u.capacity >= BUFFER_SIZE + 5
    requires s.child.total + n <= k && 0 < m <= 5 && k + m <= |content|
    ensures var t := Run(u, s, events);
            && Starved(u, t, name, content, n) && t.acks == s.acks
            && t.child.total + n == k && k + m <= t.parent.sent
    decreases |content| - s.parent.sent + (k - s.child.total)
  {
    if s.parent.sent - (s.child.total + n) < 5 && s.parent.sent < |content| {
      StarvedSend(u, s, name, content, n);
      var rest := StarvedUpTo(u, ParentStep(u, s), name, content, n, k, m);
      events := [ParentMoves] + rest;
      assert events[1..] == rest;
    } else if s.child.total + n < k {
      StarvedRead(u, s, name, content, n);
      var rest := StarvedUpTo(u, ChildStep(s, 1), name, content, n, k, m);
      events := [ChildMoves(1)] + rest;
      assert events[1..] == rest;
    } else {
      events := [];
    }
  }

  lemma {:induction false} FrontOfSlice(content: string, n: nat, k: nat, m: nat, sent: nat)
    requires n + k + m <= sent <= |content|
    ensures content[n + k..sent][..m] == content[n..][k..k + m]
  {
    assert content[n + k..sent][..m] == content[n + k..n + k + m];
    assert content[n..][k..k + m] == content[n + k..n + k + m];
  }

  lemma {:induction false} MarkIsNext(u: Setup, s: System, name: string, content: string, n: nat, k: nat, mark: string)
    requires Starved(u, s, name, content, n) && n <= |content| && MarkIsAt(content[n..], k, mark)
    requires s.child.total == k && n + k + |mark| <= s.parent.sent
    ensures ChildStep(s, |mark|).acks == s.acks + 1
  {
    FrontOfSlice(content, n, k, |mark|, s.parent.sent);
    MarkReadAcks(s, mark);
  }

  /** A mark in what is left of the file brings the acknowledgement, with the copy short. */
  lemma {:induction false} MarkEndsStarving(u: Setup, s: System, name: string, content: string, n: nat)
      returns (events: seq<Event>)
    requires Starved(u, s, name, content, n) && u.capacity >= BUFFER_SIZE + 5
    requires s.child.total == 0 && n <= |content| && !MarkerFree(content[n..])
    ensures Run(u, s, events).acks == s.acks + 1
  {
    var k, mark := MarkSomewhere(content[n..]);
    var onward := StarvedUpTo(u, s, name, content, n, n + k, |mark|);
    var t := Run(u, s, onward);
    MarkIsNext(u, t, name, content, n, k, mark);
    events := onward + [ChildMoves(|mark|)];
    RunJoin(u, s, onward, [ChildMoves(|mark|)]);
    RunFirst(u, t, [ChildMoves(|mark|)], ChildMoves(|mark|), []);
  }

  // ---------- the merged read ----------

  /** A header and some data of the file `s.parent.i` stand unread. */
  ghost predicate Unread(u: Setup, before: Disk, s: System, n: nat) {
    && Copyable(u, before) && Inv(u, before, s) && (s.parent.at.Sending? || s.parent.at.WaitAck?)
    && s.parent.i < |u.names| && 0 < n <= s.parent.sent
    && HeaderUnread(u.names[s.parent.i], Content(before, u.names[s.parent.i]), s)
  }

  /** Every file that is not empty can come to stand in the pipe like that. */
  lemma {:induction false} UnreadReachable(u: Setup, before: Disk, j: nat) returns (events: seq<Event>)
    requires Copyable(u, before) && u.capacity >= BUFFER_SIZE + HEADER_SIZE
    requires j < |u.names| && u.names[j] in before && before[u.names[j]] != ""
    ensures var s := Run(u, Initial(before), events);
            s.parent.i == j && Unread(u, before, s, 1)
  {
    InitialInv(u, before);
    var first := ReachFile(u, before, Initial(before), j);
    var s := Run(u, Initial(before), first);
    HeaderAndPiece(u, before, s, j);
    events := first + [ParentMoves, ParentMoves];
    RunJoin(u, Initial(before), first, [ParentMoves, ParentMoves]);
  }

  lemma {:induction false} HeaderAndPiece(u: Setup, before: Disk, s: System, j: nat)
    requires Transferable(u, before, j) && u.capacity >= BUFFER_SIZE + HEADER_SIZE && before[u.names[j]] != ""
    requires Inv(u, before, s) && s.parent.at.NextFile? && s.parent.i == j
    ensures var t := Run(u, s, [ParentMoves, ParentMoves]);
            t.parent.i == j && Unread(u, before, t, 1)
  {
    var sent := ParentStep(u, s);
    HeaderGoesOut(u, before, s, j);
    PieceBehindHeader(u, before, sent, j);
    RunFirst(u, s, [ParentMoves, ParentMoves], ParentMoves, [ParentMoves]);
    RunFirst(u, sent, [ParentMoves], ParentMoves, []);
  }

  lemma {:induction false} PieceBehindHeader(u: Setup, before: Disk, s: System, j: nat)
    requires Transferable(u, before, j) && u.capacity >= BUFFER_SIZE + HEADER_SIZE && before[u.names[j]] != ""
    requires Inv(u, before, s) && s.parent == Parent(Sending, j, 0)
    requires HeaderUnread(u.names[j], before[u.names[j]], s)
    requires s.data == [Control(Header(u.names[j], |before[u.names[j]]|) + "\0")]
    ensures ParentStep(u, s).parent.i == j && Unread(u, before, ParentStep(u, s), 1)
  {
    var name := u.names[j];
    assert Holds(u, before, s, TheFrame);
    SourceKept(u, before, s.disk, j);
    assert Carried(name, before);
    assert s.data[1..] == [];
    assert PipeSize(s.data) == |Header(name, |before[name]|)| + 1;
    ParentKeeps(u, before, s);
    PieceIs(before[name], 0);
    SendUnread(u, name, before[name], s, |Piece(before[name], 0)|);
  }

  lemma {:induction false} UnreadData(name: string, content: string, s: System, n: nat)
    requires HeaderUnread(name, content, s) && 0 < n <= s.parent.sent
    ensures |s.data| == 2 && s.data[0].bytes == Header(name, |content|) + "\0" && n <= |s.data[1].bytes|
    ensures AfterReading(s.data[1..], n) == Payloads(content[n..s.parent.sent])
  {
    assert content[..s.parent.sent] == content[0..s.parent.sent];
    assert s.data[1..] == Payloads(content[0..s.parent.sent]);
    ReadShrinks(content, 0, n, s.parent.sent);
  }

  /** The header opens the copy, and the data behind it is gone. */
  lemma {:induction false} MergedReadIs(name: string, content: string, s: System, n: nat)
    requires '|' !in name && '\0' !in name && !Contains(name, "SIZE:")
    requires HeaderUnread(name, content, s) && 0 < n <= s.parent.sent
    ensures |s.data| == 2 && n <= |s.data[1].bytes|
    ensures MergedRead(s, n) ==
            s.(disk := s.disk[CopyName(name) := ""], data := Payloads(content[n..s.parent.sent]),
               child := s.child.(open := Some(CopyName(name)), receiving := true, size := |content|, total := 0,
                                 filename := name))
  {
    UnreadData(name, content, s, n);
    HeaderOpens(s.disk, s.child, name, |content|, s.data[1].bytes[..n]);
    assert "" + "" == "";
  }

  lemma {:induction false} MergedReadStarves(u: Setup, before: Disk, s: System, n: nat)
    requires Unread(u, before, s, n)
    ensures |s.data| == 2 && n <= |s.data[1].bytes|
    ensures var name := u.names[s.parent.i];
            && Starved(u, MergedRead(s, n), name, Content(before, name), n) && MergedRead(s, n).acks == s.acks
            && MergedRead(s, n).child.total == 0 && MergedRead(s, n).parent == s.parent
  {
    assert Holds(u, before, s, TheFrame) && Holds(u, before, s, ThePhase);
    var name := u.names[s.parent.i];
    assert Carried(name, before);
    SourceKept(u, before, s.disk, s.parent.i);
    MergedReadIs(name, Content(before, name), s, n);
    assert |CopyName(name)| > |name|;
  }

  /** One read of the header and `n` bytes of data, the rest of the file being free of marks,
      leaves the system in a state that no schedule leads out of: the parent never gets past this
      file, no acknowledgement is sent and the copy stays short. */
  lemma {:induction false} MergedReadHangs(u: Setup, before: Disk, s: System, n: nat, events: seq<Event>)
    requires Unread(u, before, s, n) && MarkerFree(Content(before, u.names[s.parent.i])[n..])
    ensures |s.data| == 2 && n <= |s.data[1].bytes|
    ensures var t := Run(u, MergedRead(s, n), events);
            && (t.parent.at.Sending? || t.parent.at.WaitAck?) && t.parent.i == s.parent.i
            && t.acks == s.acks && !HasCopy(before, t.disk, u.names[s.parent.i])
  {
    var name := u.names[s.parent.i];
    MergedReadStarves(u, before, s, n);
    StarvesForEver(u, MergedRead(s, n), name, Content(before, name), n, events);
  }

  /** After such a read the acknowledgement never comes, whatever the schedule, if and only if the
      rest of the file contains neither mark. */
  lemma {:induction false} MergedReadHangsExactlyWhen(u: Setup, before: Disk, s: System, n: nat)
    requires Unread(u, before, s, n) && u.capacity >= BUFFER_SIZE + 5
    ensures |s.data| == 2 && n <= |s.data[1].bytes|
    ensures (forall events: seq<Event> :: Run(u, MergedRead(s, n), events).acks == s.acks)
            <==> MarkerFree(Content(before, u.names[s.parent.i])[n..])
  {
    var name := u.names[s.parent.i];
    var content := Content(before, name);
    MergedReadStarves(u, before, s, n);
    if MarkerFree(content[n..]) {
      forall events: seq<Event>
        ensures Run(u, MergedRead(s, n), events).acks == s.acks
      {
        MergedReadHangs(u, before, s, n, events);
      }
    } else {
      var events := MarkEndsStarving(u, MergedRead(s, n), name, content, n);
      assert Run(u, MergedRead(s, n), events).acks != s.acks;
    }
  }
}
