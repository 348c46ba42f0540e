/** The header of module3/01 and what the child reads in it. */
module PipeHeader {
  import opened Options
  import opened Text
  import opened PipeCopy

  lemma {:induction false} HeaderParts(name: string, size: nat)
    ensures var h := Header(name, size);
            && |h| == 11 + |name| + |Decimal(size)|
            && h[..5] == "FILE:" && h[5..5 + |name|] == name && h[5 + |name|] == '|'
            && h[5..] == name + ['|'] + ("SIZE:" + Decimal(size))
            && h[6 + |name|..] == "SIZE:" + Decimal(size)
  {
  }

  lemma {:induction false} NoNul(name: string, size: nat, more: string)
    requires '\0' !in name
    ensures CString(Header(name, size) + "\0" + more) == Header(name, size)
  {
    var h := Header(name, size);
    assert forall c :: c in h ==> c in "FILE:" || c in name || c in "|SIZE:" || c in Decimal(size);
    IndexOfSplit(h, '\0', more);
    assert h + "\0" + more == h + ['\0'] + more;
  }

  lemma {:induction false} MarkThere(name: string, size: nat)
    ensures StartsWith(Header(name, size)[6 + |name|..], "SIZE:")
    ensures 6 + |name| <= |Header(name, size)|
  {
    HeaderParts(name, size);
  }

  /** `strstr` finds a known occurrence when there is none before it. */
  lemma {:induction false} FindFirst(s: string, pattern: string, k: nat)
    requires k <= |s| && StartsWith(s[k..], pattern)
    requires forall j :: 0 <= j < k ==> !StartsWith(s[j..], pattern)
    ensures Find(s, pattern) == Some(k)
  {
    assert Contains(s, pattern);
  }

  /** The first "SIZE:" of a header is the one before its size, exactly when the name holds none. */
  lemma {:induction false} SizeMarkFirst(name: string, size: nat)
    ensures Find(Header(name, size), "SIZE:") == Some(6 + |name|) <==> !Contains(name, "SIZE:")
  {
    var h := Header(name, size);
    if Contains(name, "SIZE:") {
      var k :| 0 <= k <= |name| && StartsWith(name[k..], "SIZE:");
      MarkInName(name, size, k);
    } else {
      MarkThere(name, size);
      forall j | 0 <= j < 6 + |name|
        ensures !StartsWith(h[j..], "SIZE:")
      {
        NoEarlierMark(name, size, j);
      }
      FindFirst(h, "SIZE:", 6 + |name|);
    }
  }

  lemma {:induction false} MarkInName(name: string, size: nat, k: nat)
    requires k <= |name| && StartsWith(name[k..], "SIZE:")
    ensures Find(Header(name, size), "SIZE:") != Some(6 + |name|)
  {
    var h := Header(name, size);
    HeaderParts(name, size);
    assert forall i :: 0 <= i < 5 ==> h[5 + k..][i] == name[k..][i];
    assert StartsWith(h[5 + k..], "SIZE:");
  }

  lemma {:induction false} NoEarlierMark(name: string, size: nat, k: nat)
    requires !Contains(name, "SIZE:") && k < 6 + |name|
    ensures k <= |Header(name, size)| && !StartsWith(Header(name, size)[k..], "SIZE:")
  {
    var h := Header(name, size);
    HeaderParts(name, size);
    if k < 5 {
      assert h[k..][0] == h[..5][k];
    } else if k + 5 <= 5 + |name| {
      assert !StartsWith(name[k - 5..], "SIZE:");
      assert forall i :: 0 <= i < 5 ==> h[k..][i] == name[k - 5..][i];
    } else {
      assert h[k..][5 + |name| - k] == '|';
      assert forall i :: 0 <= i < 5 ==> "SIZE:"[i] != '|';
    }
  }

  /** The name is read back exactly when it has no bar in it. */
  lemma {:induction false} NameReadBack(name: string, size: nat, last: string)
    ensures NameIn(Header(name, size), last) == name <==> '|' !in name
  {
    var h := Header(name, size);
    HeaderParts(name, size);
    var text := h[5..];
    if '|' !in name {
      IndexOfSplit(name, '|', "SIZE:" + Decimal(size));
      assert text[..|name|] == name;
    } else {
      var bar := IndexOf(text, '|');
      assert text[|name|] == '|';
      assert bar < |text| by {
        assert text[..|text|] == text;
      }
      assert '|' !in text[..bar];
    }
  }

  lemma {:induction false} SizeReadBack(name: string, size: nat, last: int)
    ensures SizeIn(Header(name, size), 6 + |name|, last) == size
  {
    var h := Header(name, size);
    HeaderParts(name, size);
    assert h[6 + |name| + 5..] == Decimal(size);
    assert FormatInt(size) + "" == Decimal(size);
    ScanFormatted(size, "");
  }

  /** The child opens the copy that the parent announced, with the size it announced. A copy that
      is still open at that moment is closed and acknowledged first. What stands behind the header
      in the same buffer is not looked at. */
  lemma {:induction false} HeaderOpens(disk: Disk, c: Child, name: string, size: nat, more: string)
    requires '|' !in name && '\0' !in name && !Contains(name, "SIZE:")
    ensures var disk' := disk[CopyName(name) := ""];
            var closing := if c.open.Some? then ACK else "";
            Take(disk, c, Header(name, size) + "\0" + more) ==
            if size == 0
            then Outcome(disk', c.(open := None, receiving := false, size := 0, filename := name), closing + ACK)
            else Outcome(disk', c.(open := Some(CopyName(name)), receiving := true, size := size, total := 0,
                                   filename := name), closing)
  {
    var buffer := Header(name, size) + "\0" + more;
    var closed := CloseFile(disk, c);
    StartsWithFile(name, size, more);
    CopyOpened(disk, closed.child, name, size, more);
    assert closed.reply + "" == closed.reply;
    assert Take(disk, c, buffer) == TakeHeader(disk, c, buffer);
  }

  lemma {:induction false} StartsWithFile(name: string, size: nat, more: string)
    ensures StartsWith(Header(name, size) + "\0" + more, "FILE:")
  {
    HeaderParts(name, size);
    assert (Header(name, size) + "\0" + more)[..5] == Header(name, size)[..5];
  }

  lemma {:induction false} CopyOpened(disk: Disk, c: Child, name: string, size: nat, more: string)
    requires '|' !in name && '\0' !in name && !Contains(name, "SIZE:")
    ensures var disk' := disk[CopyName(name) := ""];
            OpenCopy(disk, c, Header(name, size) + "\0" + more) ==
            if size == 0
            then Outcome(disk', c.(open := None, receiving := false, size := 0, filename := name), ACK)
            else Outcome(disk', c.(open := Some(CopyName(name)), receiving := true, size := size, total := 0,
                                   filename := name), "")
  {
    NoNul(name, size, more);
    SizeMarkFirst(name, size);
    NameReadBack(name, size, c.filename);
    SizeReadBack(name, size, c.size);
  }

  lemma {:induction false} HeaderAlone(disk: Disk, c: Child, name: string, size: nat)
    requires '|' !in name && '\0' !in name && !Contains(name, "SIZE:") && c.open.None?
    ensures var disk' := disk[CopyName(name) := ""];
            Take(disk, c, Header(name, size) + "\0") ==
            if size == 0
            then Outcome(disk', c.(open := None, receiving := false, size := 0, filename := name), ACK)
            else Outcome(disk', c.(open := Some(CopyName(name)), receiving := true, size := size, total := 0,
                                   filename := name), "")
  {
    HeaderOpens(disk, c, name, size, "");
    assert Header(name, size) + "\0" + "" == Header(name, size) + "\0";
    assert "" + ACK == ACK;
  }

  /** What a buffer that starts with "FILE:" leads to when it is no header: without "SIZE:" nothing is
      opened, without a bar the name stays the last one, without a number the size stays. */
  lemma {:induction false} NoHeader(disk: Disk, c: Child, buffer: string)
    ensures !Contains(CString(buffer), "SIZE:") ==> OpenCopy(disk, c, buffer) == Outcome(disk, c, "")
    ensures '|' !in CString(buffer) ==> NameIn(CString(buffer), c.filename) == c.filename
  {
    var text := CString(buffer);
    if |text| >= 5 && '|' !in text {
      assert '|' !in text[5..];
      assert text[5..][..|text| - 5] == text[5..];
    }
  }

  lemma {:induction false} NoSize(text: string, at: nat, last: int)
    requires at <= |text| && (|text| - at >= 5 ==> ScanInt(text[at + 5..]).None?)
    ensures SizeIn(text, at, last) == last
  {
  }

  /** Data without an open copy is dropped; data for an open copy is written up to the size expected,
      and what reaches that size is acknowledged. */
  lemma {:induction false} DataTaken(disk: Disk, c: Child, buffer: string)
    requires c.open.Some? ==> c.open.value in disk
    ensures var o := TakeData(disk, c, buffer);
            if !c.receiving || c.open.None? then o == Outcome(disk, c, "")
            else if c.total >= c.size then o.disk == disk && o.reply == "ACK\0" && o.child.open.None?
            else
              var n := if |buffer| < c.size - c.total then |buffer| else c.size - c.total;
              && o.disk == disk[c.open.value := disk[c.open.value] + buffer[..n]] && o.child.total == c.total + n
              && o.reply == (if c.total + |buffer| >= c.size then "ACK\0" else "")
              && (o.child.open.None? <==> c.total + |buffer| >= c.size)
  {
  }

  lemma {:induction false} MarkAtFive(h: string, rest: string)
    requires h == "FILE:" + ("SIZE:" + rest)
    ensures Find(h, "SIZE:") == Some(5) && h[10..] == rest
  {
    forall j | 0 <= j < 5
      ensures !StartsWith(h[j..], "SIZE:")
    {
      assert h[j..][0] == "FILE:"[j];
    }
    assert h[5..] == "SIZE:" + rest;
    FindFirst(h, "SIZE:", 5);
  }

  /** A name made of "SIZE:" and a number makes the child expect that number of bytes, whatever
      the size of the file. */
  lemma {:induction false} MisreadSize(wrong: nat, size: nat, last: int)
    ensures var h := Header("SIZE:" + FormatInt(wrong), size);
            Find(h, "SIZE:") == Some(5) && SizeIn(h, 5, last) == wrong
  {
    var h := Header("SIZE:" + FormatInt(wrong), size);
    var rest := FormatInt(wrong) + ("|SIZE:" + FormatInt(size));
    assert h == "FILE:" + ("SIZE:" + rest);
    MarkAtFive(h, rest);
    ScanFormatted(wrong, "|SIZE:" + FormatInt(size));
  }
}
