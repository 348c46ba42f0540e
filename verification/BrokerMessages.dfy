/** The text messages of the broker (module3/02): how publishers, subscribers and the broker
    print them and how they are taken apart again (utils.c). */
module BrokerMessages {
  import opened Options
  import opened Text

  const TEXT_SIZE := 512

  /** `snprintf` into the `mtext` of a message. */
  function Print(s: string): (text: string)
    ensures |text| < TEXT_SIZE
  {
    if |s| < TEXT_SIZE then s else s[..TEXT_SIZE - 1]
  }

  /** publisher.c, line 56. */
  function SendText(pid: int, topic: string, line: string): string {
    Print("send," + FormatInt(pid) + "," + topic + "," + line)
  }

  /** subscriber.c, lines 45 and 75, and publisher.c, line 34. */
  function ControlText(command: string, pid: int, topic: string): string {
    Print(command + "," + FormatInt(pid) + "," + topic)
  }

  /** broker.c, line 146. */
  function DeliveryText(topic: string, payload: string): string {
    Print(topic + "," + payload)
  }

  datatype Parsed = Parsed(command: string, pid: int, topic: string, payload: string)

  /** Lines 18-29: behind the second comma. */
  function ParseTail(command: string, pid: int, tail: string): Parsed {
    var k := IndexOf(tail, ',');
    Parsed(command, pid, tail[..k], if k == |tail| then "" else tail[k + 1..])
  }

  /** Lines 12-16: behind the first comma. */
  function ParseRest(command: string, rest: string): Option<Parsed> {
    var j := IndexOf(rest, ',');
    if j == |rest| then None else Some(ParseTail(command, Atoi(rest[..j]), rest[j + 1..]))
  }

  /** `parse_message`. */
  function Parse(input: string): Option<Parsed> {
    var i := IndexOf(input, ',');
    if i == |input| then None else ParseRest(input[..i], input[i + 1..])
  }

  /** What a subscriber reads. */
  datatype Received = Received(topic: string, payload: string)

  /** `parse_received_message`. */
  function ParseReceived(input: string): Received {
    var i := IndexOf(input, ',');
    if i == |input| then Received("unknown", input) else Received(input[..i], input[i + 1..])
  }

  // ---------- the parser in place ----------

  /** The text of the C string at `p` in a buffer that ends in NUL. */
  function TextAt(buffer: seq<char>, p: nat): string
    requires p <= |buffer|
  {
    CString(buffer[p..])
  }

  /** `strchr` from `p` on: the index, or -1 for NULL. */
  method StrChr(buffer: array<char>, p: nat, c: char) returns (at: int)
    requires c != '\0' && p < buffer.Length && buffer[buffer.Length - 1] == '\0'
    ensures var text := TextAt(buffer[..], p);
            at == if c in text then p + IndexOf(text, c) else -1
    ensures at >= 0 ==> p <= at < buffer.Length - 1 && buffer[at] == c
  {
    ghost var rest := buffer[..][p..];
    at := p;
    while buffer[at] != c && buffer[at] != '\0'
      invariant p <= at < buffer.Length
      invariant forall k :: p <= k < at ==> buffer[k] != c && buffer[k] != '\0'
      decreases buffer.Length - at
    {
      at := at + 1;
    }
    FirstOf(rest, c, at - p);
    if buffer[at] != c {
      at := -1;
    }
  }

  lemma {:induction false} FirstOf(rest: string, c: char, n: nat)
    requires n < |rest| && c != '\0' && (rest[n] == c || rest[n] == '\0')
    requires forall k :: 0 <= k < n ==> rest[k] != c && rest[k] != '\0'
    ensures c in CString(rest) <==> rest[n] == c
    ensures rest[n] == c ==> IndexOf(CString(rest), c) == n
  {
    var end := IndexOf(rest, '\0');
    assert n <= end;
    if rest[n] == c {
      assert CString(rest)[n] == c;
    }
  }

  /** The C string at `p`, as `strcpy` copies it. */
  method StrCpy(buffer: array<char>, p: nat) returns (text: string)
    requires p < buffer.Length && buffer[buffer.Length - 1] == '\0'
    ensures text == TextAt(buffer[..], p)
  {
    text := "";
    var i := p;
    while buffer[i] != '\0'
      invariant p <= i < buffer.Length
      invariant text == buffer[p..i] && '\0' !in text
      decreases buffer.Length - i
    {
      text := text + [buffer[i]];
      i := i + 1;
    }
    assert buffer[..][p..][..i - p] == text;
    assert buffer[..][p..] == text + ['\0'] + buffer[i + 1..];
    IndexOfSplit(text, '\0', buffer[i + 1..]);
  }

  /** The rest of the input: from `p` to the NUL that ends the buffer. */
  ghost predicate RestIs(buffer: seq<char>, p: nat, rest: string) {
    '\0' !in rest && p + |rest| + 1 == |buffer| && buffer[p..] == rest + ['\0']
  }

  lemma {:induction false} RestText(buffer: seq<char>, p: nat, rest: string)
    requires RestIs(buffer, p, rest)
    ensures TextAt(buffer, p) == rest
  {
    assert rest + ['\0'] == rest + ['\0'] + "";
    IndexOfSplit(rest, '\0', "");
  }

  /** A NUL in place of a comma ends one text and leaves the next one behind it. */
  lemma {:induction false} CutRest(buffer: seq<char>, p: nat, rest: string, j: nat)
    requires RestIs(buffer, p, rest) && j < |rest|
    ensures var after := buffer[p + j := '\0'];
            TextAt(after, p) == rest[..j] && RestIs(after, p + j + 1, rest[j + 1..])
  {
    var after := buffer[p + j := '\0'];
    assert after[p..] == rest[..j] + ['\0'] + (rest[j + 1..] + ['\0']);
    IndexOfSplit(rest[..j], '\0', rest[j + 1..] + ['\0']);
    assert after[p + j + 1..] == buffer[p..][j + 1..];
  }

  /** A comma is found in the text exactly when `IndexOf` does not reach the end. */
  lemma {:induction false} CommaFound(s: string)
    ensures ',' in s <==> IndexOf(s, ',') < |s|
  {
    assert s[..|s|] == s;
  }

  /** The step both parsers repeat: find the next comma, put a NUL there, copy what is before
      it. `next` is where the text `behind` it starts, or -1 when there is no comma. */
  method CutField(buffer: array<char>, p: nat, ghost rest: string)
      returns (field: string, next: int, ghost behind: string)
    requires RestIs(buffer[..], p, rest)
    modifies buffer
    ensures next == if IndexOf(rest, ',') < |rest| then p + IndexOf(rest, ',') + 1 else -1
    ensures next >= 0 ==> field == rest[..IndexOf(rest, ',')] && behind == rest[IndexOf(rest, ',') + 1..]
    ensures next >= 0 ==> RestIs(buffer[..], next, behind)
    ensures next < 0 ==> field == rest && rest[..IndexOf(rest, ',')] == rest
  {
    assert buffer[buffer.Length - 1] == buffer[..][p..][|rest|];
    RestText(buffer[..], p, rest);
    CommaFound(rest);
    assert rest[..|rest|] == rest;
    behind := "";
    var at := StrChr(buffer, p, ',');
    if at >= 0 {
      CutRest(buffer[..], p, rest, at - p);
      buffer[at] := '\0';
      next, behind := at + 1, rest[at - p + 1..];
    } else {
      next := -1;
    }
    field := StrCpy(buffer, p);
  }

  /** What is left when no further comma is looked for. */
  method LastField(buffer: array<char>, p: nat, ghost rest: string) returns (field: string)
    requires RestIs(buffer[..], p, rest)
    ensures field == rest
  {
    assert buffer[buffer.Length - 1] == buffer[..][p..][|rest|];
    RestText(buffer[..], p, rest);
    field := StrCpy(buffer, p);
  }

  /** `strcpy(temp, input)`. */
  method Copy(input: string) returns (temp: array<char>)
    requires '\0' !in input
    ensures fresh(temp) && RestIs(temp[..], 0, input)
  {
    temp := new char[|input| + 1](i requires 0 <= i => if i < |input| then input[i] else '\0');
  }

  lemma {:induction false} ParseFirst(input: string, command: string, rest: string)
    requires var i := IndexOf(input, ','); i < |input| && command == input[..i] && rest == input[i + 1..]
    ensures Parse(input) == ParseRest(command, rest)
  {
  }

  lemma {:induction false} ParseSecond(command: string, rest: string, number: string, tail: string)
    requires var j := IndexOf(rest, ','); j < |rest| && number == rest[..j] && tail == rest[j + 1..]
    ensures ParseRest(command, rest) == Some(ParseTail(command, Atoi(number), tail))
  {
  }

  lemma {:induction false} ParseThird(command: string, pid: int, tail: string, topic: string, payload: string)
    requires var k := IndexOf(tail, ',');
             topic == tail[..k] && payload == if k < |tail| then tail[k + 1..] else ""
    ensures ParseTail(command, pid, tail) == Parsed(command, pid, topic, payload)
  {
  }

  /** utils.c, lines 3-30. */
  method ParseMessage(input: string) returns (ok: bool, command: string, pid: int, topic: string, payload: string)
    requires '\0' !in input
    ensures ok == Parse(input).Some?
    ensures ok ==> Parse(input) == Some(Parsed(command, pid, topic, payload))
  {
    ok, pid, topic, payload := false, 0, "", "";
    var temp := Copy(input);
    var p2, number, p4, p6;
    ghost var rest, tail, last;
    command, p2, rest := CutField(temp, 0, input);
    if p2 < 0 {
      assert Parse(input) == None;
      return;
    }
    ParseFirst(input, command, rest);
    number, p4, tail := CutField(temp, p2, rest);
    if p4 < 0 {
      return;
    }
    pid := Atoi(number);
    ParseSecond(command, rest, number, tail);
    ok := true;
    topic, p6, last := CutField(temp, p4, tail);
    if p6 >= 0 {
      payload := LastField(temp, p6, last);
    }
    ParseThird(command, pid, tail, topic, payload);
  }

  /** utils.c, lines 32-46. */
  method ParseReceivedMessage(input: string) returns (topic: string, payload: string)
    requires '\0' !in input
    ensures Received(topic, payload) == ParseReceived(input)
  {
    var temp := Copy(input);
    var p;
    ghost var rest;
    topic, p, rest := CutField(temp, 0, input);
    if p < 0 {
      return "unknown", input;
    }
    payload := LastField(temp, p, rest);
  }

  // ---------- round trips ----------

  lemma {:induction false} NoComma(n: int)
    ensures ',' !in FormatInt(n)
  {
  }

  /** The first field of a text is read back exactly when it has no comma. */
  lemma {:induction false} FieldReadBack(field: string, rest: string)
    ensures var s := field + "," + rest;
            && IndexOf(s, ',') < |s|
            && (s[..IndexOf(s, ',')] == field <==> ',' !in field)
            && (',' !in field ==> IndexOf(s, ',') == |field| && s[|field| + 1..] == rest)
  {
    var s := field + [','] + rest;
    assert s == field + "," + rest;
    assert s[|field|] == ',';
    CommaFound(s);
    if ',' !in field {
      IndexOfSplit(field, ',', rest);
    } else {
      assert ',' !in s[..IndexOf(s, ',')];
    }
  }

  lemma {:induction false} ParseRestIs(command: string, pid: int, tail: string)
    ensures ParseRest(command, FormatInt(pid) + "," + tail) == Some(ParseTail(command, pid, tail))
  {
    var number := FormatInt(pid);
    var rest := number + "," + tail;
    NoComma(pid);
    FieldReadBack(number, tail);
    ScanFormatted(pid, "");
    assert number + "" == number;
    assert rest[..|number|] == number;
  }

  /** Taking a message apart up to its topic, when the command has no comma. */
  lemma {:induction false} ParseFields(command: string, pid: int, tail: string)
    requires ',' !in command
    ensures Parse(command + "," + FormatInt(pid) + "," + tail) == Some(ParseTail(command, pid, tail))
  {
    var rest := FormatInt(pid) + "," + tail;
    assert command + "," + FormatInt(pid) + "," + tail == command + "," + rest;
    FieldReadBack(command, rest);
    ParseRestIs(command, pid, tail);
  }

  /** A published line that fits its message is read back, commas and all, exactly when the
      topic has none. */
  lemma {:induction false} SendReadBack(pid: int, topic: string, line: string)
    requires |"send," + FormatInt(pid) + "," + topic + "," + line| < TEXT_SIZE
    ensures Parse(SendText(pid, topic, line)) == Some(Parsed("send", pid, topic, line)) <==> ',' !in topic
  {
    var tail := topic + "," + line;
    assert "send," + FormatInt(pid) + "," + topic + "," + line == "send" + "," + FormatInt(pid) + "," + tail;
    ParseFields("send", pid, tail);
    FieldReadBack(topic, line);
  }

  lemma {:induction false} ControlReadBack(command: string, pid: int, topic: string)
    requires ',' !in command && |command + "," + FormatInt(pid) + "," + topic| < TEXT_SIZE
    ensures Parse(ControlText(command, pid, topic)) == Some(Parsed(command, pid, topic, "")) <==> ',' !in topic
  {
    ParseFields(command, pid, topic);
    CommaFound(topic);
    assert topic[..|topic|] == topic;
  }

  /** What the broker passes on is read back by the subscriber under the same condition. */
  lemma {:induction false} DeliveryReadBack(topic: string, payload: string)
    requires |topic| + 1 + |payload| < TEXT_SIZE
    ensures ParseReceived(DeliveryText(topic, payload)) == Received(topic, payload) <==> ',' !in topic
  {
    FieldReadBack(topic, payload);
  }
}
