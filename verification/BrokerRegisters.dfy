/** The registers of the broker of module3/02 over whole runs, publishers included, what it makes
    of texts that no program of the system sends, and the fields of every text. */
module BrokerRegisters {
  import opened Options
  import opened Text
  import opened BrokerMessages
  import opened Broker
  import opened BrokerDelivery

  // ---------- the publishers ----------

  /** The publishers as a set: each announced process enters it while it holds fewer than 100. */
  ghost function Announced(requests: seq<Request>): set<int> {
    if requests == [] then {}
    else
      var before, q := Announced(requests[..|requests| - 1]), requests[|requests| - 1];
      if q.Announce? && |before| < 100 then before + {q.pid} else before
  }

  lemma {:induction false} DispatchAnnounces(r: Registers, q: Request)
    requires NoDuplicates(r.publishers)
    ensures Members(Dispatch(r, Fields(q)).registers.publishers) ==
            if q.Announce? && |Members(r.publishers)| < 100 then Members(r.publishers) + {q.pid}
            else Members(r.publishers)
  {
    WithIsInsert(r.publishers, q.pid, MAX_PID_LIST);
    if q.pid in Members(r.publishers) {
      assert Members(r.publishers) + {q.pid} == Members(r.publishers);
    }
  }

  /** Over every run of requests the publisher array refines that set: no other request changes it. */
  lemma {:induction false} PublishersAreSet(requests: seq<Request>)
    requires AllFit(requests)
    ensures Members(HandleAll(TextsOf(requests)).registers.publishers) == Announced(requests)
    decreases |requests|
  {
    if requests != [] {
      var front, q := requests[..|requests| - 1], requests[|requests| - 1];
      TextsFront(requests);
      PublishersAreSet(front);
      RegistersOverRuns(TextsOf(front));
      RequestReadBack(q);
      DispatchAnnounces(HandleAll(TextsOf(front)).registers, q);
    }
  }

  // ---------- the order in the arrays ----------

  /** New entries come last, and a removal leaves the others in their order. */
  lemma {:induction false} OrderKept<T(!new)>(register: seq<T>, x: T, limit: nat)
    ensures With(register, x, limit) == register || With(register, x, limit) == register + [x]
    ensures Without(register, x) == register ||
            exists i :: 0 <= i < |register| && register[i] == x
                        && Without(register, x) == register[..i] + register[i + 1..]
  {
    var i := Position(register, x);
    if i < |register| {
      assert register[i] == x && Without(register, x) == register[..i] + register[i + 1..];
    }
  }

  /** The subscribers of a topic are found in the order of the array, and a line is put on the queue
      for each of them in that order. */
  lemma {:induction false} FoundInOrder(a: seq<Subscription>, b: seq<Subscription>, topic: string)
    ensures Subscribers(a + b, topic) == Subscribers(a, topic) + Subscribers(b, topic)
    ensures |b| == 1 ==> Subscribers(b, topic) == if b[0].topic == topic then [b[0].pid] else []
  {
    if b == [] {
      assert a + b == a;
    } else {
      var n := |b| - 1;
      assert (a + b)[..|a + b| - 1] == a + b[..n];
      FoundInOrder(a, b[..n], topic);
      assert b[..0] == [];
    }
  }

  lemma {:induction false} SentInOrder(pids: seq<int>, text: string, i: nat)
    requires i < |pids|
    ensures |Deliveries(pids, text)| == |pids| && Deliveries(pids, text)[i] == Message(pids[i], text)
  {
    DeliveriesLength(pids, text);
    var n := |pids| - 1;
    DeliveriesLength(pids[..n], text);
    if i < n {
      SentInOrder(pids[..n], text, i);
    }
  }

  lemma {:induction false} DeliveriesLength(pids: seq<int>, text: string)
    ensures |Deliveries(pids, text)| == |pids|
  {
    if pids != [] {
      DeliveriesLength(pids[..|pids| - 1], text);
    }
  }

  // ---------- other texts ----------

  /** A text whose first field is none of the four commands, or that has fewer than two commas,
      changes nothing and sends nothing. */
  lemma {:induction false} OthersIgnored(r: Registers, text: string)
    requires Parse(text).Some? ==> Parse(text).value.command !in {"subscribe", "unsubscribe", "register", "send"}
    ensures Handle(r, text) == Turn(r, [])
  {
  }

  function Commas(s: string): nat {
    if s == "" then 0 else Commas(s[..|s| - 1]) + if s[|s| - 1] == ',' then 1 else 0
  }

  lemma {:induction false} CommasJoin(a: string, b: string)
    ensures Commas(a + b) == Commas(a) + Commas(b)
  {
    if b == "" {
      assert a + b == a;
    } else {
      var n := |b| - 1;
      assert (a + b)[..|a + b| - 1] == a + b[..n];
      CommasJoin(a, b[..n]);
    }
  }

  lemma {:induction false} NoCommas(s: string)
    ensures Commas(s) == 0 <==> ',' !in s
  {
    if s != "" {
      NoCommas(s[..|s| - 1]);
      assert s == s[..|s| - 1] + [s[|s| - 1]];
    }
  }

  lemma {:induction false} FirstComma(s: string)
    ensures Commas(s) == 0 <==> IndexOf(s, ',') == |s|
    ensures var i := IndexOf(s, ',');
            i < |s| ==> ',' !in s[..i] && s == s[..i] + "," + s[i + 1..] && Commas(s) == 1 + Commas(s[i + 1..])
  {
    var i := IndexOf(s, ',');
    CommaFound(s);
    NoCommas(s);
    if i < |s| {
      assert s == s[..i] + "," + s[i + 1..];
      NoCommas(s[..i]);
      CommasJoin(s[..i] + ",", s[i + 1..]);
      CommasJoin(s[..i], ",");
      assert Commas(",") == 1 by { assert ","[..0] == ""; }
    }
  }

  /** The fields between the first three commas, the last one keeping all further commas. */
  ghost predicate SplitAs(input: string, m: Parsed, number: string) {
    var front := m.command + "," + number + "," + m.topic;
    && ',' !in m.command && ',' !in number && ',' !in m.topic && m.pid == Atoi(number)
    && if Commas(input) == 2 then input == front && m.payload == "" else input == front + "," + m.payload
  }

  lemma {:induction false} TailIs(command: string, number: string, tail: string)
    ensures var m := ParseTail(command, Atoi(number), tail);
            && m.command == command && m.pid == Atoi(number) && ',' !in m.topic
            && if Commas(tail) == 0 then tail == m.topic && m.payload == "" else tail == m.topic + "," + m.payload
  {
    FirstComma(tail);
    NoCommas(tail);
    assert tail[..|tail|] == tail;
  }

  lemma {:induction false} Reassociated(a: string, b: string, c: string)
    ensures a + "," + (b + "," + c) == a + "," + b + "," + c
  {
  }

  lemma {:induction false} SplitIs(input: string, command: string, number: string, tail: string)
    requires ',' !in command && ',' !in number && Commas(input) == 2 + Commas(tail)
    requires input == command + "," + (number + "," + tail)
    ensures SplitAs(input, ParseTail(command, Atoi(number), tail), number)
  {
    var m := ParseTail(command, Atoi(number), tail);
    TailIs(command, number, tail);
    Reassociated(command, number, tail);
    Reassociated(command + "," + number, m.topic, m.payload);
  }

  /** A text is taken apart if and only if it has two commas, and then at its first three. */
  lemma {:induction false} ParseIs(input: string)
    ensures Parse(input).Some? <==> Commas(input) >= 2
    ensures Parse(input).Some? ==> exists number: string :: SplitAs(input, Parse(input).value, number)
  {
    FirstComma(input);
    var i := IndexOf(input, ',');
    if i < |input| {
      RestSplits(input, input[..i], input[i + 1..]);
    }
  }

  lemma {:induction false} RestSplits(input: string, command: string, rest: string)
    requires ',' !in command && input == command + "," + rest && Commas(input) == 1 + Commas(rest)
    ensures ParseRest(command, rest).Some? <==> Commas(rest) >= 1
    ensures ParseRest(command, rest).Some? ==>
              exists number: string :: SplitAs(input, ParseRest(command, rest).value, number)
  {
    FirstComma(rest);
    var j := IndexOf(rest, ',');
    if j < |rest| {
      SplitIs(input, command, rest[..j], rest[j + 1..]);
    }
  }

  /** What a subscriber reads: the text up to the first comma as topic and the rest as payload, and
      a text without a comma as a payload of unknown topic. */
  lemma {:induction false} ParseReceivedIs(input: string)
    ensures var m := ParseReceived(input);
            if ',' in input then ',' !in m.topic && input == m.topic + "," + m.payload
            else m == Received("unknown", input)
  {
    FirstComma(input);
    NoCommas(input);
  }

  /** A printed text is the whole of it, or its first 511 characters. */
  lemma {:induction false} PrintIs(s: string)
    ensures if |s| <= 511 then Print(s) == s else |Print(s)| == 511 && Print(s) <= s
  {
  }

  /** The texts on the queue, by example. */
  lemma {:induction false} TextsByExample()
    ensures SendText(107, "news", "a, b") == "send,107,news,a, b"
    ensures ControlText("subscribe", 30, "news") == "subscribe,30,news"
    ensures DeliveryText("news", "a, b") == "news,a, b"
  {
    assert FormatInt(107) == Decimal(10) + "7" && Decimal(10) == Decimal(1) + "0";
    assert FormatInt(30) == Decimal(3) + "0";
    assert "send," + FormatInt(107) + "," + "news" + "," + "a, b" == "send,107,news,a, b";
    assert "subscribe" + "," + FormatInt(30) + "," + "news" == "subscribe,30,news";
    assert "news" + "," + "a, b" == "news,a, b";
  }
}
