/** What the broker of module3/02 does over whole runs: its subscription array is a bounded set,
    and every published line reaches every current subscriber exactly once. */
module BrokerDelivery {
  import opened Options
  import opened Text
  import opened BrokerMessages
  import opened Broker

  // ---------- runs ----------

  ghost predicate NoDuplicates<T(!new)>(register: seq<T>) {
    forall i, j :: 0 <= i < j < |register| ==> register[i] != register[j]
  }

  ghost function Members<T(!new)>(register: seq<T>): set<T> {
    set x | x in register
  }

  lemma {:induction false} MembersSize<T(!new)>(register: seq<T>)
    requires NoDuplicates(register)
    ensures |Members(register)| == |register|
  {
    if register != [] {
      var n := |register| - 1;
      MembersSize(register[..n]);
      assert register == register[..n] + [register[n]];
      assert Members(register) == Members(register[..n]) + {register[n]};
    }
  }

  /** Adding to the array is adding to a set of bounded size. */
  lemma {:induction false} WithIsInsert<T(!new)>(register: seq<T>, x: T, limit: nat)
    requires NoDuplicates(register)
    ensures NoDuplicates(With(register, x, limit)) && (|register| <= limit ==> |With(register, x, limit)| <= limit)
    ensures Members(With(register, x, limit)) ==
            if x in Members(register) || |Members(register)| < limit then Members(register) + {x} else Members(register)
  {
    MembersSize(register);
    if x !in register && |register| < limit {
      assert forall y :: y in register + [x] <==> y in register || y == x;
    }
  }

  /** Removing from the array, which closes the gap, is removing from the set. */
  lemma {:induction false} WithoutIsDelete<T(!new)>(register: seq<T>, x: T)
    requires NoDuplicates(register)
    ensures NoDuplicates(Without(register, x)) && |Without(register, x)| <= |register|
    ensures Members(Without(register, x)) == Members(register) - {x}
  {
    var i := Position(register, x);
    if i < |register| {
      var after := register[..i] + register[i + 1..];
      assert forall k :: 0 <= k < |after| ==> after[k] == register[if k < i then k else k + 1];
      forall y | y in register && y != x
        ensures y in after
      {
        var k :| 0 <= k < |register| && register[k] == y;
        assert after[if k < i then k else k - 1] == y;
      }
    } else {
      assert register[..|register|] == register;
    }
  }

  ghost predicate Sound(r: Registers) {
    && NoDuplicates(r.subscriptions) && NoDuplicates(r.publishers)
    && |r.subscriptions| <= MAX_SUBSCRIPTIONS && |r.publishers| <= MAX_PID_LIST
  }

  lemma {:induction false} DispatchKeepsRegisters(r: Registers, m: Parsed)
    requires Sound(r)
    ensures Sound(Dispatch(r, m).registers)
  {
    if m.command == "subscribe" {
      WithIsInsert(r.subscriptions, Subscription(m.pid, m.topic), MAX_SUBSCRIPTIONS);
    } else if m.command == "unsubscribe" {
      WithoutIsDelete(r.subscriptions, Subscription(m.pid, m.topic));
    } else if m.command == "register" {
      WithIsInsert(r.publishers, m.pid, MAX_PID_LIST);
    }
  }

  lemma {:induction false} HandleKeepsRegisters(r: Registers, text: string)
    requires Sound(r)
    ensures Sound(Handle(r, text).registers)
  {
    var m := Parse(text);
    if m.Some? {
      DispatchKeepsRegisters(r, m.value);
    }
  }

  /** Whatever texts arrive, well formed or not, the registers hold nothing twice and stay
      within their arrays. (The source copies commands, topics and payloads without looking at
      their lengths; texts whose fields do not fit `command[32]`, `topic[64]` or `payload[256]`
      have no defined outcome there.) */
  lemma {:induction false} RegistersOverRuns(texts: seq<string>)
    ensures Sound(HandleAll(texts).registers)
    decreases |texts|
  {
    if texts != [] {
      RegistersOverRuns(texts[..|texts| - 1]);
      HandleKeepsRegisters(HandleAll(texts[..|texts| - 1]).registers, texts[|texts| - 1]);
    }
  }

  // ---------- what the programs ask for ----------

  /** What a publisher or a subscriber asks of the broker. */
  datatype Request =
    | Subscribe(pid: int, topic: string)
    | Unsubscribe(pid: int, topic: string)
    | Announce(pid: int, topic: string)
    | Publish(pid: int, topic: string, line: string)

  /** The text it sends. */
  function TextOf(q: Request): string {
    match q
    case Subscribe(pid, topic) => ControlText("subscribe", pid, topic)
    case Unsubscribe(pid, topic) => ControlText("unsubscribe", pid, topic)
    case Announce(pid, topic) => ControlText("register", pid, topic)
    case Publish(pid, topic, line) => SendText(pid, topic, line)
  }

  function TextsOf(requests: seq<Request>): (texts: seq<string>)
    ensures |texts| == |requests|
  {
    seq(|requests|, i requires 0 <= i < |requests| => TextOf(requests[i]))
  }

  /** C strings that fit the broker's buffers, with a topic free of commas, from a process to which
      messages can be addressed: types below 1 are rejected, and type 1 is the broker's own. */
  predicate Fits(q: Request) {
    && 1 < q.pid < 0x8000_0000 && TopicFits(q.topic)
    && (q.Publish? ==> |q.line| < 256 && '\0' !in q.line)
  }

  predicate TopicFits(topic: string) {
    |topic| < 64 && ',' !in topic && '\0' !in topic
  }

  /** The subscriptions as a set, which has room for 200. */
  ghost function Subscribed(requests: seq<Request>): set<Subscription> {
    if requests == [] then {}
    else
      var before, q := Subscribed(requests[..|requests| - 1]), requests[|requests| - 1];
      match q
      case Subscribe(pid, topic) =>
        if Subscription(pid, topic) in before || |before| < 200
        then before + {Subscription(pid, topic)} else before
      case Unsubscribe(pid, topic) => before - {Subscription(pid, topic)}
      case Announce(pid, topic) => before
      case Publish(pid, topic, line) => before
  }

  /** What process `pid` should receive, in order. */
  ghost function Expected(requests: seq<Request>, pid: int): seq<Received> {
    if requests == [] then []
    else
      var front, q := requests[..|requests| - 1], requests[|requests| - 1];
      Expected(front, pid)
      + if q.Publish? && Subscription(pid, q.topic) in Subscribed(front) then [Received(q.topic, q.line)] else []
  }

  /** What process `pid` finds in the messages of its type. */
  function Inbox(sent: seq<Message>, pid: int): seq<Received> {
    if sent == [] then []
    else
      Inbox(sent[..|sent| - 1], pid)
      + if sent[|sent| - 1].kind == pid then [ParseReceived(sent[|sent| - 1].text)] else []
  }

  // ---------- one request ----------

  /** What is parsed from a request's text. */
  function Fields(q: Request): Parsed {
    match q
    case Subscribe(pid, topic) => Parsed("subscribe", pid, topic, "")
    case Unsubscribe(pid, topic) => Parsed("unsubscribe", pid, topic, "")
    case Announce(pid, topic) => Parsed("register", pid, topic, "")
    case Publish(pid, topic, line) => Parsed("send", pid, topic, line)
  }

  lemma {:induction false} RequestReadBack(q: Request)
    requires Fits(q)
    ensures Parse(TextOf(q)) == Some(Fields(q))
  {
    IntLength(q.pid);
    match q
    case Subscribe(pid, topic) => ControlReadBack("subscribe", pid, topic);
    case Unsubscribe(pid, topic) => ControlReadBack("unsubscribe", pid, topic);
    case Announce(pid, topic) => ControlReadBack("register", pid, topic);
    case Publish(pid, topic, line) => SendReadBack(pid, topic, line);
  }

  lemma {:induction false} InboxAppend(a: seq<Message>, b: seq<Message>, pid: int)
    ensures Inbox(a + b, pid) == Inbox(a, pid) + Inbox(b, pid)
  {
    if b == [] {
      assert a + b == a;
    } else {
      var n := |b| - 1;
      assert (a + b)[..|a + b| - 1] == a + b[..n];
      InboxAppend(a, b[..n], pid);
    }
  }

  /** How often `pid` occurs. */
  function Occurrences(pids: seq<int>, pid: int): nat {
    if pids == [] then 0 else Occurrences(pids[..|pids| - 1], pid) + if pids[|pids| - 1] == pid then 1 else 0
  }

  function Repeat<T>(x: T, n: nat): seq<T> {
    if n == 0 then [] else Repeat(x, n - 1) + [x]
  }

  lemma {:induction false} InboxOfDeliveries(pids: seq<int>, text: string, pid: int)
    ensures Inbox(Deliveries(pids, text), pid) == Repeat(ParseReceived(text), Occurrences(pids, pid))
  {
    if pids != [] {
      InboxOfDeliveries(pids[..|pids| - 1], text, pid);
    }
  }

  /** A process is found once for a topic it has subscribed to, and not at all otherwise. */
  lemma {:induction false} FoundOnce(subscriptions: seq<Subscription>, topic: string, pid: int)
    requires NoDuplicates(subscriptions)
    ensures Occurrences(Subscribers(subscriptions, topic), pid) ==
            if Subscription(pid, topic) in subscriptions then 1 else 0
  {
    if subscriptions != [] {
      var n := |subscriptions| - 1;
      var front := Subscribers(subscriptions[..n], topic);
      FoundOnce(subscriptions[..n], topic, pid);
      assert subscriptions == subscriptions[..n] + [subscriptions[n]];
      assert subscriptions[n] !in subscriptions[..n];
      assert subscriptions[n] == Subscription(subscriptions[n].pid, subscriptions[n].topic);
      assert (front + [subscriptions[n].pid])[..|front|] == front;
      assert front + [] == front;
    }
  }

  /** A published line reaches each current subscriber of its topic once, as it was written. */
  lemma {:induction false} PublishDelivers(r: Registers, topic: string, line: string, sender: int, pid: int)
    requires NoDuplicates(r.subscriptions) && ',' !in topic && |topic| < 64 && |line| < 256
    requires |Subscribers(r.subscriptions, topic)| <= MAX_PID_LIST
    ensures Inbox(Dispatch(r, Parsed("send", sender, topic, line)).sent, pid) ==
            if Subscription(pid, topic) in r.subscriptions then [Received(topic, line)] else []
  {
    var text := DeliveryText(topic, line);
    InboxOfDeliveries(Subscribers(r.subscriptions, topic), text, pid);
    FoundOnce(r.subscriptions, topic, pid);
    DeliveryReadBack(topic, line);
    assert Repeat(Received(topic, line), 1) == [Received(topic, line)];
  }

  // ---------- whole runs ----------

  lemma {:induction false} TextsFront(requests: seq<Request>)
    requires requests != []
    ensures TextsOf(requests)[..|requests| - 1] == TextsOf(requests[..|requests| - 1])
    ensures TextsOf(requests)[|requests| - 1] == TextOf(requests[|requests| - 1])
  {
  }

  ghost predicate AllFit(requests: seq<Request>) {
    forall i :: 0 <= i < |requests| ==> Fits(requests[i])
  }

  /** One request, in the array and in the set. */
  lemma {:induction false} DispatchIsSet(r: Registers, q: Request)
    requires NoDuplicates(r.subscriptions)
    ensures Members(Dispatch(r, Fields(q)).registers.subscriptions) ==
            match q {
              case Subscribe(pid, topic) =>
                if Subscription(pid, topic) in Members(r.subscriptions)
                   || |Members(r.subscriptions)| < 200
                then Members(r.subscriptions) + {Subscription(pid, topic)} else Members(r.subscriptions)
              case Unsubscribe(pid, topic) => Members(r.subscriptions) - {Subscription(pid, topic)}
              case Announce(pid, topic) => Members(r.subscriptions)
              case Publish(pid, topic, line) => Members(r.subscriptions)
            }
  {
    WithIsInsert(r.subscriptions, Subscription(q.pid, q.topic), MAX_SUBSCRIPTIONS);
    WithoutIsDelete(r.subscriptions, Subscription(q.pid, q.topic));
  }

  /** Over every run of requests the subscription array refines the bounded set. */
  lemma {:induction false} SubscriptionsAreSet(requests: seq<Request>)
    requires AllFit(requests)
    ensures Members(HandleAll(TextsOf(requests)).registers.subscriptions) == Subscribed(requests)
    decreases |requests|
  {
    if requests != [] {
      var front, q := requests[..|requests| - 1], requests[|requests| - 1];
      TextsFront(requests);
      SubscriptionsAreSet(front);
      RegistersOverRuns(TextsOf(front));
      RequestReadBack(q);
      DispatchIsSet(HandleAll(TextsOf(front)).registers, q);
    }
  }

  lemma {:induction false} DispatchInbox(r: Registers, q: Request, pid: int)
    requires NoDuplicates(r.subscriptions) && Fits(q)
    requires q.Publish? ==> |Subscribers(r.subscriptions, q.topic)| <= MAX_PID_LIST
    ensures Inbox(Dispatch(r, Fields(q)).sent, pid) ==
            if q.Publish? && Subscription(pid, q.topic) in Members(r.subscriptions)
            then [Received(q.topic, q.line)] else []
  {
    if q.Publish? {
      PublishDelivers(r, q.topic, q.line, q.pid, pid);
    }
  }

  /** Over every run of requests each process receives exactly the lines published on the topics
      it was subscribed to at the time: each once, in order, with its topic and its text. */
  lemma {:induction false} InboxIsExpected(requests: seq<Request>, pid: int)
    requires AllFit(requests) && Uncrowded(TextsOf(requests))
    ensures Inbox(HandleAll(TextsOf(requests)).sent, pid) == Expected(requests, pid)
    decreases |requests|
  {
    if requests != [] {
      var front, q := requests[..|requests| - 1], requests[|requests| - 1];
      var before := HandleAll(TextsOf(front));
      TextsFront(requests);
      UncrowdedFront(TextsOf(requests));
      InboxIsExpected(front, pid);
      SubscriptionsAreSet(front);
      RegistersOverRuns(TextsOf(front));
      RequestReadBack(q);
      DispatchInbox(before.registers, q, pid);
      InboxAppend(before.sent, Dispatch(before.registers, Fields(q)).sent, pid);
    }
  }

  /** The text of a fitting request is a C string, as the array code expects it. */
  lemma {:induction false} FittingIsText(q: Request)
    requires Fits(q)
    ensures '\0' !in TextOf(q)
  {
    NoNulInNumber(q.pid);
    match q
    case Subscribe(pid, topic) => NoNulInField("subscribe", pid, topic);
    case Unsubscribe(pid, topic) => NoNulInField("unsubscribe", pid, topic);
    case Announce(pid, topic) => NoNulInField("register", pid, topic);
    case Publish(pid, topic, line) =>
      var whole := "send," + FormatInt(pid) + "," + topic + "," + line;
      assert forall c :: c in whole ==> c in "send," || c in FormatInt(pid) || c in topic || c == ',' || c in line;
      NoNulPrinted(whole);
  }

  lemma {:induction false} NoNulInNumber(n: int)
    ensures '\0' !in FormatInt(n)
  {
  }

  lemma {:induction false} NoNulPrinted(s: string)
    requires '\0' !in s
    ensures '\0' !in Print(s)
  {
  }

  lemma {:induction false} NoNulInField(command: string, pid: int, topic: string)
    requires '\0' !in command && '\0' !in topic
    ensures '\0' !in ControlText(command, pid, topic)
  {
    NoNulInNumber(pid);
    var whole := command + "," + FormatInt(pid) + "," + topic;
    assert forall c :: c in whole ==> c in command || c == ',' || c in FormatInt(pid) || c in topic;
    NoNulPrinted(whole);
  }

  /** `run_broker`: the array code, serving a run of requests, puts on the queue for each process
      exactly what it should receive. */
  method RunBroker(requests: seq<Request>) returns (sent: seq<Message>)
    requires AllFit(requests) && Uncrowded(TextsOf(requests))
    ensures forall pid: int :: Inbox(sent, pid) == Expected(requests, pid)
  {
    forall i | 0 <= i < |requests|
      ensures '\0' !in TextsOf(requests)[i]
    {
      FittingIsText(requests[i]);
    }
    var server := new Server();
    sent := server.Serve(TextsOf(requests));
    forall pid: int
      ensures Inbox(sent, pid) == Expected(requests, pid)
    {
      InboxIsExpected(requests, pid);
    }
  }

  lemma {:induction false} UncrowdedFront(texts: seq<string>)
    requires texts != [] && Uncrowded(texts)
    ensures Uncrowded(texts[..|texts| - 1])
    ensures FitsArray(HandleAll(texts[..|texts| - 1]).registers, texts[|texts| - 1])
  {
    var front := texts[..|texts| - 1];
    forall i | 0 <= i < |front|
      ensures FitsArray(HandleAll(front[..i]).registers, front[i])
    {
      assert front[..i] == texts[..i];
      assert FitsArray(HandleAll(texts[..i]).registers, texts[i]);
    }
  }

  // ---------- a crowded topic ----------

  /** `n` processes subscribe to one topic. */
  function Crowd(topic: string, n: nat): seq<Request> {
    if n == 0 then [] else Crowd(topic, n - 1) + [Subscribe(n + 1, topic)]
  }

  ghost predicate CrowdListed(subscriptions: seq<Subscription>, topic: string, n: nat) {
    |subscriptions| == n && forall i :: 0 <= i < n ==> subscriptions[i] == Subscription(i + 2, topic)
  }

  lemma {:induction false} CrowdFits(topic: string, n: nat)
    requires TopicFits(topic) && n <= MAX_SUBSCRIPTIONS
    ensures |Crowd(topic, n)| == n && AllFit(Crowd(topic, n))
  {
    if n > 0 {
      CrowdFits(topic, n - 1);
    }
  }

  lemma {:induction false} LastRequest(requests: seq<Request>)
    requires requests != [] && Fits(requests[|requests| - 1])
    ensures var before := HandleAll(TextsOf(requests[..|requests| - 1])).registers;
            HandleAll(TextsOf(requests)).registers == Dispatch(before, Fields(requests[|requests| - 1])).registers
  {
    TextsFront(requests);
    RequestReadBack(requests[|requests| - 1]);
  }

  lemma {:induction false} OneMoreSubscribes(subscriptions: seq<Subscription>, topic: string, n: nat)
    requires CrowdListed(subscriptions, topic, n) && n < MAX_SUBSCRIPTIONS
    ensures CrowdListed(With(subscriptions, Subscription(n + 2, topic), MAX_SUBSCRIPTIONS), topic, n + 1)
  {
    assert Subscription(n + 2, topic) !in subscriptions;
  }

  lemma {:induction false} CrowdSubscribes(topic: string, n: nat)
    requires TopicFits(topic) && n <= MAX_SUBSCRIPTIONS
    ensures CrowdListed(HandleAll(TextsOf(Crowd(topic, n))).registers.subscriptions, topic, n)
  {
    if n > 0 {
      CrowdSubscribes(topic, n - 1);
      CrowdFits(topic, n - 1);
      var requests := Crowd(topic, n);
      assert requests[..n - 1] == Crowd(topic, n - 1) && requests[n - 1] == Subscribe(n + 1, topic);
      LastRequest(requests);
      OneMoreSubscribes(HandleAll(TextsOf(Crowd(topic, n - 1))).registers.subscriptions, topic, n - 1);
    }
  }

  lemma {:induction false} CrowdFound(subscriptions: seq<Subscription>, topic: string, n: nat)
    requires CrowdListed(subscriptions, topic, n)
    ensures |Subscribers(subscriptions, topic)| == n
  {
    if n > 0 {
      CrowdFound(subscriptions[..n - 1], topic, n - 1);
    }
  }

  lemma {:induction false} LastMustFit(requests: seq<Request>, last: Request)
    requires !FitsArray(HandleAll(TextsOf(requests)).registers, TextOf(last))
    ensures !Uncrowded(TextsOf(requests + [last]))
  {
    assert (requests + [last])[..|requests|] == requests;
    TextsFront(requests + [last]);
    if Uncrowded(TextsOf(requests + [last])) {
      UncrowdedFront(TextsOf(requests + [last]));
    }
  }

  /** From 101 subscribers on, which the registers admit, a line published on their topic finds
      more of them than the array holds. */
  lemma {:induction false} CrowdOverruns(topic: string, n: nat, line: string)
    requires TopicFits(topic) && |line| < 256 && '\0' !in line && 100 < n <= 200
    ensures AllFit(Crowd(topic, n) + [Publish(2, topic, line)])
    ensures !Uncrowded(TextsOf(Crowd(topic, n) + [Publish(2, topic, line)]))
  {
    var crowd, publish := Crowd(topic, n), Publish(2, topic, line);
    CrowdFits(topic, n);
    CrowdSubscribes(topic, n);
    CrowdFound(HandleAll(TextsOf(crowd)).registers.subscriptions, topic, n);
    RequestReadBack(publish);
    LastMustFit(crowd, publish);
  }
}
