/** `RabbitPublisherImpl`: its configuration, and one call of
    `publishMessageAndGetReplyCode` as a sequential state machine — build the
    properties, acquire connection and channel, register the listeners,
    record the sequence number, publish, wait on the future, and in the
    `finally` block close whatever is still open.

    The broker client is not modelled: `Broker` supplies everything it would
    decide — where an I/O exception is raised, the next publish sequence
    number, the trace of events from the publish until the channel close
    (the waiter's timeout among them), and what `isOpen()` and
    `close()` report at teardown. The model records the client calls it makes
    as `Action`s so that their order can be stated. */
module Publisher {
  import opened Wrappers
  import opened Amqp
  import opened Int32
  import Confirms
  import Properties
  import Resolver

  /** The two copies of the class: package org.brs.test_task and package
      org.example.test_task. */
  datatype Variant = Brs | Example

  /** org/brs fails the build on a bad `headers` value; org/example ignores it. */
  function HeadersPolicyOf(v: Variant): Properties.HeadersPolicy {
    match v
    case Brs => Properties.FailOnBadHeaders
    case Example => Properties.IgnoreBadHeaders
  }

  /** The publisher's fields; `outstanding` is `outstandingConfirms`, shared
      by every call on this publisher. */
  datatype Publisher = Publisher(
    variant: Variant,
    dateFormat: string,
    timeoutSeconds: int32,
    queueName: string,
    exchangeName: string,
    outstanding: Confirms.Tracker)

  /** The constructor: both names start empty, no confirm is outstanding. */
  function New(variant: Variant, dateFormat: string, timeoutSeconds: int32): (p: Publisher)
    ensures p.exchangeName == "" && p.queueName == ""
    ensures p.outstanding == Confirms.Empty
    ensures p.variant == variant && p.dateFormat == dateFormat && p.timeoutSeconds == timeoutSeconds
  {
    Publisher(variant, dateFormat, timeoutSeconds, "", "", Confirms.Empty)
  }

  /** `getExchangeName`: the exchange a publish is sent to. */
  function ExchangeName(p: Publisher): string {
    p.exchangeName
  }

  /** `getQueueName`: the routing key a publish carries. */
  function QueueName(p: Publisher): string {
    p.queueName
  }

  /** `setExchangeName`: the getter now returns `name`; nothing else changes. */
  function SetExchangeName(p: Publisher, name: string): (r: Publisher)
    ensures ExchangeName(r) == name
    ensures QueueName(r) == QueueName(p)
    ensures r.(exchangeName := p.exchangeName) == p
  {
    p.(exchangeName := name)
  }

  /** `setQueueName`: the getter now returns `name`; nothing else changes. */
  function SetQueueName(p: Publisher, name: string): (r: Publisher)
    ensures QueueName(r) == name
    ensures ExchangeName(r) == ExchangeName(p)
    ensures r.(queueName := p.queueName) == p
  {
    p.(queueName := name)
  }

  /** A setter call. */
  datatype Setting = SetExchange(name: string) | SetQueue(name: string)

  function ApplySetting(p: Publisher, s: Setting): Publisher {
    match s
    case SetExchange(name) => SetExchangeName(p, name)
    case SetQueue(name) => SetQueueName(p, name)
  }

  /** The setter calls, in order. */
  function Configure(p: Publisher, settings: seq<Setting>): Publisher
    decreases |settings|
  {
    if settings == [] then p else Configure(ApplySetting(p, settings[0]), settings[1..])
  }

  /** The name of the last `SetExchange` in `settings`, or `otherwise`. */
  function LastExchange(settings: seq<Setting>, otherwise: string): string
    decreases |settings|
  {
    if settings == [] then otherwise
    else if settings[|settings| - 1].SetExchange? then settings[|settings| - 1].name
    else LastExchange(settings[..|settings| - 1], otherwise)
  }

  /** The name of the last `SetQueue` in `settings`, or `otherwise`. */
  function LastQueue(settings: seq<Setting>, otherwise: string): string
    decreases |settings|
  {
    if settings == [] then otherwise
    else if settings[|settings| - 1].SetQueue? then settings[|settings| - 1].name
    else LastQueue(settings[..|settings| - 1], otherwise)
  }

  lemma {:induction false} ConfigureSnoc(p: Publisher, settings: seq<Setting>, s: Setting)
    ensures Configure(p, settings + [s]) == ApplySetting(Configure(p, settings), s)
    decreases |settings|
  {
    if settings == [] {
      assert ([] + [s])[1..] == [];
    } else {
      assert (settings + [s])[0] == settings[0];
      assert (settings + [s])[1..] == settings[1..] + [s];
      ConfigureSnoc(ApplySetting(p, settings[0]), settings[1..], s);
    }
  }

  /** Each getter returns the last value passed to its setter (the empty
      name on a fresh publisher), and setters touch nothing else. */
  lemma {:induction false} GettersReturnLastSet(p: Publisher, settings: seq<Setting>)
    ensures ExchangeName(Configure(p, settings)) == LastExchange(settings, ExchangeName(p))
    ensures QueueName(Configure(p, settings)) == LastQueue(settings, QueueName(p))
    ensures Configure(p, settings).(exchangeName := p.exchangeName, queueName := p.queueName) == p
    decreases |settings|
  {
    if settings != [] {
      var init := settings[..|settings| - 1];
      var s := settings[|settings| - 1];
      assert settings == init + [s];
      GettersReturnLastSet(p, init);
      ConfigureSnoc(p, init, s);
    }
  }

  /** On a fresh publisher, the getters start at the empty name. */
  lemma FreshPublisherNames(variant: Variant, dateFormat: string, timeoutSeconds: int32, settings: seq<Setting>)
    ensures ExchangeName(Configure(New(variant, dateFormat, timeoutSeconds), settings)) == LastExchange(settings, "")
    ensures QueueName(Configure(New(variant, dateFormat, timeoutSeconds), settings)) == LastQueue(settings, "")
  {
    GettersReturnLastSet(New(variant, dateFormat, timeoutSeconds), settings);
  }

  // ---------------------------------------------------------------------------
  // One publish attempt

  /** Where the broker client throws inside the `try` block, if anywhere.
      `UnknownHost` is `newConnection` throwing `UnknownHostException`; the
      others are an `IOException` from the named call. */
  datatype Fault =
    | NoFault
    | UnknownHost
    | ConnectFailure
    | CreateChannelFailure
    | ConfirmSelectFailure
    | PublishFailure

  /** Everything the broker client decides for one call. `events` is what
      reaches the client between the publish and the channel close; the wait
      ends at its first event, while the listeners handle all of it. */
  datatype Broker = Broker(
    fault: Fault,
    nextPublishSeqNo: int,
    events: seq<Resolver.Event>,
    channelOpen: bool,
    channelCloseFails: bool,
    connectionOpen: bool,
    connectionCloseFails: bool)

  /** What the call throws instead of returning a code. */
  datatype Failure =
    | BuildFailed(cause: Properties.BuildError)
    | BrokerIoError
    | WaitTimeout

  datatype Outcome = Reply(code: int) | Thrown(failure: Failure)

  /** The broker-client calls and table updates the call makes, in order. */
  datatype Action =
    | Connect
    | CreateChannel
    | ConfirmSelect
    | AddListeners
    | RecordConfirm(seqNo: int)
    | BasicPublish(exchange: string, routingKey: string, props: Properties.Attributes, body: seq<bv8>)
    | WaitCall(seconds: int)
    | CloseChannel(succeeded: bool)
    | CloseConnection(succeeded: bool)

  /** A `connection` or `channel` local in the `finally` block: still null,
      or assigned, with what `isOpen()` answers and whether `close()` throws. */
  datatype Resource = Unset | Held(isOpen: bool, closeFails: bool)

  /** How the `try` block ends, and which of the two locals it assigned. */
  datatype Attempt = Attempt(
    outcome: Outcome,
    outstanding: Confirms.Tracker,
    actions: seq<Action>,
    connectionAssigned: bool,
    channelAssigned: bool)

  /** The result of one call: the code or exception, the publisher after it,
      and the calls made. */
  datatype Run = Run(outcome: Outcome, publisher: Publisher, actions: seq<Action>)

  /** The bound passed to `future.get`: org/brs uses the constructor's
      `timeoutSeconds`, org/example a fixed 20 seconds. */
  function WaitSeconds(p: Publisher): (r: int)
    ensures p.variant == Brs ==> r == p.timeoutSeconds
    ensures p.variant == Example ==> r == 20
  {
    match p.variant
    case Brs => p.timeoutSeconds
    case Example => 20
  }

  predicate IsClose(a: Action) {
    a.CloseChannel? || a.CloseConnection?
  }

  predicate ClosesChannel(actions: seq<Action>) {
    CloseChannel(true) in actions || CloseChannel(false) in actions
  }

  predicate ClosesConnection(actions: seq<Action>) {
    CloseConnection(true) in actions || CloseConnection(false) in actions
  }

  /** The client calls of the `try` block in source order: connect, create
      the channel, select confirms, add the listeners, record the sequence
      number, publish, wait. */
  function Script(p: Publisher, props: Properties.Attributes, body: seq<bv8>, seqNo: int): seq<Action> {
    [Connect, CreateChannel, ConfirmSelect, AddListeners, RecordConfirm(seqNo),
     BasicPublish(p.exchangeName, p.queueName, props, body), WaitCall(WaitSeconds(p))]
  }

  /** How many of those calls are made: up to and including the one that
      throws. */
  function Reached(f: Fault): nat {
    match f
    case UnknownHost => 1
    case ConnectFailure => 1
    case CreateChannelFailure => 2
    case ConfirmSelectFailure => 3
    case PublishFailure => 6
    case NoFault => 7
  }

  /** The `try` block with its two `catch` arms: the calls made are the
      script cut at the failing call; the `connection` and `channel` locals
      are assigned once their call returns. `fault`, `seqNo` and `events`
      are what the broker client decides. */
  function TryBlock(p: Publisher, props: Properties.Attributes, body: seq<bv8>,
                    fault: Fault, seqNo: int, events: seq<Resolver.Event>): (r: Attempt)
    ensures r.actions == Script(p, props, body, seqNo)[..Reached(fault)]
    ensures r.connectionAssigned <==> fault !in {UnknownHost, ConnectFailure}
    ensures r.channelAssigned <==> fault !in {UnknownHost, ConnectFailure, CreateChannelFailure}
  {
    var publish := BasicPublish(p.exchangeName, p.queueName, props, body);
    var recorded := Confirms.Record(p.outstanding, seqNo, body);
    match fault
    case UnknownHost => Attempt(Reply(INVALID_PATH), p.outstanding, [Connect], false, false)
    case ConnectFailure => Attempt(Thrown(BrokerIoError), p.outstanding, [Connect], false, false)
    case CreateChannelFailure => Attempt(Thrown(BrokerIoError), p.outstanding, [Connect, CreateChannel], true, false)
    case ConfirmSelectFailure =>
      Attempt(Thrown(BrokerIoError), p.outstanding, [Connect, CreateChannel, ConfirmSelect], true, true)
    case PublishFailure =>
      Attempt(Thrown(BrokerIoError), recorded,
              [Connect, CreateChannel, ConfirmSelect, AddListeners, RecordConfirm(seqNo), publish], true, true)
    case NoFault =>
      var after := Resolver.Drain(Resolver.Listeners(None, recorded), events);
      var outcome :=
        match Resolver.Await(events)
        case Value(code) => Reply(code)
        case Interrupted => Reply(INTERNAL_ERROR)
        case TimedOut => Thrown(WaitTimeout);
      Attempt(outcome, after.tracker,
              [Connect, CreateChannel, ConfirmSelect, AddListeners, RecordConfirm(seqNo), publish, WaitCall(WaitSeconds(p))],
              true, true)
  }

  /** The `finally` block: the channel is closed only if it was assigned and
      is open, then the connection likewise; a failed close is only logged,
      so it neither skips the other close nor reaches the caller. */
  function Teardown(channel: Resource, connection: Resource): (r: seq<Action>)
    ensures ClosesChannel(r) <==> channel.Held? && channel.isOpen
    ensures ClosesConnection(r) <==> connection.Held? && connection.isOpen
    ensures |r| <= 2 && forall i :: 0 <= i < |r| ==> IsClose(r[i])
    ensures |r| == 2 ==> r[0].CloseChannel? && r[1].CloseConnection?
  {
    var closeChannel := if channel.Held? && channel.isOpen then [CloseChannel(!channel.closeFails)] else [];
    var closeConnection :=
      if connection.Held? && connection.isOpen then [CloseConnection(!connection.closeFails)] else [];
    closeChannel + closeConnection
  }

  /** The `channel` local as the `finally` block finds it. */
  function ChannelOf(a: Attempt, b: Broker): Resource {
    if a.channelAssigned then Held(b.channelOpen, b.channelCloseFails) else Unset
  }

  /** The `connection` local as the `finally` block finds it. */
  function ConnectionOf(a: Attempt, b: Broker): Resource {
    if a.connectionAssigned then Held(b.connectionOpen, b.connectionCloseFails) else Unset
  }

  function BuildConfigOf(p: Publisher, oracles: Properties.Oracles): Properties.BuildConfig {
    Properties.BuildConfig(HeadersPolicyOf(p.variant), p.dateFormat, oracles)
  }

  /** The `try`/`finally` of a call whose properties were built as `attrs`.
      Only the outstanding-confirm table of the publisher can change, and the
      first client call is always the connect. */
  function TryFinally(p: Publisher, attrs: Properties.Attributes, body: seq<bv8>, b: Broker): (r: Run)
    ensures r.publisher.(outstanding := p.outstanding) == p
    ensures 0 < |r.actions| && r.actions[0] == Connect
  {
    var a := TryBlock(p, attrs, body, b.fault, b.nextPublishSeqNo, b.events);
    Run(a.outcome, p.(outstanding := a.outstanding), a.actions + Teardown(ChannelOf(a, b), ConnectionOf(a, b)))
  }

  /** `publishMessageAndGetReplyCode(body, properties)`: the properties are
      built before anything else, then the `try`/`finally`. */
  function Publish(p: Publisher, body: seq<bv8>, props: Option<seq<Properties.Entry>>,
                   oracles: Properties.Oracles, b: Broker): (r: Run)
    ensures r.publisher.(outstanding := p.outstanding) == p
  {
    match Properties.Build(BuildConfigOf(p, oracles), props)
    case Err(e) => Run(Thrown(BuildFailed(e)), p, [])
    case Ok(attrs) => TryFinally(p, attrs, body, b)
  }

  // ---------------------------------------------------------------------------
  // Properties of a call

  /** Properties are built before any connection is opened: a build error is
      thrown with no broker-client call made and the publisher untouched, and
      a successful build always starts by connecting. */
  lemma BuildPrecedesConnect(p: Publisher, body: seq<bv8>, props: Option<seq<Properties.Entry>>,
                             oracles: Properties.Oracles, b: Broker)
    ensures var r := Publish(p, body, props, oracles, b);
            match Properties.Build(BuildConfigOf(p, oracles), props)
            case Err(e) => r == Run(Thrown(BuildFailed(e)), p, [])
            case Ok(_) => 0 < |r.actions| && r.actions[0] == Connect
  {
  }

  /** What the `try` block's calls are: never a close; the publish, when
      made, is the sixth call, right after the sequence number is recorded;
      and it is made exactly when connection, channel and confirm mode were
      obtained. */
  lemma {:induction false} TryCalls(p: Publisher, attrs: Properties.Attributes, body: seq<bv8>,
                                    fault: Fault, seqNo: int, events: seq<Resolver.Event>)
    ensures var acts := TryBlock(p, attrs, body, fault, seqNo, events).actions;
            && (forall i :: 0 <= i < |acts| ==> !IsClose(acts[i]))
            && (forall i :: 0 <= i < |acts| && acts[i].BasicPublish? ==>
                  && i == 5 && acts[4] == RecordConfirm(seqNo)
                  && acts[5] == BasicPublish(p.exchangeName, p.queueName, attrs, body))
            && ((exists i :: 0 <= i < |acts| && acts[i].BasicPublish?)
                <==> fault == NoFault || fault == PublishFailure)
  {
    var script := Script(p, attrs, body, seqNo);
    var acts := TryBlock(p, attrs, body, fault, seqNo, events).actions;
    assert |acts| == Reached(fault);
    forall i | 0 <= i < |acts|
      ensures acts[i] == script[i]
    {
    }
    if fault == NoFault || fault == PublishFailure {
      assert acts[5] == script[5];
    } else {
      assert |acts| <= 3;
    }
  }

  /** Appending the `finally` block's closes to calls that are not closes:
      the closes come last, channel before connection. */
  lemma {:induction false} ClosesComeLast(calls: seq<Action>, down: seq<Action>)
    requires forall i :: 0 <= i < |calls| ==> !IsClose(calls[i])
    requires |down| <= 2 && forall i :: 0 <= i < |down| ==> IsClose(down[i])
    requires |down| == 2 ==> down[0].CloseChannel? && down[1].CloseConnection?
    ensures ClosesChannel(calls + down) <==> ClosesChannel(down)
    ensures ClosesConnection(calls + down) <==> ClosesConnection(down)
    ensures forall i :: 0 <= i < |calls + down| ==> (IsClose((calls + down)[i]) <==> i >= |calls|)
    ensures forall i, j ::
              0 <= i < |calls + down| && 0 <= j < |calls + down|
              && (calls + down)[i].CloseChannel? && (calls + down)[j].CloseConnection?
              ==> i < j
  {
    var acts := calls + down;
    forall x | IsClose(x)
      ensures x !in calls
    {
    }
    forall i | |calls| <= i < |acts|
      ensures acts[i] == down[i - |calls|]
    {
    }
  }

  /** The publish is issued exactly when connection, channel and confirm mode
      were obtained; the sequence number is recorded in the table immediately
      before it, and it carries the configured exchange, the queue name as
      routing key, the built properties and the body. */
  lemma RecordPrecedesPublish(p: Publisher, attrs: Properties.Attributes, body: seq<bv8>, b: Broker)
    ensures var r := TryFinally(p, attrs, body, b);
            && ((exists i :: 0 <= i < |r.actions| && r.actions[i].BasicPublish?)
                <==> b.fault == NoFault || b.fault == PublishFailure)
            && forall i :: 0 <= i < |r.actions| && r.actions[i].BasicPublish? ==>
                 && 0 < i && r.actions[i - 1] == RecordConfirm(b.nextPublishSeqNo)
                 && r.actions[i] == BasicPublish(p.exchangeName, p.queueName, attrs, body)
  {
    var a := TryBlock(p, attrs, body, b.fault, b.nextPublishSeqNo, b.events);
    TryCalls(p, attrs, body, b.fault, b.nextPublishSeqNo, b.events);
    var down := Teardown(ChannelOf(a, b), ConnectionOf(a, b));
    ClosesComeLast(a.actions, down);
    var acts := a.actions + down;
    assert TryFinally(p, attrs, body, b).actions == acts;
    if b.fault == NoFault || b.fault == PublishFailure {
      assert acts[5] == a.actions[5];
      assert acts[5].BasicPublish?;
    }
  }

  /** The code a call returns or the exception it throws, once the properties
      are built: unknown host is 402 with nothing else attempted; another
      I/O failure propagates; otherwise the first event of the wait decides —
      ack 200, nack 541, a return or a shutdown the broker's reply code, an
      interrupt 541 — and the bound elapsing, or no event at all, is the
      timeout, thrown. */
  lemma ReplyCodeOfAttempt(p: Publisher, attrs: Properties.Attributes, body: seq<bv8>, b: Broker)
    ensures var r := TryFinally(p, attrs, body, b);
            match b.fault
            case UnknownHost => r.outcome == Reply(INVALID_PATH) && r.actions == [Connect]
            case NoFault =>
              (if b.events == [] then r.outcome == Thrown(WaitTimeout)
               else match b.events[0]
                    case Ack(_, _) => r.outcome == Reply(REPLY_SUCCESS)
                    case Nack(_, _) => r.outcome == Reply(INTERNAL_ERROR)
                    case Return(code, _) => r.outcome == Reply(code)
                    case Shutdown(code) => r.outcome == Reply(code)
                    case Interrupt => r.outcome == Reply(INTERNAL_ERROR)
                    case Timeout => r.outcome == Thrown(WaitTimeout))
            case _ => r.outcome == Thrown(BrokerIoError)
  {
  }

  /** A returned code other than the interrupt's is the value the listeners
      left in the future: the first completion of the trace. */
  lemma ReplyIsFirstCompletion(p: Publisher, attrs: Properties.Attributes, body: seq<bv8>, b: Broker, code: int)
    requires b.fault == NoFault && b.events != [] && !b.events[0].Interrupt? && !b.events[0].Timeout?
    ensures TryFinally(p, attrs, body, b).outcome == Reply(code)
            <==> Resolver.Drain(Resolver.Listeners(None, Confirms.Record(p.outstanding, b.nextPublishSeqNo, body)), b.events).cell
                 == Some(code)
  {
    var t := Confirms.Record(p.outstanding, b.nextPublishSeqNo, body);
    Resolver.AwaitReadsCell(t, b.events);
  }

  /** The wait bound is the constructor's timeout in org/brs and 20 seconds in
      org/example; there the constructor's timeout changes nothing. */
  lemma WaitBound(p: Publisher, attrs: Properties.Attributes, body: seq<bv8>, b: Broker, otherTimeout: int32)
    requires b.fault == NoFault
    ensures TryFinally(p, attrs, body, b).actions[6] == WaitCall(if p.variant == Brs then p.timeoutSeconds else 20)
    ensures p.variant == Example ==>
              var q := p.(timeoutSeconds := otherTimeout);
              && TryFinally(q, attrs, body, b).outcome == TryFinally(p, attrs, body, b).outcome
              && TryFinally(q, attrs, body, b).actions == TryFinally(p, attrs, body, b).actions
  {
  }

  /** The `finally` block closes the channel exactly when it was created and
      is open, and the connection exactly when it was created and is open —
      whatever the channel's close did — and always after the `try` block's
      own calls, channel before connection. */
  lemma TeardownRules(p: Publisher, attrs: Properties.Attributes, body: seq<bv8>, b: Broker)
    ensures var r := TryFinally(p, attrs, body, b);
            && (ClosesChannel(r.actions)
                <==> b.fault !in {UnknownHost, ConnectFailure, CreateChannelFailure} && b.channelOpen)
            && (ClosesConnection(r.actions)
                <==> b.fault !in {UnknownHost, ConnectFailure} && b.connectionOpen)
            && (forall i, j :: 0 <= i < j < |r.actions| && IsClose(r.actions[i]) ==> IsClose(r.actions[j]))
            && (forall i, j ::
                  0 <= i < |r.actions| && 0 <= j < |r.actions|
                  && r.actions[i].CloseChannel? && r.actions[j].CloseConnection?
                  ==> i < j)
  {
    var a := TryBlock(p, attrs, body, b.fault, b.nextPublishSeqNo, b.events);
    TryCalls(p, attrs, body, b.fault, b.nextPublishSeqNo, b.events);
    ClosesComeLast(a.actions, Teardown(ChannelOf(a, b), ConnectionOf(a, b)));
  }

  /** Two call logs that agree except for the success flags of the closes. */
  predicate SameUpToCloseResults(xs: seq<Action>, ys: seq<Action>) {
    && |xs| == |ys|
    && forall i :: 0 <= i < |xs| ==> (IsClose(xs[i]) <==> IsClose(ys[i])) && (!IsClose(xs[i]) ==> ys[i] == xs[i])
  }

  lemma {:induction false} SameCallsThenCloses(calls: seq<Action>, down: seq<Action>, down': seq<Action>)
    requires |down| == |down'|
    requires forall i :: 0 <= i < |down| ==> IsClose(down[i]) && IsClose(down'[i])
    ensures SameUpToCloseResults(calls + down, calls + down')
  {
    forall i | |calls| <= i < |calls + down|
      ensures (calls + down)[i] == down[i - |calls|] && (calls + down')[i] == down'[i - |calls|]
    {
    }
  }

  /** Close failures never change the call's result: only the logged success
      flags of the close calls differ. */
  lemma CloseFailuresAreInvisible(p: Publisher, attrs: Properties.Attributes, body: seq<bv8>, b: Broker,
                                  channelFails: bool, connectionFails: bool)
    ensures var b' := b.(channelCloseFails := channelFails, connectionCloseFails := connectionFails);
            var r := TryFinally(p, attrs, body, b);
            var r' := TryFinally(p, attrs, body, b');
            && r'.outcome == r.outcome
            && r'.publisher == r.publisher
            && SameUpToCloseResults(r.actions, r'.actions)
  {
    var b' := b.(channelCloseFails := channelFails, connectionCloseFails := connectionFails);
    var a := TryBlock(p, attrs, body, b.fault, b.nextPublishSeqNo, b.events);
    SameCallsThenCloses(a.actions, Teardown(ChannelOf(a, b), ConnectionOf(a, b)), Teardown(ChannelOf(a, b'), ConnectionOf(a, b')));
  }

  /** What a call leaves in the shared outstanding-confirm table: nothing
      changes unless the sequence number was recorded; after a wait, an entry
      is present, with its body, exactly when it was present after recording
      and no acknowledgement of the trace settles it. In particular the
      publish's own entry stays exactly when no confirm covers it, whether
      the wait returned a code or timed out. */
  lemma OutstandingAfterCall(p: Publisher, attrs: Properties.Attributes, body: seq<bv8>, b: Broker, k: int)
    ensures var t := TryFinally(p, attrs, body, b).publisher.outstanding;
            var recorded := Confirms.Record(p.outstanding, b.nextPublishSeqNo, body);
            && (b.fault !in {NoFault, PublishFailure} ==> t == p.outstanding)
            && (b.fault == PublishFailure ==> t == recorded)
            && (b.fault == NoFault ==>
                  && (k in t <==> k in recorded && forall i :: 0 <= i < |b.events| ==> !Resolver.Settles(b.events[i], k))
                  && (k in t ==> t[k] == recorded[k]))
            && (b.fault == NoFault ==>
                  ((forall i :: 0 <= i < |b.events| ==> !Resolver.Settles(b.events[i], b.nextPublishSeqNo))
                   <==> b.nextPublishSeqNo in t && t[b.nextPublishSeqNo] == body))
  {
    var recorded := Confirms.Record(p.outstanding, b.nextPublishSeqNo, body);
    Resolver.EntrySurvivesUnlessSettled(Resolver.Listeners(None, recorded), b.events, k);
    Resolver.EntrySurvivesUnlessSettled(Resolver.Listeners(None, recorded), b.events, b.nextPublishSeqNo);
  }

  /** A confirm that arrives after the wait gave up still reaches its
      listener before the channel is closed: the call throws the timeout,
      yet the publish's entry is gone from the table. */
  lemma LateConfirmAfterTimeout(p: Publisher, attrs: Properties.Attributes, body: seq<bv8>, b: Broker)
    requires b.fault == NoFault
    requires b.events == [Resolver.Timeout, Resolver.Ack(b.nextPublishSeqNo, false)]
    ensures TryFinally(p, attrs, body, b).outcome == Thrown(WaitTimeout)
    ensures b.nextPublishSeqNo !in TryFinally(p, attrs, body, b).publisher.outstanding
  {
    var recorded := Confirms.Record(p.outstanding, b.nextPublishSeqNo, body);
    Resolver.EntrySurvivesUnlessSettled(Resolver.Listeners(None, recorded), b.events, b.nextPublishSeqNo);
    assert Resolver.Settles(b.events[1], b.nextPublishSeqNo);
  }
}
