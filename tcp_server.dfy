/**
 * `TcpServerInstance`: `UpServerAsync` validates the host and port, binds a listening socket
 * and tries a bounded number of times to accept one client; `SendSseMessagesAsync` then drains
 * the queue listener over and over and writes every drained message, reformatted, as one line
 * to the client.
 *
 * Sockets are not modelled. The outcome of `AcceptTcpClientAsync` on attempt `k` is
 * `accept(k)`, a failing `listener.Start()` is the flag `bindFails`, and `IPAddress.TryParse`
 * is the predicate `isIpAddress`. The client's stream is the sequence of lines written to it.
 */
module TcpServer {
  import opened Wrappers
  import opened Models
  import opened JsonReformat
  import opened QueueListener

  /** `ServerConnectionSettings`: the number of accept attempts and the delay after a failure. */
  datatype ConnectionSettings = ConnectionSettings(attemptsToFindBus: int, busReconnectDelayMs: int)

  /** A TCP port number (an unsigned 16-bit value). */
  type Port = p: int | 0 <= p < 0x1_0000

  /**
   * `ServerInstanceModel`: the host and the connection settings (`None` for null) and the port.
   */
  datatype ServerInstanceModel = ServerInstanceModel(host: Option<string>, port: Port, settings: Option<ConnectionSettings>)

  const HostMissing := ResponceIntegration("Host cannot be null or empty.", false)
  const PortMissing := ResponceIntegration("Port is not specified.", false)
  const InvalidHost := ResponceIntegration("Invalid host address.", false)
  const ClientConnected := ResponceIntegration("Сервер запущен и клиент подключен.", true)
  const AttemptsExhausted := ResponceIntegration("Не удалось подключиться после нескольких попыток.", false)
  const CriticalError := ResponceIntegration("Критическая ошибка сервера.", false)

  /**
   * `char.IsWhiteSpace`: the Unicode space, line and paragraph separators and the listed controls.
   * ASCII blanks are white space; the characters of an address (digits, letters, dots, colons)
   * and the zero-width space are not.
   */
  predicate IsWhiteSpace(c: char)
    ensures c == ' ' || c == '\t' || c == '\n' || c == '\r' ==> IsWhiteSpace(c)
    ensures ('0' <= c <= '9' || 'a' <= c <= 'z' || 'A' <= c <= 'Z' || c == '.' || c == ':' || c == '\U{200B}')
            ==> !IsWhiteSpace(c)
  {
    || c == ' ' || '\t' <= c <= '\r' || c == '\U{0085}' || c == '\U{00A0}' || c == '\U{1680}'
    || '\U{2000}' <= c <= '\U{200A}' || c == '\U{2028}' || c == '\U{2029}' || c == '\U{202F}'
    || c == '\U{205F}' || c == '\U{3000}'
  }

  /** `s` without its leading white space (`TrimStart()`). */
  function TrimStart(s: string): (t: string)
    ensures |t| <= |s| && t == s[|s| - |t|..]
    ensures t != [] ==> !IsWhiteSpace(t[0])
  {
    if s != [] && IsWhiteSpace(s[0]) then TrimStart(s[1..]) else s
  }

  /** Trimming leaves nothing exactly when every character is white space. */
  lemma {:induction false} TrimStartEmptyIffBlank(s: string)
    ensures TrimStart(s) == [] <==> forall i :: 0 <= i < |s| ==> IsWhiteSpace(s[i])
    decreases |s|
  {
    if s != [] {
      TrimStartEmptyIffBlank(s[1..]);
      if IsWhiteSpace(s[0]) {
        forall i | 0 <= i < |s[1..]| ensures s[1..][i] == s[i + 1] { }
      }
    }
  }

  /**
   * `string.IsNullOrWhiteSpace`: a missing host, or one that is empty once its leading white
   * space is trimmed.
   */
  predicate IsNullOrWhiteSpace(host: Option<string>)
    ensures IsNullOrWhiteSpace(host) <==> host.None? || TrimStart(host.value) == []
  {
    match host
    case None => true
    case Some(h) =>
      TrimStartEmptyIffBlank(h);
      forall i :: 0 <= i < |h| ==> IsWhiteSpace(h[i])
  }

  /** The checks `UpServerAsync` makes before it creates a `TcpListener` all pass. */
  predicate PassesValidation(instance: ServerInstanceModel, isIpAddress: string -> bool) {
    !IsNullOrWhiteSpace(instance.host) && instance.port != 0 && isIpAddress(instance.host.value)
  }

  /** `Task.Delay(int)` throws for a delay below -1 (-1 means wait forever). */
  predicate DelayRejects(ms: int) {
    ms < -1
  }

  function Max0(n: int): nat {
    if n < 0 then 0 else n
  }

  /** The first attempt number from `from` to `n` whose accept succeeds, if there is one. */
  function FirstAccepted(accept: int -> bool, from: int, n: int): (k: Option<int>)
    ensures k.Some? ==> from <= k.value <= n && accept(k.value) &&
                        forall j :: from <= j < k.value ==> !accept(j)
    ensures k.None? ==> forall j :: from <= j <= n ==> !accept(j)
    decreases n - from + 1
  {
    if from > n then None
    else if accept(from) then Some(from)
    else FirstAccepted(accept, from + 1, n)
  }

  /** What the accept loop returns and how many accepts it attempts. */
  datatype AcceptReport = AcceptReport(response: ResponceIntegration, attempts: nat)

  /**
   * The outcome of the accept loop: the first successful attempt connects; after a failed
   * attempt the retry delay runs, and a delay that `Task.Delay` rejects escapes to the outer
   * handler as a critical error; when every attempt fails, the attempts are exhausted.
   * At most max(0, n) attempts are made; success is reported exactly on the first successful
   * attempt, and exhaustion only when every attempt failed (always when n <= 0), after exactly
   * max(0, n) attempts.
   */
  function AcceptOutcome(settings: ConnectionSettings, accept: int -> bool): (r: AcceptReport)
    ensures var n := settings.attemptsToFindBus;
      && r.attempts <= Max0(n)
      && (r.response.result <==> r.response == ClientConnected)
      && (r.response == ClientConnected ==>
            1 <= r.attempts && accept(r.attempts) && forall j :: 1 <= j < r.attempts ==> !accept(j))
      && (r.response == AttemptsExhausted ==>
            r.attempts == Max0(n) && forall j :: 1 <= j <= n ==> !accept(j))
      && (r.response == ClientConnected || r.response == AttemptsExhausted || r.response == CriticalError)
      && (!DelayRejects(settings.busReconnectDelayMs) ==>
            && (r.response == ClientConnected <==> exists j :: 1 <= j <= n && accept(j))
            && (r.response == AttemptsExhausted <==> forall j :: 1 <= j <= n ==> !accept(j)))
    ensures settings.attemptsToFindBus >= 1 && accept(1) ==> r == AcceptReport(ClientConnected, 1)
    ensures r.response == CriticalError <==>
      settings.attemptsToFindBus >= 1 && !accept(1) && DelayRejects(settings.busReconnectDelayMs)
    ensures r.response == CriticalError ==> r.attempts == 1
  {
    var n, delay := settings.attemptsToFindBus, settings.busReconnectDelayMs;
    match FirstAccepted(accept, 1, n)
    case Some(k) =>
      if k == 1 || !DelayRejects(delay) then AcceptReport(ClientConnected, k) else AcceptReport(CriticalError, 1)
    case None =>
      if n >= 1 && DelayRejects(delay) then AcceptReport(CriticalError, 1) else AcceptReport(AttemptsExhausted, Max0(n))
  }

  /** Formatting every drained message, one line each, in order. */
  function FormatLines(messages: seq<ResponceIntegration>, lib: JsonLibrary): (lines: seq<string>)
    ensures |lines| == |messages|
    ensures forall i :: 0 <= i < |messages| ==> lines[i] == FormatJson(messages[i].message, lib)
  {
    seq(|messages|, i requires 0 <= i < |messages| => FormatJson(messages[i].message, lib))
  }

  lemma FormatLinesAppend(a: seq<ResponceIntegration>, b: seq<ResponceIntegration>, lib: JsonLibrary)
    ensures FormatLines(a + b, lib) == FormatLines(a, lib) + FormatLines(b, lib)
  {
  }

  /** The drained batches plus the buffer keep matching the deliveries across one poll. */
  lemma HistoryStep(prior: seq<ResponceIntegration>, batches: seq<seq<ResponceIntegration>>,
                    buffered: seq<ResponceIntegration>, arrivals: seq<seq<string>>, k: nat)
    requires k < |arrivals|
    requires Flatten(batches) + buffered == prior + Deliveries(Flatten(arrivals[..k]))
    ensures Flatten(batches + [buffered + Deliveries(arrivals[k])]) == prior + Deliveries(Flatten(arrivals[..k + 1]))
  {
    assert arrivals[..k + 1] == arrivals[..k] + [arrivals[k]];
    FlattenAppend(arrivals[..k], arrivals[k]);
    DeliveriesAppend(Flatten(arrivals[..k]), arrivals[k]);
    FlattenAppend(batches, buffered + Deliveries(arrivals[k]));
    calc {
      Flatten(batches + [buffered + Deliveries(arrivals[k])]);
      Flatten(batches) + (buffered + Deliveries(arrivals[k]));
      (Flatten(batches) + buffered) + Deliveries(arrivals[k]);
      prior + Deliveries(Flatten(arrivals[..k])) + Deliveries(arrivals[k]);
      prior + Deliveries(Flatten(arrivals[..k]) + arrivals[k]);
      prior + Deliveries(Flatten(arrivals[..k + 1]));
    }
  }

  class TcpServerInstance {
    /** `_rabbitMqQueueListener`: one injected listener, drained by every session of this server. */
    const listener: RabbitMqQueueListener

    constructor (listener: RabbitMqQueueListener)
      ensures this.listener == listener
    {
      this.listener := listener;
    }

    /**
     * The accept loop of `UpServerAsync`: attempts 1 to `AttemptsToFindBus`; the first
     * successful accept returns straight away; each failure is followed by the retry delay.
     */
    method AcceptClient(settings: ConnectionSettings, accept: int -> bool)
      returns (response: ResponceIntegration, attempts: nat)
      ensures AcceptReport(response, attempts) == AcceptOutcome(settings, accept)
    {
      var n := settings.attemptsToFindBus;
      var attempt := 1;
      attempts := 0;
      while attempt <= n
        invariant 1 <= attempt <= Max0(n) + 1
        invariant attempts == attempt - 1
        invariant attempt > 1 ==> !DelayRejects(settings.busReconnectDelayMs)
        invariant FirstAccepted(accept, 1, n) == FirstAccepted(accept, attempt, n)
      {
        attempts := attempts + 1;
        if accept(attempt) {
          assert FirstAccepted(accept, attempt, n) == Some(attempt);
          return ClientConnected, attempts;
        }
        assert FirstAccepted(accept, attempt, n) == FirstAccepted(accept, attempt + 1, n);
        if DelayRejects(settings.busReconnectDelayMs) {
          assert attempt == 1 && attempts == 1;
          return CriticalError, attempts;
        }
        attempt := attempt + 1;
      }
      assert FirstAccepted(accept, attempt, n) == None;
      response := AttemptsExhausted;
    }

    /**
     * `UpServerAsync`. A blank host, then a zero port, then a host that is not an IP address
     * are rejected in that order, before any `TcpListener` exists; a failing bind is a critical
     * error; otherwise the accept loop decides. `listenerCreated` tells whether a `TcpListener`
     * was created and started.
     */
    method UpServer(instance: ServerInstanceModel, isIpAddress: string -> bool, bindFails: bool, accept: int -> bool)
      returns (response: ResponceIntegration, attempts: nat, listenerCreated: bool)
      ensures IsNullOrWhiteSpace(instance.host) ==> response == HostMissing
      ensures !IsNullOrWhiteSpace(instance.host) && instance.port == 0 ==> response == PortMissing
      ensures !IsNullOrWhiteSpace(instance.host) && instance.port != 0 && !isIpAddress(instance.host.value) ==>
                response == InvalidHost
      ensures listenerCreated <==> PassesValidation(instance, isIpAddress)
      ensures !listenerCreated ==> attempts == 0 && !response.result
      ensures listenerCreated && bindFails ==> response == CriticalError && attempts == 0
      ensures listenerCreated && !bindFails && instance.settings.None? ==>
                response == CriticalError && attempts == 0
      ensures listenerCreated && !bindFails && instance.settings.Some? ==>
                AcceptReport(response, attempts) == AcceptOutcome(instance.settings.value, accept)
    {
      attempts, listenerCreated := 0, false;
      if IsNullOrWhiteSpace(instance.host) {
        return HostMissing, attempts, listenerCreated;
      }
      if instance.port == 0 {
        return PortMissing, attempts, listenerCreated;
      }
      if !isIpAddress(instance.host.value) {
        return InvalidHost, attempts, listenerCreated;
      }
      listenerCreated := true;
      if bindFails {
        return CriticalError, attempts, listenerCreated;
      }
      if instance.settings.None? {
        // reading `AttemptsToFindBus` of a null settings object throws inside the outer `try`
        return CriticalError, attempts, listenerCreated;
      }
      response, attempts := AcceptClient(instance.settings.value, accept);
    }

    /** The `foreach` of `SendSseMessagesAsync`: one formatted line per message, in list order. */
    method WriteBatch(elements: seq<ResponceIntegration>, lib: JsonLibrary) returns (lines: seq<string>)
      ensures |lines| == |elements|
      ensures forall i :: 0 <= i < |elements| ==> lines[i] == FormatJson(elements[i].message, lib)
    {
      lines := [];
      for i := 0 to |elements|
        invariant |lines| == i
        invariant forall j :: 0 <= j < i ==> lines[j] == FormatJson(elements[j].message, lib)
      {
        var formattedJson := FormatJson(elements[i].message, lib);
        lines := lines + [formattedJson];
      }
    }

    /**
     * One iteration of the loop of `SendSseMessagesAsync`: the broker delivers `bodies` to the
     * listener, then the session drains the buffer and writes one formatted line per message
     * (nothing for an empty batch).
     */
    method ServePoll(bodies: seq<string>, lib: JsonLibrary)
      returns (elements: seq<ResponceIntegration>, written: seq<string>)
      requires listener.Valid()
      modifies listener
      ensures listener.Valid()
      ensures elements == old(listener.collectedMessages) + Deliveries(bodies)
      ensures written == FormatLines(elements, lib)
      ensures listener.collectedMessages == []
      ensures listener.drained == old(listener.drained) + [elements]
      ensures listener.delivered == old(listener.delivered) + Deliveries(bodies)
      ensures listener.queueName == old(listener.queueName) && listener.closeCalls == old(listener.closeCalls)
      ensures listener.connection == old(listener.connection) && listener.channel == old(listener.channel)
    {
      listener.ReceiveAll(bodies);
      elements := listener.GetCollectedMessages();
      if |elements| == 0 {
        written := [];
      } else {
        written := WriteBatch(elements, lib);
      }
    }

    /**
     * `SendSseMessagesAsync`, one loop iteration per poll until cancellation or disconnection,
     * with the deliveries `arrivals[k]` made before poll `k`. The lines written are the drained
     * messages, formatted, in drain order, and the drained messages are exactly what was
     * buffered before plus what arrived: nothing lost, nothing written twice.
     */
    method SendSseMessages(arrivals: seq<seq<string>>, lib: JsonLibrary) returns (lines: seq<string>)
      requires listener.Valid()
      modifies listener
      ensures listener.Valid()
      ensures listener.delivered == old(listener.delivered) + Deliveries(Flatten(arrivals))
      ensures |listener.drained| == |old(listener.drained)| + |arrivals|
      ensures listener.drained[..|old(listener.drained)|] == old(listener.drained)
      ensures lines == FormatLines(Flatten(listener.drained[|old(listener.drained)|..]), lib)
      ensures Flatten(listener.drained[|old(listener.drained)|..]) + listener.collectedMessages ==
                old(listener.collectedMessages) + Deliveries(Flatten(arrivals))
      ensures arrivals != [] ==> listener.collectedMessages == []
      ensures listener.queueName == old(listener.queueName) && listener.closeCalls == old(listener.closeCalls)
      ensures listener.connection == old(listener.connection) && listener.channel == old(listener.channel)
    {
      lines := [];
      ghost var batches: seq<seq<ResponceIntegration>> := [];
      var k := 0;
      while k < |arrivals|
        invariant 0 <= k <= |arrivals|
        invariant listener.Valid()
        invariant listener.delivered == old(listener.delivered) + Deliveries(Flatten(arrivals[..k]))
        invariant listener.drained == old(listener.drained) + batches && |batches| == k
        invariant lines == FormatLines(Flatten(batches), lib)
        invariant Flatten(batches) + listener.collectedMessages ==
                    old(listener.collectedMessages) + Deliveries(Flatten(arrivals[..k]))
        invariant k > 0 ==> listener.collectedMessages == []
        invariant listener.queueName == old(listener.queueName) && listener.closeCalls == old(listener.closeCalls)
        invariant listener.connection == old(listener.connection) && listener.channel == old(listener.channel)
      {
        HistoryStep(old(listener.collectedMessages), batches, listener.collectedMessages, arrivals, k);
        ArrivalsStep(old(listener.delivered), arrivals, k);
        var elements, written := ServePoll(arrivals[k], lib);
        FlattenAppend(batches, elements);
        FormatLinesAppend(Flatten(batches), elements, lib);
        batches := batches + [elements];
        lines := lines + written;
        k := k + 1;
      }
      assert arrivals[..k] == arrivals;
      assert listener.drained[|old(listener.drained)|..] == batches;
    }
  }
}
