/**
 * `RabbitMqQueueListener`: a broker subscription that appends every delivered message to an
 * in-memory buffer, and a drain that hands the buffer over and clears it.
 *
 * The lock around both buffer operations makes each of them atomic, so each is one sequential
 * step here. Ghost history records every delivery and every drained batch; the class
 * invariant says that the batches handed out so far, followed by the buffer, are exactly the
 * deliveries in arrival order: nothing is lost and nothing is duplicated.
 */
module QueueListener {
  import opened Wrappers
  import opened Models

  /** A broker connection or channel handle: never assigned (null), open, or closed. */
  datatype Handle = Unset | Open | Closed

  /** The `Close()` calls `StopListening` makes, in order. */
  datatype CloseCall = ChannelClose | ConnectionClose

  /** Where `StartListeningAsync` throws before it starts waiting, if it does. */
  datatype StartFault = NoFault | ConnectFault | ChannelFault | ConsumeFault

  /** The batches one after another. */
  function Flatten<T>(batches: seq<seq<T>>): seq<T>
    decreases |batches|
  {
    if batches == [] then [] else batches[0] + Flatten(batches[1..])
  }

  /** Appending a batch appends its messages. */
  lemma {:induction false} FlattenAppend<T>(batches: seq<seq<T>>, batch: seq<T>)
    ensures Flatten(batches + [batch]) == Flatten(batches) + batch
    decreases |batches|
  {
    if batches == [] {
      assert [] + [batch] == [batch];
      assert Flatten([batch]) == batch + Flatten([]);
    } else {
      assert (batches + [batch])[1..] == batches[1..] + [batch];
      FlattenAppend(batches[1..], batch);
    }
  }

  /** The entry `HandleMessageAsync` adds for a message body. */
  function Delivery(body: string): (m: ResponceIntegration)
    ensures m.message == body && m.result
  {
    ResponceIntegration(body, true)
  }

  /** The entries added for a sequence of bodies, in order. */
  function Deliveries(bodies: seq<string>): (ms: seq<ResponceIntegration>)
    ensures |ms| == |bodies|
    ensures forall i :: 0 <= i < |bodies| ==> ms[i] == Delivery(bodies[i])
  {
    seq(|bodies|, i requires 0 <= i < |bodies| => Delivery(bodies[i]))
  }

  /** The entries for two runs of bodies are those of the first run, then those of the second. */
  lemma DeliveriesAppend(a: seq<string>, b: seq<string>)
    ensures Deliveries(a + b) == Deliveries(a) + Deliveries(b)
  {
  }

  /** The entries of the first k + 1 polls are those of the first k, then those of poll k. */
  lemma ArrivalsStep(prior: seq<ResponceIntegration>, arrivals: seq<seq<string>>, k: nat)
    requires k < |arrivals|
    ensures prior + Deliveries(Flatten(arrivals[..k])) + Deliveries(arrivals[k]) ==
            prior + Deliveries(Flatten(arrivals[..k + 1]))
  {
    assert arrivals[..k + 1] == arrivals[..k] + [arrivals[k]];
    FlattenAppend(arrivals[..k], arrivals[k]);
    DeliveriesAppend(Flatten(arrivals[..k]), arrivals[k]);
  }

  /** A handle after `?.Close()`: closed if it was ever assigned. */
  function AfterClose(h: Handle): Handle {
    if h == Unset then Unset else Closed
  }

  /** The calls `_channel?.Close(); _connection?.Close();` make. */
  function CloseCalls(channel: Handle, connection: Handle): (calls: seq<CloseCall>)
    ensures |calls| == (if channel != Unset then 1 else 0) + (if connection != Unset then 1 else 0)
    ensures ChannelClose in calls <==> channel != Unset
    ensures ConnectionClose in calls <==> connection != Unset
    ensures channel != Unset && connection != Unset ==> calls == [ChannelClose, ConnectionClose]
  {
    (if channel != Unset then [ChannelClose] else []) + (if connection != Unset then [ConnectionClose] else [])
  }

  class RabbitMqQueueListener {
    var queueName: Option<string>
    var connection: Handle
    var channel: Handle
    /** `_collectedMessages`. */
    var collectedMessages: seq<ResponceIntegration>

    /** Every entry ever appended, in arrival order. */
    ghost var delivered: seq<ResponceIntegration>
    /** Every batch `GetCollectedMessages` has returned, in order. */
    ghost var drained: seq<seq<ResponceIntegration>>
    /** Every `Close()` call made on the handles, in order. */
    ghost var closeCalls: seq<CloseCall>

    /** Nothing delivered is lost or duplicated, and every entry is a successful delivery. */
    ghost predicate Valid()
      reads this
    {
      && Flatten(drained) + collectedMessages == delivered
      && forall i :: 0 <= i < |delivered| ==> delivered[i].result
    }

    constructor ()
      ensures Valid()
      ensures queueName == None && connection == Unset && channel == Unset
      ensures collectedMessages == [] && delivered == [] && drained == [] && closeCalls == []
    {
      queueName, connection, channel := None, Unset, Unset;
      collectedMessages := [];
      delivered, drained, closeCalls := [], [], [];
    }

    /** `HandleMessageAsync`: one entry for the body, appended at the end of the buffer. */
    method HandleMessage(body: string)
      requires Valid()
      modifies this
      ensures Valid()
      ensures collectedMessages == old(collectedMessages) + [Delivery(body)]
      ensures delivered == old(delivered) + [Delivery(body)]
      ensures drained == old(drained) && closeCalls == old(closeCalls)
      ensures queueName == old(queueName) && connection == old(connection) && channel == old(channel)
    {
      collectedMessages := collectedMessages + [Delivery(body)];
      delivered := delivered + [Delivery(body)];
    }

    /** `GetCollectedMessages`: a copy of the buffer, in order; the buffer is left empty. */
    method GetCollectedMessages() returns (messages: seq<ResponceIntegration>)
      requires Valid()
      modifies this
      ensures Valid()
      ensures messages == old(collectedMessages) && collectedMessages == []
      ensures drained == old(drained) + [messages]
      ensures delivered == old(delivered) && closeCalls == old(closeCalls)
      ensures queueName == old(queueName) && connection == old(connection) && channel == old(channel)
    {
      messages := collectedMessages;
      collectedMessages := [];
      FlattenAppend(drained, messages);
      drained := drained + [messages];
    }

    /** `StopListening`: closes the channel, then the connection, each only if it was assigned. */
    method StopListening()
      modifies this
      ensures closeCalls == old(closeCalls) + CloseCalls(old(channel), old(connection))
      ensures channel == AfterClose(old(channel)) && connection == AfterClose(old(connection))
      ensures queueName == old(queueName) && collectedMessages == old(collectedMessages)
      ensures delivered == old(delivered) && drained == old(drained)
    {
      if channel != Unset {
        channel := Closed;
        closeCalls := closeCalls + [ChannelClose];
      }
      if connection != Unset {
        connection := Closed;
        closeCalls := closeCalls + [ConnectionClose];
      }
    }

    /** The broker delivering `bodies` one after another to the registered consumer. */
    method ReceiveAll(bodies: seq<string>)
      requires Valid()
      modifies this
      ensures Valid()
      ensures delivered == old(delivered) + Deliveries(bodies)
      ensures collectedMessages == old(collectedMessages) + Deliveries(bodies)
      ensures drained == old(drained) && closeCalls == old(closeCalls)
      ensures queueName == old(queueName) && connection == old(connection) && channel == old(channel)
    {
      var n := 0;
      while n < |bodies|
        invariant 0 <= n <= |bodies|
        invariant Valid()
        invariant delivered == old(delivered) + Deliveries(bodies[..n])
        invariant collectedMessages == old(collectedMessages) + Deliveries(bodies[..n])
        invariant drained == old(drained) && closeCalls == old(closeCalls)
        invariant queueName == old(queueName) && connection == old(connection) && channel == old(channel)
      {
        HandleMessage(bodies[n]);
        assert Deliveries(bodies[..n + 1]) == Deliveries(bodies[..n]) + [Delivery(bodies[n])];
        n := n + 1;
      }
      assert bodies[..n] == bodies;
    }

    /**
     * The polling loop of `StartListeningAsync`, one iteration per poll until cancellation, with
     * the deliveries `arrivals[k]` made while poll `k` waits.
     */
    method PollUntilCancelled(arrivals: seq<seq<string>>)
      requires Valid()
      modifies this
      ensures Valid()
      ensures delivered == old(delivered) + Deliveries(Flatten(arrivals))
      ensures collectedMessages == old(collectedMessages) + Deliveries(Flatten(arrivals))
      ensures drained == old(drained) && closeCalls == old(closeCalls)
      ensures queueName == old(queueName) && connection == old(connection) && channel == old(channel)
    {
      var k := 0;
      while k < |arrivals|
        invariant 0 <= k <= |arrivals|
        invariant Valid()
        invariant delivered == old(delivered) + Deliveries(Flatten(arrivals[..k]))
        invariant collectedMessages == old(collectedMessages) + Deliveries(Flatten(arrivals[..k]))
        invariant drained == old(drained) && closeCalls == old(closeCalls)
        invariant queueName == old(queueName) && connection == old(connection) && channel == old(channel)
      {
        ArrivalsStep(old(delivered), arrivals, k);
        ArrivalsStep(old(collectedMessages), arrivals, k);
        ReceiveAll(arrivals[k]);
        k := k + 1;
      }
      assert arrivals[..k] == arrivals;
    }

    /**
     * `StartListeningAsync`. The queue name is recorded first. `fault` says where connecting
     * throws, if it does; otherwise the consumer is registered and the method polls until
     * cancellation while the broker delivers `arrivals`. On every exit path `StopListening`
     * runs last.
     */
    method StartListening(name: string, fault: StartFault, arrivals: seq<seq<string>>)
      requires Valid()
      modifies this
      ensures Valid()
      ensures queueName == Some(name)
      ensures delivered == old(delivered) + (if fault == NoFault then Deliveries(Flatten(arrivals)) else [])
      ensures collectedMessages == old(collectedMessages) + (if fault == NoFault then Deliveries(Flatten(arrivals)) else [])
      ensures drained == old(drained)
      ensures var connectionOpened := if fault == ConnectFault then old(connection) else Open;
              var channelOpened := if fault == ConnectFault || fault == ChannelFault then old(channel) else Open;
              && connection == AfterClose(connectionOpened) && channel == AfterClose(channelOpened)
              && closeCalls == old(closeCalls) + CloseCalls(channelOpened, connectionOpened)
    {
      queueName := Some(name);
      if fault != ConnectFault {
        connection := Open;
        if fault != ChannelFault {
          channel := Open;
          if fault != ConsumeFault {
            PollUntilCancelled(arrivals);
          }
        }
      }
      StopListening();
    }
  }

  /**
   * Appending N messages and then draining once returns exactly those N messages in arrival
   * order; a second drain straight after returns nothing. With no message, both drains are empty.
   */
  method DeliverThenDrainTwice(bodies: seq<string>)
    returns (first: seq<ResponceIntegration>, second: seq<ResponceIntegration>)
    ensures first == Deliveries(bodies)
    ensures second == []
  {
    var listener := new RabbitMqQueueListener();
    var n := 0;
    while n < |bodies|
      invariant 0 <= n <= |bodies|
      invariant listener.Valid()
      invariant listener.collectedMessages == Deliveries(bodies[..n])
    {
      listener.HandleMessage(bodies[n]);
      assert Deliveries(bodies[..n + 1]) == Deliveries(bodies[..n]) + [Delivery(bodies[n])];
      n := n + 1;
    }
    assert bodies[..n] == bodies;
    first := listener.GetCollectedMessages();
    second := listener.GetCollectedMessages();
  }
}
