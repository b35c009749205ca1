/**
 * The Broadcaster: the `forEach` over the WebSocket server's clients that
 * sends the cleaned reading to every client whose `readyState` is OPEN. The
 * clients are a snapshot of their states, in the server's iteration order; a
 * client is named by its position in that snapshot.
 */
module Broadcaster {
  import opened Telemetry

  /** The WebSocket `readyState` values. */
  datatype ReadyState = Connecting | Open | Closing | Closed

  /** The object serialised for the viewers: `cleanData`. */
  datatype Message = Message(batteryTemperature: Temp, timestamp: int)

  /** One `client.send` call. */
  datatype Delivery = Delivery(client: nat, message: Message)

  /** The message a reading is sent as. */
  function ToMessage(r: Reading): Message
  {
    Message(r.temperature, r.timestamp)
  }

  /** The sends the loop performs, in client order; written from the end so that a left-to-right loop follows it. */
  function OpenDeliveries(clients: seq<ReadyState>, m: Message): seq<Delivery>
  {
    if clients == [] then []
    else
      var last := |clients| - 1;
      OpenDeliveries(clients[..last], m) + (if clients[last] == Open then [Delivery(last, m)] else [])
  }

  /** Every OPEN client is sent the message exactly once and every other client never. */
  lemma {:induction false} EachOpenClientOnce(clients: seq<ReadyState>, m: Message)
    ensures forall i: nat ::
      multiset(OpenDeliveries(clients, m))[Delivery(i, m)] == (if i < |clients| && clients[i] == Open then 1 else 0)
  {
    if clients != [] {
      var last := |clients| - 1;
      EachOpenClientOnce(clients[..last], m);
    }
  }

  /** Nothing but the given message is sent, and only to clients of the snapshot that are OPEN. */
  lemma {:induction false} OnlyOpenClientsReceive(clients: seq<ReadyState>, m: Message)
    ensures forall d :: d in OpenDeliveries(clients, m) ==>
      d.message == m && d.client < |clients| && clients[d.client] == Open
  {
    if clients != [] {
      var last := |clients| - 1;
      OnlyOpenClientsReceive(clients[..last], m);
    }
  }

  /** Sends happen in client order, so no client is visited twice. */
  lemma {:induction false} DeliveriesInClientOrder(clients: seq<ReadyState>, m: Message)
    ensures forall j, k :: 0 <= j < k < |OpenDeliveries(clients, m)| ==>
      OpenDeliveries(clients, m)[j].client < OpenDeliveries(clients, m)[k].client
  {
    if clients != [] {
      var last := |clients| - 1;
      DeliveriesInClientOrder(clients[..last], m);
      OnlyOpenClientsReceive(clients[..last], m);
      var prefix := OpenDeliveries(clients[..last], m);
      assert forall j :: 0 <= j < |prefix| ==> prefix[j] in prefix;
    }
  }

  /** The `forEach` loop: returns the sends it made. */
  method Broadcast(clients: seq<ReadyState>, m: Message) returns (sent: seq<Delivery>)
    ensures sent == OpenDeliveries(clients, m)
  {
    sent := [];
    for i := 0 to |clients|
      invariant sent == OpenDeliveries(clients[..i], m)
    {
      assert clients[..i + 1][..i] == clients[..i];
      if clients[i] == Open {
        sent := sent + [Delivery(i, m)];
      }
    }
    assert clients[..|clients|] == clients;
  }
}
