/**
 * The server-sent-events broadcaster of the web front end: a list of client
 * channels, a greeting for each new client, and a broadcast that drops the
 * clients whose channel refused the message.
 *
 * A channel is named by a number.  Whether `try_send` succeeds on a channel
 * (it fails when the channel is full or its client has gone) is decided
 * outside the broadcaster, so the outcomes are a parameter, one per client.
 */
module Broadcasting {
  import opened Outcomes

  type Sender = nat

  /** The receiving end handed to the HTTP response of a new client. */
  datatype Client = Client(receiver: Sender)

  /** A message placed in a channel. */
  datatype Delivery = Delivery(to: Sender, data: string)

  const Greeting: string := "data: connected\n\n"

  /** The clients whose send succeeded, in their original order. */
  function Kept(clients: seq<Sender>, accepted: seq<bool>): (kept: seq<Sender>)
    requires |accepted| == |clients|
    ensures |kept| <= |clients|
  {
    if clients == [] then []
    else
      var n := |clients| - 1;
      Kept(clients[..n], accepted[..n]) + (if accepted[n] then [clients[n]] else [])
  }

  /** The messages a broadcast of `data` places, one per client kept. */
  function Deliveries(kept: seq<Sender>, data: string): (sent: seq<Delivery>)
    ensures |sent| == |kept|
    ensures forall i :: 0 <= i < |kept| ==> sent[i] == Delivery(kept[i], data)
  {
    if kept == [] then [] else Deliveries(kept[..|kept| - 1], data) + [Delivery(kept[|kept| - 1], data)]
  }

  class Broadcaster {
    var clients: seq<Sender>
    /** Every message placed in a client channel so far, in order. */
    var delivered: seq<Delivery>

    /** `Broadcaster::new`: no clients. */
    constructor()
      ensures clients == [] && delivered == []
    {
      clients := [];
      delivered := [];
    }

    /**
     * `new_client`: greets the client on its fresh channel `channel` and adds
     * the channel at the end of the list.  The channel is created for the
     * call, so no client already holds it.
     */
    method NewClient(channel: Sender) returns (client: Client)
      requires channel !in clients
      modifies this
      ensures clients == old(clients) + [channel]
      ensures delivered == old(delivered) + [Delivery(channel, Greeting)]
      ensures client == Client(channel)
    {
      delivered := delivered + [Delivery(channel, Greeting)];
      clients := clients + [channel];
      client := Client(channel);
    }

    /**
     * `message`: tries every client once, in order; `Ok` when all took the
     * message, otherwise the clients that did.  The list itself is left
     * alone.
     */
    method Message(data: string, accepted: seq<bool>) returns (r: Result<(), seq<Sender>>)
      requires |accepted| == |clients|
      modifies this
      ensures clients == old(clients)
      ensures delivered == old(delivered) + Deliveries(Kept(clients, accepted), data)
      ensures r == (if |Kept(clients, accepted)| == |clients| then Ok(()) else Err(Kept(clients, accepted)))
    {
      var okClients: seq<Sender> := [];
      for k := 0 to |clients|
        invariant clients == old(clients)
        invariant okClients == Kept(clients[..k], accepted[..k])
        invariant delivered == old(delivered) + Deliveries(okClients, data)
      {
        assert clients[..k + 1][..k] == clients[..k];
        assert accepted[..k + 1][..k] == accepted[..k];
        var client := clients[k];
        if accepted[k] {
          delivered := delivered + [Delivery(client, data)];
          okClients := okClients + [client];
          assert Deliveries(okClients, data) == Deliveries(okClients[..|okClients| - 1], data) + [Delivery(client, data)];
        }
      }
      assert clients[..|clients|] == clients;
      assert accepted[..|accepted|] == accepted;
      if |okClients| != |clients| {
        return Err(okClients);
      }
      return Ok(());
    }

    /** The timer and the delayed task: broadcast, then replace the list with the clients kept on `Err`. */
    method Broadcast(data: string, accepted: seq<bool>)
      requires |accepted| == |clients|
      modifies this
      ensures clients == Kept(old(clients), accepted)
      ensures |clients| <= |old(clients)|
      ensures delivered == old(delivered) + Deliveries(clients, data)
    {
      var r := Message(data, accepted);
      if r.Err? {
        clients := r.error;
      } else {
        KeptAll(clients, accepted);
      }
    }
  }

  function Accepted(accepted: seq<bool>): (n: nat)
    ensures n <= |accepted|
  {
    if accepted == [] then 0 else Accepted(accepted[..|accepted| - 1]) + (if accepted[|accepted| - 1] then 1 else 0)
  }

  /** As many clients are kept as sends succeeded; all are kept exactly when every send succeeded. */
  lemma {:induction false} KeptLength(clients: seq<Sender>, accepted: seq<bool>)
    requires |accepted| == |clients|
    ensures |Kept(clients, accepted)| == Accepted(accepted)
    ensures |Kept(clients, accepted)| == |clients| <==> forall k :: 0 <= k < |accepted| ==> accepted[k]
  {
    if clients != [] {
      var n := |clients| - 1;
      KeptLength(clients[..n], accepted[..n]);
      if !accepted[n] {
        assert |Kept(clients, accepted)| < |clients|;
      } else if |Kept(clients, accepted)| != |clients| {
        var k :| 0 <= k < n && !accepted[..n][k];
      }
    }
  }

  /** When every send succeeds, the list is kept whole. */
  lemma {:induction false} KeptAll(clients: seq<Sender>, accepted: seq<bool>)
    requires |accepted| == |clients|
    requires |Kept(clients, accepted)| == |clients|
    ensures Kept(clients, accepted) == clients
  {
    if clients != [] {
      var n := |clients| - 1;
      KeptLength(clients, accepted);
      assert accepted[n];
      KeptLength(clients[..n], accepted[..n]);
      KeptAll(clients[..n], accepted[..n]);
      assert clients == clients[..n] + [clients[n]];
    }
  }

  /** `message` returns `Ok` exactly when every send succeeded, and an `Err` payload is strictly shorter than the list. */
  lemma MessageOutcome(clients: seq<Sender>, accepted: seq<bool>)
    requires |accepted| == |clients|
    ensures (|Kept(clients, accepted)| == |clients|) <==> forall k :: 0 <= k < |accepted| ==> accepted[k]
    ensures (exists k :: 0 <= k < |accepted| && !accepted[k]) ==> |Kept(clients, accepted)| < |clients|
  {
    KeptLength(clients, accepted);
  }

  /** The kept clients are exactly those whose send succeeded. */
  lemma {:induction false} KeptMembers(clients: seq<Sender>, accepted: seq<bool>, x: Sender)
    requires |accepted| == |clients|
    ensures x in Kept(clients, accepted) <==> exists k :: 0 <= k < |clients| && clients[k] == x && accepted[k]
  {
    if clients != [] {
      var n := |clients| - 1;
      KeptMembers(clients[..n], accepted[..n], x);
      if x in Kept(clients[..n], accepted[..n]) {
        var k :| 0 <= k < n && clients[..n][k] == x && accepted[..n][k];
        assert clients[k] == x && accepted[k];
      }
      if exists k :: 0 <= k < |clients| && clients[k] == x && accepted[k] {
        var k :| 0 <= k < |clients| && clients[k] == x && accepted[k];
        if k < n {
          assert clients[..n][k] == x && accepted[..n][k];
        }
      }
    }
  }

  /** Order is kept: the clients kept from a prefix of the list come first. */
  lemma {:induction false} KeptPrefix(clients: seq<Sender>, accepted: seq<bool>, m: nat)
    requires |accepted| == |clients| && m <= |clients|
    ensures Kept(clients[..m], accepted[..m]) <= Kept(clients, accepted)
    decreases |clients| - m
  {
    if m < |clients| {
      var n := |clients| - 1;
      KeptPrefix(clients[..n], accepted[..n], m);
      assert clients[..n][..m] == clients[..m];
      assert accepted[..n][..m] == accepted[..m];
    } else {
      assert clients[..m] == clients;
      assert accepted[..m] == accepted;
    }
  }
}
