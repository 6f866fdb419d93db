/**
 * The server's loops over the registry (server.py): one heartbeat round of
 * `send_keep_alive`, one tick of the log monitor with its alert fan-out, the
 * per-connection receiver `handle_client`, and the accept loop of
 * `start_server` with its shutdown. Threads, sleeps and the TLS library are
 * replaced by explicit inputs.
 */
module Server {
  import opened Wrappers
  import opened Messages
  import opened Registry
  import opened Tailer

  /** One round of `send_keep_alive`: fan the heartbeat token out to every client (the 2 s sleep is left out). */
  method SendKeepAlive(reg: ClientRegistry, outcome: ClientId -> SendOutcome)
    returns (snapshot: seq<ClientId>, attempts: seq<Attempt>, closed: seq<ClientId>)
    modifies reg
    ensures FanOut(old(reg.clients), reg.clients, KEEP_ALIVE, outcome, snapshot, attempts, closed)
  {
    snapshot, attempts, closed := reg.Broadcast(KEEP_ALIVE, outcome);
  }

  /**
   * One tick of `watch_log_file_by_inode` including its alert branch: poll the
   * file and, when the line read contains the keyword, fan the alert out.
   */
  method MonitorTick(w: Watcher, reg: ClientRegistry, file: Option<FileStat>, openOk: bool, outcome: ClientId -> SendOutcome)
    returns (line: Option<Line>, alert: Option<string>, snapshot: seq<ClientId>, attempts: seq<Attempt>, closed: seq<ClientId>)
    requires Consistent(w.State())
    modifies w, reg
    ensures var t := Step(old(w.State()), w.keyword, file, openOk);
            w.State() == t.state && line == t.line && alert == t.alert
    ensures alert.None? ==> snapshot == [] && attempts == [] && closed == [] && reg.clients == old(reg.clients)
    ensures alert.Some? ==> FanOut(old(reg.clients), reg.clients, alert.value, outcome, snapshot, attempts, closed)
  {
    line, alert := w.Poll(file, openOk);
    snapshot, attempts, closed := [], [], [];
    if alert.Some? {
      snapshot, attempts, closed := reg.Broadcast(alert.value, outcome);
    }
  }

  /** What one `recv(1024)` in `handle_client` yields: some bytes (the empty string when the peer closed), or an exception. */
  datatype Inbound = Received(data: string) | RecvFailed

  /** The events that end the receive loop: a close by the peer or any exception. */
  predicate EndsReceiver(e: Inbound) {
    e.RecvFailed? || e.data == []
  }

  /**
   * `handle_client`: log inbound data until the peer closes or an error occurs,
   * then remove the client if it is still registered and close it. `exitAt` is
   * the index of the event that ended the loop, or `|inbound|` if it is still
   * running; `closes` says whether the `finally` clause closed the socket, which
   * it does on every exit, also when a fan-out pass already removed and closed it.
   */
  method HandleClient(reg: ClientRegistry, c: ClientId, inbound: seq<Inbound>) returns (exitAt: nat, closes: bool)
    modifies reg
    ensures closes <==> exitAt < |inbound|
    ensures exitAt <= |inbound|
    ensures forall k :: 0 <= k < exitAt ==> !EndsReceiver(inbound[k])
    ensures exitAt < |inbound| ==> EndsReceiver(inbound[exitAt])
    ensures reg.clients == if exitAt < |inbound| then old(reg.clients) - {c} else old(reg.clients)
  {
    exitAt := 0;
    while exitAt < |inbound| && !EndsReceiver(inbound[exitAt])
      invariant exitAt <= |inbound|
      invariant forall k :: 0 <= k < exitAt ==> !EndsReceiver(inbound[k])
    {
      exitAt := exitAt + 1;   // "Received data from ...": logged only
    }
    closes := false;
    if exitAt < |inbound| {
      reg.Discard(c);
      closes := true;
    }
  }

  /** How `context.wrap_socket` ends: a TLS connection, an `ssl.SSLError`, or any other exception. */
  datatype Handshake = Established | SslFailure | OtherFailure

  /** What the accept loop sees: an accepted connection and its handshake, or `KeyboardInterrupt`. */
  datatype ServerEvent = Incoming(client: ClientId, handshake: Handshake) | Interrupt

  /** Why the accept loop ended: the operator's interrupt, or an exception nothing in `start_server` catches. */
  datatype Stop = Interrupted | Crashed

  /** An event that ends the accept loop; only `ssl.SSLError` is caught around the handshake. */
  predicate EndsServer(e: ServerEvent) {
    e.Interrupt? || e.handshake == OtherFailure
  }

  /** The accept loop's effect: registered clients, refused clients (raw socket closed), events handled, why it stopped. */
  datatype ServeResult = ServeResult(registered: seq<ClientId>, refused: seq<ClientId>, handled: nat, stop: Option<Stop>)

  /** The accept loop of `start_server` over a sequence of events. */
  function AcceptLoop(events: seq<ServerEvent>): (r: ServeResult)
    ensures r.handled <= |events|
    decreases |events|
  {
    if events == [] then ServeResult([], [], 0, None)
    else match events[0]
      case Interrupt => ServeResult([], [], 1, Some(Interrupted))
      case Incoming(c, hs) =>
        if hs == OtherFailure then ServeResult([], [], 1, Some(Crashed))
        else
          var r := AcceptLoop(events[1..]);
          if hs == Established then ServeResult([c] + r.registered, r.refused, r.handled + 1, r.stop)
          else ServeResult(r.registered, [c] + r.refused, r.handled + 1, r.stop)
  }

  /**
   * The accept loop handles events up to and including the first one that ends
   * it; it registers exactly the connections whose handshake succeeded and
   * refuses exactly those that failed with `ssl.SSLError`.
   */
  lemma {:induction false} AcceptLoopHandles(events: seq<ServerEvent>)
    ensures var r := AcceptLoop(events);
            && (forall k :: 0 <= k < r.handled - 1 ==> !EndsServer(events[k]))
            && (r.stop.None? <==> r.handled == |events| && forall k :: 0 <= k < |events| ==> !EndsServer(events[k]))
            && (r.stop.Some? ==> r.handled > 0 && EndsServer(events[r.handled - 1])
                                 && (r.stop == Some(Crashed) <==> events[r.handled - 1].Incoming?))
            && (forall c :: c in r.registered <==> exists k :: 0 <= k < r.handled && events[k] == Incoming(c, Established))
            && (forall c :: c in r.refused <==> exists k :: 0 <= k < r.handled && events[k] == Incoming(c, SslFailure))
    decreases |events|
  {
    if events != [] && !EndsServer(events[0]) {
      var tail := events[1..];
      AcceptLoopHandles(tail);
      var r := AcceptLoop(events);
      var rt := AcceptLoop(tail);
      ConsClients(events, Established, r.registered, rt.registered, r.handled);
      ConsClients(events, SslFailure, r.refused, rt.refused, r.handled);
    }
  }

  /** The clients of one handshake outcome among the first `n` events, from those among the `n - 1` after the first. */
  lemma ConsClients(events: seq<ServerEvent>, hs: Handshake, cs: seq<ClientId>, tailCs: seq<ClientId>, n: nat)
    requires events != [] && events[0].Incoming? && 1 <= n <= |events|
    requires cs == (if events[0].handshake == hs then [events[0].client] else []) + tailCs
    requires forall c :: c in tailCs <==> exists k :: 0 <= k < n - 1 && events[1..][k] == Incoming(c, hs)
    ensures forall c :: c in cs <==> exists k :: 0 <= k < n && events[k] == Incoming(c, hs)
  {
    var tail := events[1..];
    forall c | c in cs ensures exists k :: 0 <= k < n && events[k] == Incoming(c, hs) {
      if c !in tailCs {
        assert events[0] == Incoming(c, hs);
      } else {
        var k :| 0 <= k < n - 1 && tail[k] == Incoming(c, hs);
        assert events[k + 1] == Incoming(c, hs);
      }
    }
    forall c, k | 0 <= k < n && events[k] == Incoming(c, hs) ensures c in cs {
      if k > 0 { assert tail[k - 1] == events[k]; }
    }
  }

  /**
   * A handshake that fails with anything other than `ssl.SSLError` (a reset
   * during the handshake raises `ConnectionResetError`) ends the accept loop;
   * later connections are never accepted.
   */
  lemma HandshakeResetStopsServer(events: seq<ServerEvent>, k: nat)
    requires k < |events| && events[k].Incoming? && events[k].handshake == OtherFailure
    requires forall j :: 0 <= j < k ==> !EndsServer(events[j])
    ensures var r := AcceptLoop(events);
            && r.handled == k + 1 && r.stop == Some(Crashed)
            && (forall c :: c in r.registered ==> exists j :: 0 <= j < k && events[j] == Incoming(c, Established))
  {
    AcceptLoopHandles(events);
    var r := AcceptLoop(events);
    assert EndsServer(events[k]);
    if r.stop.None? {
      assert false;
    }
    if r.handled - 1 < k {
      assert false;
    }
    if r.handled - 1 > k {
      assert false;
    }
    forall c | c in r.registered ensures exists j :: 0 <= j < k && events[j] == Incoming(c, Established) {
      var j :| 0 <= j < r.handled && events[j] == Incoming(c, Established);
      assert j != k;
    }
  }

  /** The prefix of a run of the accept loop already done, in front of the rest. */
  function Prepend(registered: seq<ClientId>, refused: seq<ClientId>, handled: nat, r: ServeResult): ServeResult {
    ServeResult(registered + r.registered, refused + r.refused, handled + r.handled, r.stop)
  }

  /** One event of the accept loop, seen from the prefix already handled. */
  lemma AcceptOne(registered: seq<ClientId>, refused: seq<ClientId>, i: nat, events: seq<ServerEvent>)
    requires i < |events|
    ensures var p := Prepend(registered, refused, i, AcceptLoop(events[i..]));
            match events[i]
            case Interrupt => p == ServeResult(registered, refused, i + 1, Some(Interrupted))
            case Incoming(c, hs) =>
              if hs == OtherFailure then p == ServeResult(registered, refused, i + 1, Some(Crashed))
              else if hs == Established then p == Prepend(registered + [c], refused, i + 1, AcceptLoop(events[i + 1..]))
              else p == Prepend(registered, refused + [c], i + 1, AcceptLoop(events[i + 1..]))
  {
    assert events[i..][1..] == events[i + 1..] && events[i..][0] == events[i];
    var r := AcceptLoop(events[i + 1..]);
    assert registered + [] == registered && refused + [] == refused;
    match events[i] {
      case Interrupt =>
      case Incoming(c, hs) =>
        assert registered + ([c] + r.registered) == registered + [c] + r.registered;
        assert refused + ([c] + r.refused) == refused + [c] + r.refused;
    }
  }

  /** The clients of a sequence with one more appended. */
  lemma ElementsAppend(xs: seq<ClientId>, c: ClientId)
    ensures (set x | x in xs + [c]) == (set x | x in xs) + {c}
  {
  }

  /**
   * `start_server` from the first `accept()` on: register each connection whose
   * handshake succeeds, close the raw socket on `ssl.SSLError`, and when the
   * loop ends for any reason close and remove every client (the `finally`).
   */
  method Serve(reg: ClientRegistry, events: seq<ServerEvent>) returns (r: ServeResult, shutdown: seq<ClientId>)
    modifies reg
    ensures r == AcceptLoop(events)
    ensures r.stop.Some? ==> reg.clients == {} && Enumerates(shutdown, old(reg.clients) + set c | c in r.registered)
    ensures r.stop.None? ==> reg.clients == old(reg.clients) + (set c | c in r.registered) && shutdown == []
  {
    var registered, refused := [], [];
    var i := 0;
    var stop: Option<Stop> := None;
    assert events[0..] == events;
    while i < |events| && stop.None?
      invariant 0 <= i <= |events|
      invariant stop.None? ==> AcceptLoop(events) == Prepend(registered, refused, i, AcceptLoop(events[i..]))
      invariant stop.Some? ==> AcceptLoop(events) == ServeResult(registered, refused, i, stop)
      invariant reg.clients == old(reg.clients) + set c | c in registered
      decreases |events| - i, stop.None?
    {
      AcceptOne(registered, refused, i, events);
      match events[i] {
        case Interrupt =>
          stop := Some(Interrupted);
        case Incoming(c, hs) =>
          if hs == Established {
            reg.Add(c);                       // then a receiver thread is started for it
            ElementsAppend(registered, c);
            registered := registered + [c];
          } else if hs == SslFailure {
            refused := refused + [c];         // the raw socket is closed
          } else {
            stop := Some(Crashed);            // the exception leaves the loop
          }
      }
      i := i + 1;
    }
    r := ServeResult(registered, refused, i, stop);
    shutdown := [];
    if stop.Some? {
      shutdown := reg.CloseAll();
    }
  }
}
