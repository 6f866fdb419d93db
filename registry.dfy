/**
 * The global `clients` set of server.py and the operations on it: add after a
 * handshake (server.py:153-154), remove-if-present when a receiver exits
 * (server.py:126-129), clear on shutdown (server.py:162-165), and the
 * fan-out/prune loop written twice, for heartbeats (server.py:51-60) and for
 * alerts (server.py:92-102).
 *
 * Sockets are client ids; `sendall` is replaced by an oracle giving each
 * client's send outcome. Every registry operation in the source runs under
 * `client_lock`, except the receiver's removal, which takes a fresh
 * `threading.Lock()` and so excludes nothing; this model is sequential.
 */
module Registry {

  type ClientId = nat

  /** How `sendall` to one client ends: success, one of the caught transport errors, or any other exception. */
  datatype SendOutcome = Delivered | Recoverable | Unexpected

  /** One `sendall` attempt: to whom, what, and how it ended. */
  datatype Attempt = Attempt(client: ClientId, payload: string, outcome: SendOutcome)

  /** `snapshot` is what `list(clients)` can return: every member once, in some order. */
  predicate Enumerates(snapshot: seq<ClientId>, clients: set<ClientId>) {
    && (forall i, j :: 0 <= i < j < |snapshot| ==> snapshot[i] != snapshot[j])
    && (forall c :: c in snapshot ==> c in clients)
    && (forall c :: c in clients ==> c in snapshot)
  }

  /** The clients whose send failed recoverably, in snapshot order: the ones removed and closed. */
  function Pruned(snapshot: seq<ClientId>, outcome: ClientId -> SendOutcome): seq<ClientId>
    decreases |snapshot|
  {
    if snapshot == [] then []
    else
      var last := snapshot[|snapshot| - 1];
      Pruned(snapshot[..|snapshot| - 1], outcome) + (if outcome(last) == Recoverable then [last] else [])
  }

  /** A client is pruned exactly when it is in the snapshot and its send failed recoverably. */
  lemma {:induction false} PrunedMembers(snapshot: seq<ClientId>, outcome: ClientId -> SendOutcome)
    ensures |Pruned(snapshot, outcome)| <= |snapshot|
    ensures forall c :: c in Pruned(snapshot, outcome) <==> c in snapshot && outcome(c) == Recoverable
    decreases |snapshot|
  {
    if snapshot != [] {
      var init := snapshot[..|snapshot| - 1];
      PrunedMembers(init, outcome);
      assert snapshot == init + [snapshot[|snapshot| - 1]];
    }
  }

  /**
   * The result of one fan-out pass of `payload` over the registry `before`:
   * every client of the snapshot is attempted exactly once, in snapshot order;
   * exactly the recoverable failures are removed and closed, in that order;
   * `Delivered` and `Unexpected` clients stay; nothing is added.
   * So the clients closed are exactly the ones no longer registered.
   */
  predicate FanOut(before: set<ClientId>, after: set<ClientId>, payload: string, outcome: ClientId -> SendOutcome,
                   snapshot: seq<ClientId>, attempts: seq<Attempt>, closed: seq<ClientId>): (ok: bool)
    ensures ok ==> after <= before && forall c :: c in closed <==> c in before && c !in after
  {
    PrunedMembers(snapshot, outcome);
    && Enumerates(snapshot, before)
    && |attempts| == |snapshot|
    && (forall k :: 0 <= k < |snapshot| ==> attempts[k] == Attempt(snapshot[k], payload, outcome(snapshot[k])))
    && closed == Pruned(snapshot, outcome)
    && after == set c | c in before && outcome(c) != Recoverable
  }

  /**
   * Prune-on-failure: a client pruned by one pass is not in the next pass's
   * snapshot, so no later broadcast attempts delivery to it.
   */
  lemma PrunedNeverRetried(before: set<ClientId>, after: set<ClientId>, payload: string, outcome: ClientId -> SendOutcome,
                           snapshot: seq<ClientId>, attempts: seq<Attempt>, closed: seq<ClientId>, next: seq<ClientId>)
    requires FanOut(before, after, payload, outcome, snapshot, attempts, closed)
    requires Enumerates(next, after)
    ensures forall c :: c in closed ==> c !in next
    ensures forall c :: c in before && c !in closed ==> c in next
  {
    PrunedMembers(snapshot, outcome);
  }

  class ClientRegistry {
    var clients: set<ClientId>

    constructor ()
      ensures clients == {}
    {
      clients := {};
    }

    /** `list(clients)`: a copy of the membership in some iteration order. */
    method Snapshot() returns (s: seq<ClientId>)
      ensures Enumerates(s, clients)
    {
      s := [];
      var rest := clients;
      while rest != {}
        invariant rest <= clients
        invariant forall i, j :: 0 <= i < j < |s| ==> s[i] != s[j]
        invariant forall c :: c in s <==> c in clients && c !in rest
        decreases |rest|
      {
        var c :| c in rest;
        s := s + [c];
        rest := rest - {c};
      }
    }

    /** `clients.add(secure_socket)`. */
    method Add(c: ClientId)
      modifies this
      ensures clients == old(clients) + {c}
    {
      clients := clients + {c};
    }

    /** The receiver's exit: remove if present, so a second removal (or one after pruning) is a no-op. */
    method Discard(c: ClientId)
      modifies this
      ensures clients == old(clients) - {c}
      ensures c !in old(clients) ==> clients == old(clients)
    {
      if c in clients {
        clients := clients - {c};
      }
    }

    /**
     * The fan-out/prune loop: for each client of `list(clients)`, `sendall(payload)`;
     * on a recoverable transport error remove and close the client, on any
     * other error only log it.
     */
    method Broadcast(payload: string, outcome: ClientId -> SendOutcome)
      returns (snapshot: seq<ClientId>, attempts: seq<Attempt>, closed: seq<ClientId>)
      modifies this
      ensures FanOut(old(clients), clients, payload, outcome, snapshot, attempts, closed)
    {
      snapshot := Snapshot();
      attempts, closed := [], [];
      ghost var before := clients;
      var i := 0;
      while i < |snapshot|
        invariant 0 <= i <= |snapshot|
        invariant |attempts| == i
        invariant forall k :: 0 <= k < i ==> attempts[k] == Attempt(snapshot[k], payload, outcome(snapshot[k]))
        invariant closed == Pruned(snapshot[..i], outcome)
        invariant forall c :: c in clients <==> c in before && !(c in snapshot[..i] && outcome(c) == Recoverable)
      {
        var c := snapshot[i];
        var o := outcome(c);
        attempts := attempts + [Attempt(c, payload, o)];
        assert snapshot[..i + 1] == snapshot[..i] + [c];
        if o == Recoverable {
          // In a sequential pass clients.remove never raises: c is still a member.
          assert c !in snapshot[..i];
          assert c in clients;
          clients := clients - {c};
          closed := closed + [c];
        }
        i := i + 1;
      }
      assert snapshot[..i] == snapshot;
    }

    /** Shutdown: close and remove every client of `list(clients)`. */
    method CloseAll() returns (closed: seq<ClientId>)
      modifies this
      ensures Enumerates(closed, old(clients))
      ensures clients == {}
    {
      var snapshot := Snapshot();
      closed := [];
      var i := 0;
      while i < |snapshot|
        invariant 0 <= i <= |snapshot|
        invariant closed == snapshot[..i]
        invariant forall c :: c in clients <==> c in snapshot[i..]
      {
        var c := snapshot[i];
        closed := closed + [c];
        assert c in clients;
        clients := clients - {c};
        assert forall d :: d in snapshot[i + 1..] ==> d in snapshot[i..] && d != c;
        i := i + 1;
      }
      assert snapshot[..i] == snapshot;
    }
  }
}
