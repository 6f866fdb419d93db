/**
 * The subscriber's connection loop of `start_client` (win_client.py:83-138):
 * connect, then classify each received message as a heartbeat or an alert,
 * until the server closes, the 60 s receive timeout fires or an error occurs.
 * Toasts and speech are recorded as the notifications and utterances the
 * client produces; the tray icon is left out.
 */
module Subscriber {
  import opened Text
  import opened Messages

  /** The word whose presence in an alert makes the client speak. */
  const KEYWORD: string := "LoggedIn"

  /** What the client says for such an alert. */
  const SPEAK_ALERT: string := "New User logged in"

  /** The title of every notification. */
  const NOTIFICATION_TITLE: string := "Login Alert"

  /**
   * One `recv(1024)`: some data (`Data("")` is the same as `Empty`, a read of
   * nothing because the server closed), a `socket.timeout`, or one of the
   * errors the outer handler catches (`ssl.SSLError`, `OSError`, ...).
   */
  datatype Event = Data(payload: string) | Empty | Timeout | Failure

  /** How one received message is read after `strip()`. */
  datatype Message = KeepAlive | Alert(text: string)

  /**
   * Exact comparison with the heartbeat token after stripping: anything else,
   * however close, is an alert carrying the stripped, unpadded text.
   */
  function Classify(data: string): (m: Message)
    ensures m == KeepAlive <==> Strip(data) == KEEP_ALIVE
    ensures m.Alert? ==> m.text == Strip(data) && Unpadded(m.text) && m.text != KEEP_ALIVE
  {
    var m := Strip(data);
    if m == KEEP_ALIVE then KeepAlive else Alert(m)
  }

  datatype Notification = Notification(title: string, body: string)

  /** What the client has shown so far: the `server_connected` flag, the toasts and the utterances. */
  datatype ClientView = ClientView(connected: bool, notifications: seq<Notification>, spoken: seq<string>)

  /**
   * The handling of one non-empty message: a heartbeat sets the flag; anything
   * else adds one notification and at most one utterance and leaves the flag.
   */
  function OnData(v: ClientView, data: string): (w: ClientView)
    ensures w.connected == (v.connected || Classify(data) == KeepAlive)
    ensures v.notifications <= w.notifications && |w.notifications| == |v.notifications| + (if Classify(data).Alert? then 1 else 0)
    ensures v.spoken <= w.spoken && |w.spoken| - |v.spoken| <= |w.notifications| - |v.notifications|
  {
    match Classify(data)
    case KeepAlive => v.(connected := true)
    case Alert(m) =>
      ClientView(v.connected,
                 v.notifications + [Notification(NOTIFICATION_TITLE, m)],
                 v.spoken + (if Contains(KEYWORD, m) then [SPEAK_ALERT] else []))
  }

  /** The events that end the receive loop: everything except non-empty data. */
  predicate EndsSession(e: Event) {
    !(e.Data? && e.payload != [])
  }

  /** A session's outcome: what the client shows, and how many events it took (including the one that ended it). */
  datatype SessionResult = SessionResult(view: ClientView, consumed: nat)

  /** The inner receive loop over the events of one connection. */
  function Receive(v: ClientView, events: seq<Event>): (r: SessionResult)
    ensures r.consumed <= |events|
    ensures v.notifications <= r.view.notifications && v.spoken <= r.view.spoken
    decreases |events|
  {
    if events == [] then SessionResult(v, 0)
    else if EndsSession(events[0]) then
      SessionResult(if events[0].Failure? then v.(connected := false) else v, 1)
    else
      var r := Receive(OnData(v, events[0].payload), events[1..]);
      SessionResult(r.view, r.consumed + 1)
  }

  /**
   * One pass of the outer loop: a failed connect clears the flag and receives
   * nothing; after a successful connect the session ends connected exactly
   * when the event that ended it was not a connection error.
   */
  function Session(v: ClientView, connectOk: bool, events: seq<Event>): (r: SessionResult)
    ensures !connectOk ==> r == SessionResult(v.(connected := false), 0)
    ensures r.consumed <= |events|
    ensures connectOk ==> (r.view.connected <==> !(r.consumed > 0 && events[r.consumed - 1].Failure?))
    ensures v.notifications <= r.view.notifications && v.spoken <= r.view.spoken
  {
    if connectOk then
      ReceiveKeepsConnected(v.(connected := true), events);
      Receive(v.(connected := true), events)
    else SessionResult(v.(connected := false), 0)
  }

  /** Reference definition: the notifications for a sequence of events, one per non-empty non-heartbeat message. */
  function Notices(events: seq<Event>): seq<Notification>
    decreases |events|
  {
    if events == [] then []
    else
      var e := events[0];
      (if !EndsSession(e) && Strip(e.payload) != KEEP_ALIVE then [Notification(NOTIFICATION_TITLE, Strip(e.payload))] else [])
      + Notices(events[1..])
  }

  /** Reference definition: one utterance per non-heartbeat message that contains the keyword. */
  function Speeches(events: seq<Event>): seq<string>
    decreases |events|
  {
    if events == [] then []
    else
      var e := events[0];
      (if !EndsSession(e) && Strip(e.payload) != KEEP_ALIVE && Contains(KEYWORD, Strip(e.payload)) then [SPEAK_ALERT] else [])
      + Speeches(events[1..])
  }

  /** Handling one message adds its own notification and utterance, if any, after the earlier ones. */
  lemma OnDataShows(v: ClientView, e: Event, rest: seq<Event>)
    requires !EndsSession(e)
    ensures OnData(v, e.payload).notifications + Notices(rest) == v.notifications + Notices([e] + rest)
    ensures OnData(v, e.payload).spoken + Speeches(rest) == v.spoken + Speeches([e] + rest)
  {
    var es := [e] + rest;
    assert es[0] == e && es[1..] == rest;
    var m := Strip(e.payload);
    if m == KEEP_ALIVE {
      assert Notices(es) == Notices(rest);
      assert Speeches(es) == Speeches(rest);
    } else {
      assert Notices(es) == [Notification(NOTIFICATION_TITLE, m)] + Notices(rest);
      assert Speeches(es) == (if Contains(KEYWORD, m) then [SPEAK_ALERT] else []) + Speeches(rest);
    }
  }

  /** The receive loop shows exactly the notifications and utterances of the events it processed. */
  lemma {:induction false} ReceiveShows(v: ClientView, events: seq<Event>, r: SessionResult)
    requires r == Receive(v, events)
    ensures r.view.notifications == v.notifications + Notices(events[..r.consumed])
    ensures r.view.spoken == v.spoken + Speeches(events[..r.consumed])
    decreases |events|
  {
    if events == [] {
      assert events[..0] == [];
    } else if EndsSession(events[0]) {
      assert Notices(events[..1]) == [] && Speeches(events[..1]) == [] by {
        assert events[..1] == [events[0]] && events[..1][1..] == [];
      }
    } else {
      var w := OnData(v, events[0].payload);
      var rt := Receive(w, events[1..]);
      ReceiveShows(w, events[1..], rt);
      ShowsAfterFirst(v, events, rt, r);
    }
  }

  /** The step of `ReceiveShows`: what the rest of the session shows follows what the first message shows. */
  lemma ShowsAfterFirst(v: ClientView, events: seq<Event>, rt: SessionResult, r: SessionResult)
    requires events != [] && !EndsSession(events[0]) && rt.consumed <= |events| - 1
    requires var w := OnData(v, events[0].payload);
             && rt.view.notifications == w.notifications + Notices(events[1..][..rt.consumed])
             && rt.view.spoken == w.spoken + Speeches(events[1..][..rt.consumed])
    requires r == SessionResult(rt.view, rt.consumed + 1)
    ensures r.view.notifications == v.notifications + Notices(events[..r.consumed])
    ensures r.view.spoken == v.spoken + Speeches(events[..r.consumed])
  {
    var rest := events[1..][..rt.consumed];
    assert events[..r.consumed] == [events[0]] + rest;
    OnDataShows(v, events[0], rest);
  }

  /** The receive loop ends at the first ending event; nothing after it is processed. */
  lemma {:induction false} ReceiveIgnoresLater(v: ClientView, events: seq<Event>, k: nat)
    requires k < |events| && EndsSession(events[k])
    requires forall j :: 0 <= j < k ==> !EndsSession(events[j])
    ensures Receive(v, events) == Receive(v, events[..k + 1])
    ensures Receive(v, events).consumed == k + 1
    decreases k
  {
    if k > 0 {
      assert !EndsSession(events[0]);
      var p := events[..k + 1];
      assert p[0] == events[0] && p[1..] == events[1..][..k];
      ReceiveIgnoresLater(OnData(v, events[0].payload), events[1..], k - 1);
    }
  }

  /** Without an ending event every event is processed. */
  lemma {:induction false} ReceiveProcessesAll(v: ClientView, events: seq<Event>)
    requires forall j :: 0 <= j < |events| ==> !EndsSession(events[j])
    ensures Receive(v, events).consumed == |events|
    decreases |events|
  {
    if events != [] {
      ReceiveProcessesAll(OnData(v, events[0].payload), events[1..]);
    }
  }

  /** Once connected, the flag stays set until an error ends the session; a timeout or a close does not clear it. */
  lemma {:induction false} ReceiveKeepsConnected(v: ClientView, events: seq<Event>)
    requires v.connected
    ensures var r := Receive(v, events);
            r.view.connected <==> !(r.consumed > 0 && events[r.consumed - 1].Failure?)
    decreases |events|
  {
    if events != [] && !EndsSession(events[0]) {
      var w := OnData(v, events[0].payload);
      ReceiveKeepsConnected(w, events[1..]);
      var r := Receive(w, events[1..]);
      if r.consumed > 0 {
        assert events[r.consumed] == events[1..][r.consumed - 1];
      }
    }
  }

  /** Heartbeats, however padded with whitespace, produce no notification and no speech. */
  lemma {:induction false} HeartbeatsShowNothing(events: seq<Event>)
    requires forall j :: 0 <= j < |events| ==> events[j].Data? && Strip(events[j].payload) == KEEP_ALIVE
    ensures Notices(events) == [] && Speeches(events) == []
    decreases |events|
  {
    if events != [] {
      HeartbeatsShowNothing(events[1..]);
    }
  }

  /** The token with any whitespace around it is a heartbeat. */
  lemma PaddedKeepAlive(left: string, right: string)
    requires AllWhitespace(left) && AllWhitespace(right)
    ensures Classify(left + KEEP_ALIVE + right) == KeepAlive
  {
    StripPadded(left, KEEP_ALIVE, right);
  }

  /** `n` copies of `s` back to back, as heartbeats coalesce in one `recv`. */
  function Repeat(s: string, n: nat): string
    decreases n
  {
    if n == 0 then [] else s + Repeat(s, n - 1)
  }

  /** n heartbeats, n >= 1, are 10 n characters that start with 'k' and end with 'e'. */
  lemma {:induction false} RepeatKeepAlive(n: nat)
    requires n >= 1
    ensures var r := Repeat(KEEP_ALIVE, n); |r| == 10 * n && r[0] == 'k' && r[|r| - 1] == 'e'
    decreases n
  {
    if n > 1 {
      RepeatKeepAlive(n - 1);
    }
  }

  /**
   * Classification is by exact equality: two or more heartbeats that arrive in
   * one read are not recognised and are shown as an alert.
   */
  lemma CoalescedHeartbeatsAreShown(n: nat)
    requires n >= 2
    ensures Classify(Repeat(KEEP_ALIVE, n)) == Alert(Repeat(KEEP_ALIVE, n))
  {
    RepeatKeepAlive(n);
    StripUnpadded(Repeat(KEEP_ALIVE, n));
  }

  /** A heartbeat split across two reads, wherever it is split, is shown as two alerts. */
  lemma SplitHeartbeatIsShown(i: nat)
    requires 0 < i < |KEEP_ALIVE|
    ensures Classify(KEEP_ALIVE[..i]) == Alert(KEEP_ALIVE[..i]) && Classify(KEEP_ALIVE[i..]) == Alert(KEEP_ALIVE[i..])
  {
    StripUnpadded(KEEP_ALIVE[..i]);
    StripUnpadded(KEEP_ALIVE[i..]);
  }

  /** One connection attempt and the events received on it. */
  datatype Connection = Connection(connectOk: bool, events: seq<Event>)

  /**
   * The outer `while True` loop over successive connection attempts: what was
   * shown and said is only ever added to, and after a failed last attempt the
   * client is disconnected.
   */
  function Sessions(v: ClientView, attempts: seq<Connection>): (w: ClientView)
    ensures v.notifications <= w.notifications && v.spoken <= w.spoken
    ensures attempts != [] && !attempts[|attempts| - 1].connectOk ==> !w.connected
    decreases |attempts|
  {
    if attempts == [] then v
    else Sessions(Session(v, attempts[0].connectOk, attempts[0].events).view, attempts[1..])
  }

  /** The client's global state: `server_connected`, and what it has shown and said. */
  class Client {
    var serverConnected: bool
    var notifications: seq<Notification>
    var spoken: seq<string>

    function Current(): ClientView
      reads this
    {
      ClientView(serverConnected, notifications, spoken)
    }

    constructor ()
      ensures Current() == ClientView(false, [], [])
    {
      serverConnected, notifications, spoken := false, [], [];
    }

    /** One pass of the outer loop of `start_client`: connect, then receive until the session ends. */
    method RunSession(connectOk: bool, events: seq<Event>) returns (consumed: nat)
      modifies this
      ensures SessionResult(Current(), consumed) == Session(old(Current()), connectOk, events)
    {
      if !connectOk {
        serverConnected := false;   // "Connection error", retried after 5 s
        return 0;
      }
      serverConnected := true;
      consumed := 0;
      var done := false;
      assert events[0..] == events;
      while consumed < |events| && !done
        invariant consumed <= |events|
        invariant !done ==> var r := Receive(Current(), events[consumed..]);
                            Session(old(Current()), connectOk, events) == SessionResult(r.view, consumed + r.consumed)
        invariant done ==> Session(old(Current()), connectOk, events) == SessionResult(Current(), consumed)
        decreases |events| - consumed, !done
      {
        var e := events[consumed];
        assert events[consumed..][0] == e && events[consumed..][1..] == events[consumed + 1..];
        ghost var before := Current();
        consumed := consumed + 1;
        if EndsSession(e) {
          if e.Failure? {
            serverConnected := false;
          }
          done := true;
        } else {
          match Classify(e.payload) {
            case KeepAlive =>
              serverConnected := true;
            case Alert(m) =>
              notifications := notifications + [Notification(NOTIFICATION_TITLE, m)];
              if Contains(KEYWORD, m) {
                spoken := spoken + [SPEAK_ALERT];
              }
          }
          assert Current() == OnData(before, e.payload);
        }
      }
    }

    /** The outer loop of `start_client` over successive connection attempts. */
    method StartClient(attempts: seq<Connection>)
      modifies this
      ensures Current() == Sessions(old(Current()), attempts)
    {
      var i := 0;
      assert attempts[0..] == attempts;
      while i < |attempts|
        invariant i <= |attempts|
        invariant Sessions(old(Current()), attempts) == Sessions(Current(), attempts[i..])
      {
        assert attempts[i..][0] == attempts[i] && attempts[i..][1..] == attempts[i + 1..];
        var _ := RunSession(attempts[i].connectOk, attempts[i].events);
        i := i + 1;
      }
    }
  }
}
