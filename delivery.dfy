/**
 * End-to-end facts that connect the server's payloads (server.py) with how
 * the subscriber reads them (win_client.py), and whole runs of the tailer on
 * concrete rotation histories.
 */
module Delivery {
  import opened Wrappers
  import opened Text
  import opened Messages
  import opened Tailer
  import opened Subscriber

  /** The heartbeat the server sends is recognised as one: it only sets the connected flag. */
  lemma HeartbeatIsSilent(v: ClientView)
    ensures OnData(v, KEEP_ALIVE) == v.(connected := true)
  {
    StripUnpadded(KEEP_ALIVE);
  }

  /** A line containing a non-empty, unpadded keyword is not blank once stripped. */
  lemma MatchedLineNotBlank(keyword: string, line: string)
    requires keyword != [] && Unpadded(keyword) && Contains(keyword, line)
    ensures Contains(keyword, Strip(line)) && Strip(line) != []
  {
    ContainsStrip(keyword, line);
    ContainsIff(keyword, Strip(line));
  }

  /**
   * Whatever keyword matched it, an alert for a line that is not blank reaches
   * the subscriber as one notification whose body is the whole payload, and
   * never as a heartbeat; the flag is left as it was.
   */
  lemma AlertShownVerbatim(line: string, v: ClientView)
    requires Strip(line) != []
    ensures var w := OnData(v, AlertPayload(line));
            && w.connected == v.connected
            && w.notifications == v.notifications + [Notification(NOTIFICATION_TITLE, AlertPayload(line))]
            && (w.spoken == v.spoken + [SPEAK_ALERT] <==> Contains(KEYWORD, AlertPayload(line)))
            && (w.spoken == v.spoken <==> !Contains(KEYWORD, AlertPayload(line)))
  {
    AlertPayloadUnpadded(line);
    StripUnpadded(AlertPayload(line));
    AlertIsNotKeepAlive(line);
  }

  /**
   * A keyword of whitespace can match a blank line: `" "` occurs in `" \n"`,
   * and the alert for it is the bare prefix.
   */
  lemma WhitespaceKeywordMatchesBlankLine()
    ensures AlertFor(" ", Some(" \n")) == Some(ALERT_PREFIX)
  {
    var blank: Line := " \n";
    assert blank[0..1] == " ";
    ContainsAt(" ", blank, 0);
    StripPadded([], [], blank);
    assert [] + [] + blank == blank;
    assert Strip(blank) == [];
    assert AlertPayload(blank) == ALERT_PREFIX;
  }

  /**
   * The alert for a blank line is the bare prefix, and the subscriber's strip()
   * cuts its trailing space: the notification does not carry the payload as
   * sent, and nothing is spoken.
   */
  lemma BlankLineAlertTrimmed(line: string, v: ClientView)
    requires Strip(line) == []
    ensures OnData(v, AlertPayload(line))
            == ClientView(v.connected, v.notifications + [Notification(NOTIFICATION_TITLE, "Keyword alert:")], v.spoken)
  {
    assert AlertPayload(line) == ALERT_PREFIX;
    StripPadded([], "Keyword alert:", " ");
    assert [] + "Keyword alert:" + " " == ALERT_PREFIX;
    BarePrefixNotSpoken();
  }

  /** The bare alert prefix does not contain the subscriber's keyword: it has no 'L'. */
  lemma BarePrefixNotSpoken()
    ensures !Contains(KEYWORD, "Keyword alert:")
  {
    var h := "Keyword alert:";
    assert forall k :: 0 <= k < |h| ==> h[k] != 'L';
    forall i: int ensures !OccursAt(KEYWORD, h, i) {
      if 0 <= i <= |h| - |KEYWORD| {
        assert h[i..i + |KEYWORD|][0] == h[i];
      }
    }
    ContainsIff(KEYWORD, h);
  }

  /** With the default keyword on both sides, every alert the server sends is shown and spoken once. */
  lemma DefaultAlertShownAndSpoken(line: string, v: ClientView)
    requires Contains(DEFAULT_KEYWORD, line)
    ensures OnData(v, AlertPayload(line))
            == ClientView(v.connected,
                          v.notifications + [Notification(NOTIFICATION_TITLE, AlertPayload(line))],
                          v.spoken + [SPEAK_ALERT])
  {
    MatchedLineNotBlank(DEFAULT_KEYWORD, line);
    AlertShownVerbatim(line, v);
    ContainsAfterPrefix(KEYWORD, ALERT_PREFIX, Strip(line));
  }

  /** A poll on which `open()` succeeds. */
  function Seen(inode: Inode, lines: seq<Line>): Observation {
    Observation(Some(FileStat(inode, lines)), true)
  }

  /** A login line as the web server writes it: the user, the keyword, a newline. */
  function LoginLine(user: string): Line {
    user + " " + DEFAULT_KEYWORD + "\n"
  }

  /** A login line strips to the line without its newline. */
  lemma LoginLineStrips(user: string)
    requires user != [] && Unpadded(user)
    ensures Strip(LoginLine(user)) == user + " " + DEFAULT_KEYWORD
  {
    var core := user + " " + DEFAULT_KEYWORD;
    assert core[|core| - 1] == 'n';
    assert core[0] == user[0];
    StripPadded([], core, "\n");
    assert [] + core + "\n" == LoginLine(user);
  }

  /** The default keyword occurs in a login line, right after the user and the space. */
  lemma LoginLineContains(user: string)
    ensures Contains(DEFAULT_KEYWORD, LoginLine(user))
  {
    var l := LoginLine(user);
    assert l[|user| + 1..|user| + 1 + |DEFAULT_KEYWORD|] == DEFAULT_KEYWORD;
    ContainsAt(DEFAULT_KEYWORD, l, |user| + 1);
  }

  /** A login line matches the default keyword, and its alert carries the line without the newline. */
  lemma LoginLineAlerts(user: string)
    requires user != [] && Unpadded(user)
    ensures Contains(DEFAULT_KEYWORD, LoginLine(user))
    ensures AlertFor(DEFAULT_KEYWORD, Some(LoginLine(user))) == Some(ALERT_PREFIX + user + " " + DEFAULT_KEYWORD)
  {
    LoginLineStrips(user);
    LoginLineContains(user);
    assert ALERT_PREFIX + (user + " " + DEFAULT_KEYWORD) == ALERT_PREFIX + user + " " + DEFAULT_KEYWORD;
  }

  /**
   * A rotation history: the tailer starts while inode 1 already holds line
   * `a`, line `b` is appended, the file is rotated to inode 2 and line `c` is
   * appended to the new file. `a` is history and is skipped; `b` and `c` are
   * each read once, in order.
   */
  lemma RotationRun(keyword: string, a: Line, b: Line, c: Line)
    ensures Run(Initial, keyword, [Seen(1, [a]), Seen(1, [a, b]), Seen(2, []), Seen(2, [c])])
            == Trace(TailState(Some(2), Some(Handle(2, 1))), [b, c],
                     AlertFor(keyword, Some(b)).ToSeq() + AlertFor(keyword, Some(c)).ToSeq())
  {
    var o1, o2, o3, o4 := Seen(1, [a]), Seen(1, [a, b]), Seen(2, []), Seen(2, [c]);
    var s1 := TailState(Some(1), Some(Handle(1, 1)));
    var s2 := TailState(Some(1), Some(Handle(1, 2)));
    var s3 := TailState(Some(2), Some(Handle(2, 0)));
    var s4 := TailState(Some(2), Some(Handle(2, 1)));
    assert ReadTick(Initial, o1.file, true) == Read(s1, true, None);
    assert ReadTick(s1, o2.file, true) == Read(s2, false, Some(b));
    assert ReadTick(s2, o3.file, true) == Read(s3, true, None);
    assert ReadTick(s3, o4.file, true) == Read(s4, false, Some(c));
    var r4 := Run(s4, keyword, []);
    RunCons(s3, keyword, o4, [], r4);
    var r3 := Run(s3, keyword, [o4]);
    RunCons(s2, keyword, o3, [o4], r3);
    var r2 := Run(s2, keyword, [o3, o4]);
    RunCons(s1, keyword, o2, [o3, o4], r2);
    var r1 := Run(s1, keyword, [o2, o3, o4]);
    RunCons(Initial, keyword, o1, [o2, o3, o4], r1);
  }

  /** The same history with three logins: alice's is skipped, bob's and carol's each raise one alert. */
  lemma RotationScenario(alice: string, bob: string, carol: string)
    requires bob != [] && Unpadded(bob) && carol != [] && Unpadded(carol)
    ensures var r := Run(Initial, DEFAULT_KEYWORD, [Seen(1, [LoginLine(alice)]), Seen(1, [LoginLine(alice), LoginLine(bob)]),
                                                   Seen(2, []), Seen(2, [LoginLine(carol)])]);
            && r.lines == [LoginLine(bob), LoginLine(carol)]
            && r.alerts == [ALERT_PREFIX + bob + " " + DEFAULT_KEYWORD, ALERT_PREFIX + carol + " " + DEFAULT_KEYWORD]
  {
    RotationRun(DEFAULT_KEYWORD, LoginLine(alice), LoginLine(bob), LoginLine(carol));
    LoginLineAlerts(bob);
    LoginLineAlerts(carol);
  }

  /**
   * The inode check comes before the read, and a reopen seeks to the end: a
   * line appended to the new file before the first poll that sees the
   * rotation is never read.
   */
  lemma RotationRaceLosesLines(keyword: string, appended: seq<Line>, later: seq<Observation>)
    requires forall k :: 0 <= k < |later| ==> later[k] == Seen(2, appended)
    ensures var r := Run(TailState(Some(1), Some(Handle(1, 0))), keyword, [Seen(1, []), Seen(2, appended)] + later);
            r.lines == [] && r.alerts == []
  {
    var obs := [Seen(1, []), Seen(2, appended)] + later;
    var s := TailState(Some(1), Some(Handle(1, 0)));
    var end := TailState(Some(2), Some(Handle(2, |appended|)));
    assert Step(s, keyword, obs[0].file, true) == Tick(s, false, None, None);
    assert Step(s, keyword, obs[1].file, true) == Tick(end, true, None, None);
    assert obs[1..][1..] == later;
    StableFileDrained(later, 2, appended, |appended|, ReadRun(end, later));
    RunReads(end, keyword, later);
    RunAlertsFollowLines(end, keyword, later);
  }
}
