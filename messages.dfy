/** The text payloads the server puts on the wire (server.py:54 and server.py:95). */
module Messages {
  import opened Text

  /** The heartbeat token sent by `send_keep_alive`. */
  const KEEP_ALIVE: string := "keep-alive"

  /** The fixed text in front of a matched log line. */
  const ALERT_PREFIX: string := "Keyword alert: "

  /** The keyword the server watches for unless configured otherwise (`LOG_KEYWORD`). */
  const DEFAULT_KEYWORD: string := "LoggedIn"

  /**
   * The alert sent for a matching log line: the prefix followed by the
   * stripped line, which is never longer than the line and has no padding.
   */
  function AlertPayload(line: string): (p: string)
    ensures |ALERT_PREFIX| <= |p| <= |ALERT_PREFIX| + |line|
    ensures ALERT_PREFIX <= p && Unpadded(p[|ALERT_PREFIX|..])
  {
    var p := ALERT_PREFIX + Strip(line);
    assert p[|ALERT_PREFIX|..] == Strip(line);
    p
  }

  /** An alert whose line is not blank has no padding of its own, so a receiver's strip() keeps it whole. */
  lemma AlertPayloadUnpadded(line: string)
    requires Strip(line) != []
    ensures Unpadded(AlertPayload(line))
  {
    var _, _ := StripBounds(line);
    var p := AlertPayload(line);
    assert p[|p| - 1] == Strip(line)[|Strip(line)| - 1];
  }

  /** Every alert starts with a capital K, so it never strips to the heartbeat token. */
  lemma AlertIsNotKeepAlive(line: string)
    ensures Strip(AlertPayload(line)) != KEEP_ALIVE
  {
    var p := AlertPayload(line);
    assert p[0] == 'K' && !IsWhitespace(p[0]);
    var i, j := StripBounds(p);
    assert i == 0;
    TrimEndKeepsFirst(p);
  }

  /** Dropping trailing whitespace keeps a non-whitespace first character. */
  lemma TrimEndKeepsFirst(s: string)
    requires s != [] && !IsWhitespace(s[0])
    ensures TrimEnd(s) != [] && TrimEnd(s)[0] == s[0]
  {
    var r := TrimEnd(s);
    TrimEndSpec(s);
    assert !IsWhitespace(s[0]);
    assert r == s[..|r|];
  }
}
