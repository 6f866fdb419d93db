# LogCast in Dafny

LogCast is a small alerting system. The server (`server.py`) tails one log
file and survives log rotation by watching the file's inode. When a line
contains the configured keyword, it sends `Keyword alert: <stripped line>` over
TLS to every connected subscriber. Every two seconds it sends the heartbeat
`keep-alive`. A subscriber (`win_client.py`) strips each message it receives.
A heartbeat only marks the server as connected. Any other message becomes a
"Login Alert" notification, and the client also speaks
"New User logged in" when the message contains `LoggedIn`.

This project models the parts of that logic that are deterministic once I/O
is replaced with explicit inputs:

- `Tailer` models the rotation-aware tailer `watch_log_file_by_inode`. It has
  a pure step function `Step` and its iteration `Run` over per-poll snapshots
  of the watched path. `StepSpec` states what one poll does. The reading half
  of a poll, `ReadTick`, and of a run, `ReadRun`, leave out the alert, which
  does not affect what is read. The class `Watcher` holds the loop's two variables
  (`current_inode` and `file_handle`) as fields, and its methods `Poll` and
  `Watch` are proved equal to `Step` and `Run`.
- `Registry` models the global `clients` set as the class `ClientRegistry`.
  Its methods are add, remove-if-present, clear-on-shutdown and the
  fan-out/prune loop. The source writes that loop twice, once for heartbeats
  and once for alerts. The result of one pass is specified by the predicate
  `FanOut`.
- `Server` models the callers of those methods: one heartbeat round, one
  monitor tick with its alert fan-out, the per-connection receiver
  `handle_client`, and the accept loop of `start_server` with its shutdown.
- `Subscriber` models the subscriber's connection loop from `start_client`.
  The pure functions `Classify`, `OnData`, `Receive` and `Session` come with
  reference definitions of what is shown and said. The class `Client` holds
  `server_connected` and the notifications and utterances produced so far.
- `Text` models Python's `str.strip()` and the substring test `needle in hay`.
  `Messages` holds the wire payloads.
- `Delivery` holds end-to-end facts: what the subscriber does with each
  payload the server sends, and complete tailer runs over rotation histories.

How the inputs are modelled:

- The filesystem is one snapshot per poll: the path is either missing or names
  an inode with its content.
- Content is the sequence of lines `readline()` would return, and file
  offsets count lines.
- Whether `open()` succeeds is an input to each poll.
- Sockets are client ids. The outcome of each `sendall` is an oracle:
  delivered, a caught transport error, or any other exception.
- What a subscriber receives is a sequence of events: data, an empty read, a
  timeout, or a connection error.
- Threads, locks, sleeps, logging and the user interface are not modelled.

`start_server` catches only `ssl.SSLError` around `wrap_socket`
(server.py:150-158). Any other exception raised during a handshake, such as
a reset connection, leaves the accept loop, and the `finally` clause then
closes every client and the server socket. The accept loop
(`Server.AcceptLoop`, `Server.Serve`) models this, and
`Server.HandshakeResetStopsServer` shows that no connection after such a
failure is ever accepted.

The whitespace that `strip()` removes is the full set for which Python's
`str.isspace()` holds, not only ASCII whitespace, because the code calls
Python's `str.strip()`.

The keyword is not checked by the code, so it may be empty or consist of
whitespace. A keyword such as `" "` matches blank lines, and the alert for a
blank line is the bare prefix `Keyword alert: `. The subscriber's `strip()`
then shows `Keyword alert:` without the trailing space
(`Delivery.WhitespaceKeywordMatchesBlankLine`, `Delivery.BlankLineAlertTrimmed`).
For a keyword that is not empty and has no whitespace at either end, a
matching line is never blank, and its alert is shown exactly as sent
(`Delivery.MatchedLineNotBlank`, `Delivery.AlertShownVerbatim`).

## Model

| member | source | states |
|---|---|---|
| Text.Strip | server.py:91 | `strip()` never lengthens a string and leaves no whitespace at either end |
| Text.Contains | server.py:90 | `needle in hay` is false for a needle longer than hay, and true for the empty needle and for hay itself |
| Text.TrimStartSpec | server.py:91 | lstrip keeps a suffix of the string, drops only whitespace, and leaves no leading whitespace |
| Text.TrimEndSpec | server.py:91 | rstrip keeps a prefix of the string, drops only whitespace, and leaves no trailing whitespace |
| Text.StripBounds | server.py:95 | strip(s) is a window s[i..j] with only whitespace outside it, and the result has no padding of its own |
| Text.StripPadded | win_client.py:109 | whitespace on either side of an unpadded core is exactly what strip removes |
| Text.StripUnpadded | win_client.py:109 | strip is the identity on a string with no surrounding whitespace |
| Text.StripIdempotent | win_client.py:109 | stripping twice is the same as stripping once |
| Text.ContainsIff | server.py:90 | `needle in hay` holds exactly when the needle occurs at some position of hay |
| Text.ContainsAt | server.py:90 | an occurrence at a given position makes `needle in hay` true |
| Text.ContainsAfterPrefix | win_client.py:119 | a substring of a string is still a substring after text is put in front of it |
| Text.ContainsStrip | server.py:90-95 | a non-empty keyword without padding that occurs in a line also occurs in the stripped line |
| Messages.AlertPayload | server.py:95 | the alert starts with `Keyword alert: `, is at most that prefix plus the line, and what follows the prefix has no surrounding whitespace |
| Messages.AlertPayloadUnpadded | server.py:95 | an alert for a line that is not blank has no surrounding whitespace |
| Messages.AlertIsNotKeepAlive | server.py:95 | no alert payload strips to the heartbeat token, whatever the line |
| Tailer.ReadLine | server.py:85-86 | `readline()` returns the line at the handle's position and advances it by one; at or past the end of the file, truncated or not, it returns nothing and leaves the position; the handle stays on its inode |
| Tailer.AlertFor | server.py:90-95 | a poll raises an alert exactly when it read a line and the keyword occurs in that line, however often; the alert starts with `Keyword alert: ` and never strips to the heartbeat token |
| Tailer.ReadTick | server.py:67-88 | one poll keeps `current_inode` naming the inode of the open handle, and a line is only ever read from the inode the path names in that same poll |
| Tailer.Step | server.py:67-110 | one poll keeps `current_inode` naming the inode of the open handle, and raises an alert only for a line it read |
| Tailer.StepSpec | server.py:67-110 | one poll: a missing path changes nothing; a reopen happens exactly when the inode differs from current_inode and open succeeds, and it seeks to the end without reading; a failed open resets both variables; with the same inode a read returns the line at the offset and advances it by one, and an empty read (even on a shrunk file) changes nothing; there is one alert, `Keyword alert: ` + strip(line), exactly when the keyword occurs in the line |
| Tailer.Run | server.py:67-110 | a run over any polls keeps current_inode equal to the open handle's inode, reads at most one line per poll, and raises at most one alert per line |
| Tailer.ReadRun | server.py:67-88 | the reading half of a run keeps current_inode equal to the open handle's inode and reads at most one line per poll |
| Tailer.RunReads | server.py:67-96 | the alert branch does not affect reading: a run ends in the state, and reads the lines, of its reading half, whatever the keyword |
| Tailer.RunAppend | server.py:67-110 | a run over two stretches of polls reads and raises what the first stretch does, then what the second does from the state the first left; the loop carries nothing from poll to poll but its two variables |
| Tailer.RunAlertsFollowLines | server.py:85-96 | over any run, the alerts are exactly one per line read that contains the keyword, in reading order, however often the keyword occurs in it |
| Tailer.ReadsFollowOffset | server.py:74-88 | while the inode stays the same and the file only grows, what a run reads from a handle at some offset is the file's lines from that offset on, consecutively, none skipped or repeated, and the handle ends right after the last of them |
| Tailer.NoHistoryAfterOpen | server.py:80-85 | after the poll that opens an inode, only lines appended after the open are read, in order; no line present when the file was opened is ever returned |
| Tailer.NoHistoryInSegment | server.py:74-88 | in any history, whatever polls come before and after, the polls from the one that (re)opens an inode while it only grows read only lines appended after that open, in order; the whole run reads and raises what its stretches do, one after another |
| Tailer.StableFileDrained | server.py:85-88 | once the file stops changing, a run of at least as many polls as there are unread lines reads exactly the lines after the offset |
| Tailer.Watcher.constructor | server.py:65-66 | the watcher starts with no current inode and no open handle |
| Tailer.Watcher.Poll | server.py:68-110 | one iteration of the watch loop updates the fields and returns the line and alert of Step, the poll that StepSpec describes |
| Tailer.Watcher.Watch | server.py:67-110 | the watch loop over a sequence of polls ends in the state, lines and alerts that Run specifies |
| Registry.FanOut | server.py:51-60 | a fan-out pass never adds a client, and the clients it closes are exactly the ones no longer registered after it |
| Registry.PrunedMembers | server.py:55-58 | a client is pruned exactly when it is in the snapshot and its send failed with a caught transport error |
| Registry.PrunedNeverRetried | server.py:51-58 | a client pruned by one pass is absent from the next pass's snapshot, and every client that was not pruned is present in it |
| Registry.ClientRegistry.constructor | server.py:45 | the registry starts empty |
| Registry.ClientRegistry.Snapshot | server.py:52 | `list(clients)` lists every member exactly once |
| Registry.ClientRegistry.Add | server.py:153-154 | adding puts the client in the registry and changes nothing else |
| Registry.ClientRegistry.Discard | server.py:126-128 | receiver-exit removal takes the client out if present, and is a no-op when it is already gone |
| Registry.ClientRegistry.Broadcast | server.py:92-102 | every client of the snapshot is attempted exactly once, in snapshot order; exactly the clients with a caught transport error are removed and closed; delivered clients and other failures stay; nothing is added |
| Registry.ClientRegistry.CloseAll | server.py:162-165 | shutdown closes every client exactly once and leaves the registry empty |
| Server.SendKeepAlive | server.py:51-60 | one heartbeat round is a fan-out of exactly `keep-alive` |
| Server.MonitorTick | server.py:85-102 | one monitor tick polls as Step specifies; with no alert the registry is untouched and nothing is sent, and with an alert the alert is fanned out |
| Server.HandleClient | server.py:112-129 | the receiver handles data until the first close or error, then removes its client if still registered and closes its socket, also when the client was already removed; while it runs, the registry is untouched and nothing is closed |
| Server.AcceptLoop | server.py:146-159 | the accept loop handles no more events than it is given |
| Server.AcceptLoopHandles | server.py:146-159 | the accept loop runs up to and including the first interrupt or uncaught handshake failure; it registers exactly the connections whose handshake succeeds and refuses those that fail with `ssl.SSLError` |
| Server.HandshakeResetStopsServer | server.py:146-158 | for any history, the first handshake failure other than `ssl.SSLError` is the last event the accept loop handles: it stops as crashed, no later connection is accepted, and every registered client had a successful handshake before it |
| Server.Serve | server.py:146-165 | the accept loop registers clients as AcceptLoop specifies; when it ends, every client, old or new, is closed once and the registry is empty |
| Subscriber.Classify | win_client.py:109-112 | a message is a heartbeat exactly when its stripped text equals `keep-alive`; otherwise it is an alert carrying the stripped, unpadded text |
| Subscriber.OnData | win_client.py:108-120 | a message sets the connected flag exactly when it is a heartbeat; an alert adds exactly one notification and at most one utterance; earlier notifications and utterances are kept |
| Subscriber.Receive | win_client.py:104-126 | the receive loop never takes more events than it is given |
| Subscriber.OnDataShows | win_client.py:108-120 | one message adds its own notification and utterance, if any, after the earlier ones |
| Subscriber.ReceiveShows | win_client.py:104-126 | the notifications and utterances of a session are exactly those of the events it processed: one notification titled `Login Alert` with the stripped message for each non-heartbeat, and one utterance for each of those containing `LoggedIn` |
| Subscriber.ReceiveIgnoresLater | win_client.py:121-126 | an empty read or a timeout ends the loop; no event after it is processed |
| Subscriber.ReceiveProcessesAll | win_client.py:104-120 | without an ending event every event is processed |
| Subscriber.ReceiveKeepsConnected | win_client.py:112-131 | once connected, the flag stays set through a session unless a connection error ended it; a timeout or an empty read leaves it set |
| Subscriber.HeartbeatsShowNothing | win_client.py:109-115 | heartbeats, padded or not, produce no notification and no speech |
| Subscriber.PaddedKeepAlive | win_client.py:109-112 | the heartbeat token with whitespace around it is classified as a heartbeat |
| Subscriber.CoalescedHeartbeatsAreShown | win_client.py:112-117 | two or more heartbeats received in one read are not recognised and are shown as an alert |
| Subscriber.SplitHeartbeatIsShown | win_client.py:112-117 | a heartbeat split across two reads, at any position, is shown as two alerts |
| Subscriber.Session | win_client.py:89-131 | a failed connect clears the flag and receives nothing; after a successful connect the session ends connected exactly when it did not end on a connection error; nothing shown is taken back |
| Subscriber.Sessions | win_client.py:87-131 | over successive connection attempts notifications and utterances are only added, and after a failed last attempt the client is disconnected |
| Subscriber.Client.constructor | win_client.py:38 | the client starts disconnected, having shown and said nothing |
| Subscriber.Client.RunSession | win_client.py:87-131 | one pass of the outer loop: a successful connect sets the flag and receives as Receive specifies; a failed connect clears the flag |
| Subscriber.Client.StartClient | win_client.py:87-138 | successive connection attempts leave the client in the state that Sessions specifies |
| Delivery.HeartbeatIsSilent | win_client.py:109-115 | the heartbeat the server sends only sets the connected flag |
| Delivery.MatchedLineNotBlank | server.py:90-95 | a keyword that is not empty and has no whitespace at either end only matches lines that are not blank, and still occurs in the stripped line |
| Delivery.AlertShownVerbatim | win_client.py:109-120 | whatever keyword matched it, the alert for a line that is not blank is shown as exactly one notification whose body is the whole payload, never as a heartbeat, and it is spoken exactly when it contains `LoggedIn` |
| Delivery.WhitespaceKeywordMatchesBlankLine | server.py:90-95 | the keyword `" "` matches the blank line `" \n"`, and the alert raised is the bare prefix |
| Delivery.BlankLineAlertTrimmed | win_client.py:109-120 | the alert for a blank line is shown as `Keyword alert:`, without the trailing space that was sent, and nothing is spoken |
| Delivery.DefaultAlertShownAndSpoken | win_client.py:117-120 | with the default keyword on both sides, every alert the server sends is shown once and spoken once |
| Delivery.RotationRun | server.py:74-88 | over a start on a non-empty file, an append, a rotation and an append to the new file, the pre-existing line is skipped and the two appended lines are each read once, in order |
| Delivery.RotationScenario | server.py:74-96 | the same history with three logins raises two alerts, for the second and third, carrying the stripped lines |
| Delivery.RotationRaceLosesLines | server.py:74-88 | a line written to the new file before the first poll that sees the rotation is never read, and raises no alert |

## Left out

- Sockets, TLS, certificates and `getpeername` are not modelled. Connections are ids, and each send or receive is an input.
- Threads and `client_lock` are not modelled, and the model is sequential. The receiver's removal takes a fresh `threading.Lock()`, which excludes nothing. A removal that races with a pruning pass can make `clients.remove` in the pass raise `KeyError`. That `KeyError` is not modelled. In `send_keep_alive` nothing catches it, so the heartbeat thread ends for good and no later heartbeat prunes any client. In the monitor it is caught by the outer handler and ends that alert's pass.
- The heartbeat and poll intervals (`time.sleep`), the 5 s reconnect delay and the 60 s receive timeout are not modelled. A timeout is an event.
- Logging and the environment-variable configuration are not modelled. The one configuration value the core uses is the keyword, which is a parameter. The heartbeat token is a fixed string in the code and is a constant here.
- UTF-8 encoding and decoding are not modelled; payloads are strings. A received chunk that is not valid UTF-8 raises `UnicodeDecodeError`, which no handler in `start_client` catches. The model has no event for that.
- The model does not split or coalesce TCP segments. Each `Data` event is one `recv` result. Coalesced and split heartbeats are covered by lemmas about the payload text.
- Partial lines from `readline()` are not modelled, because the file is modelled as whole lines and offsets count lines.
- The race between `os.path.exists` and `os.stat` is not modelled, because each poll sees one snapshot of the path. Errors raised by `os.stat` or `readline()` are not modelled either. Only a failing `open()` is, together with the `finally` reset of `current_inode`.
- An exception raised by `getpeername` inside a send-error handler is not modelled. The handlers call it to log the peer before `clients.remove` and `close`, for example with `ENOTCONN` after the peer reset. The failing client is then neither removed nor closed, and the rest of the pass is skipped. The handler for any other exception calls `getpeername` in the same way. In `send_keep_alive` nothing catches it, so the heartbeat thread ends for good and no later heartbeat prunes any client. In the monitor the outer handler catches it, and the client stays registered. This is the main way the promise that failed clients are pruned can fail, and the model does not show it.
- An `OSError` from `accept()` is not modelled.
- The tray icon, `update_icon`, the toast and text-to-speech libraries, `resource_path` and the `__main__` blocks are not modelled. Notifications and utterances are recorded as values.
