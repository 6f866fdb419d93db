/**
 * The rotation-aware log tailer of `watch_log_file_by_inode` (server.py:63-110).
 *
 * One poll tick sees one snapshot of the watched path: either nothing there, or
 * the inode the path names and that file's content as the lines `readline()`
 * would return, in order. Offsets count lines. Within one tick the inode
 * comparison comes before the read, so every read goes to the inode the handle
 * was opened on, which is then the path's current inode.
 */
module Tailer {
  import opened Wrappers
  import opened Text
  import opened Messages

  type Inode = nat

  /** What one `readline()` returns: never the empty string, which means "no data". */
  type Line = s: string | |s| > 0 witness "\n"

  /** The watched path as `os.stat` and `open` see it during one tick. */
  datatype FileStat = FileStat(inode: Inode, lines: seq<Line>)

  /** An open file object: bound to the inode it was opened on, positioned at a line offset. */
  datatype Handle = Handle(inode: Inode, offset: nat)

  /** The loop's two local variables, `current_inode` and `file_handle`. */
  datatype TailState = TailState(currentInode: Option<Inode>, handle: Option<Handle>)

  /** Both variables start as `None` (server.py:65-66). */
  const Initial: TailState := TailState(None, None)

  /** `current_inode` names the inode of the open handle, and is `None` exactly when no handle is open. */
  predicate Consistent(s: TailState) {
    s.currentInode == (if s.handle.Some? then Some(s.handle.value.inode) else None)
  }

  /**
   * `readline()` on a handle: the line at its offset, advancing it by one; or,
   * at or past the end of the file (also after a truncation), nothing, with the
   * handle left where it was. The handle stays bound to its inode either way.
   */
  function ReadLine(h: Handle, f: FileStat): (r: (Option<Line>, Handle))
    requires h.inode == f.inode
    ensures r.1.inode == h.inode
    ensures r.0.Some? <==> h.offset < |f.lines|
    ensures r.0.Some? ==> r.0.value == f.lines[h.offset] && r.1.offset == h.offset + 1
    ensures r.0.None? ==> r.1 == h
  {
    if h.offset < |f.lines| then (Some(f.lines[h.offset]), Handle(h.inode, h.offset + 1)) else (None, h)
  }

  /** The alert for a line that was read: one exactly when the keyword occurs in it, however often. */
  function AlertFor(keyword: string, line: Option<Line>): (a: Option<string>)
    ensures a.Some? <==> line.Some? && Contains(keyword, line.value)
    ensures a.Some? ==> ALERT_PREFIX <= a.value && Strip(a.value) != KEEP_ALIVE
  {
    if line.Some? && Contains(keyword, line.value) then
      AlertIsNotKeepAlive(line.value);
      Some(AlertPayload(line.value))
    else None
  }

  /** What one tick read: the new state, whether it (re)opened the file, and the line it read. */
  datatype Read = Read(state: TailState, reopened: bool, line: Option<Line>)

  /**
   * The reading half of one iteration of the `while True` loop. `file` is the
   * path's snapshot (`None` when the path does not exist) and `openOk` says
   * whether `open()` succeeds if it is called. A failed open leaves the old
   * handle closed, and the `finally` clause then resets `current_inode`; a
   * closed handle is modelled as `None`. A line is only ever read from the
   * inode the path names in that same tick.
   */
  function ReadTick(s: TailState, file: Option<FileStat>, openOk: bool): (rd: Read)
    requires Consistent(s)
    ensures Consistent(rd.state)
    ensures rd.line.Some? ==> file.Some? && rd.state.currentInode == Some(file.value.inode)
  {
    match file
    case None => Read(s, false, None)
    case Some(f) =>
      if s.currentInode != Some(f.inode) && !openOk then Read(Initial, false, None)
      else
        var reopened := s.currentInode != Some(f.inode);
        var h := if reopened then Handle(f.inode, |f.lines|) else s.handle.value;
        var (line, h') := ReadLine(h, f);
        Read(TailState(Some(f.inode), Some(h')), reopened, line)
  }

  /** What one tick did: what it read, and the alert it raised. */
  datatype Tick = Tick(state: TailState, reopened: bool, line: Option<Line>, alert: Option<string>)

  /** One iteration of the `while True` loop: the read, then the alert for the line read. */
  function Step(s: TailState, keyword: string, file: Option<FileStat>, openOk: bool): (t: Tick)
    requires Consistent(s)
    ensures Consistent(t.state)
    ensures t.alert.Some? ==> t.line.Some?
  {
    var rd := ReadTick(s, file, openOk);
    Tick(rd.state, rd.reopened, rd.line, AlertFor(keyword, rd.line))
  }

  /**
   * What one poll does. A missing path changes nothing. The file is (re)opened
   * exactly when its inode differs from `current_inode` (also the first time,
   * when that is `None`) and `open()` succeeds; a failed open resets both
   * variables. After a (re)open the handle is bound to the new inode at the
   * end of the file and nothing is read. With the same inode the handle is
   * kept: a read returns the line at the offset and advances it by one, and an
   * empty read (also on a file that shrank) changes nothing. There is one
   * alert, carrying the stripped line, exactly when the keyword occurs in it.
   */
  lemma StepSpec(s: TailState, keyword: string, file: Option<FileStat>, openOk: bool)
    requires Consistent(s)
    ensures var t := Step(s, keyword, file, openOk);
      && (file.None? ==> t == Tick(s, false, None, None))
      && (file.Some? ==> (t.reopened <==> s.currentInode != Some(file.value.inode) && openOk))
      && (file.Some? && s.currentInode != Some(file.value.inode) && !openOk ==> t == Tick(Initial, false, None, None))
      && (t.reopened ==> t.state == TailState(Some(file.value.inode), Some(Handle(file.value.inode, |file.value.lines|)))
                         && t.line.None?)
      && (file.Some? && s.currentInode == Some(file.value.inode) ==>
            var f, off := file.value, s.handle.value.offset;
            && !t.reopened
            && (t.line.Some? <==> off < |f.lines|)
            && (t.line.None? ==> t.state == s)
            && (t.line.Some? ==> t.line.value == f.lines[off]
                                 && t.state == TailState(Some(f.inode), Some(Handle(f.inode, off + 1)))))
      && (t.alert.Some? <==> t.line.Some? && Contains(keyword, t.line.value))
      && (t.alert.Some? ==> t.alert.value == ALERT_PREFIX + Strip(t.line.value))
  {
  }

  /** One poll's inputs: the snapshot of the path and whether an `open()` would succeed. */
  datatype Observation = Observation(file: Option<FileStat>, openOk: bool)

  /** The effect of a run of ticks: the final state, the lines read and the alerts raised, in order. */
  datatype Trace = Trace(state: TailState, lines: seq<Line>, alerts: seq<string>)

  /** The tailer's loop over a sequence of polls. */
  function Run(s: TailState, keyword: string, obs: seq<Observation>): (r: Trace)
    requires Consistent(s)
    ensures Consistent(r.state)
    ensures |r.alerts| <= |r.lines| <= |obs|
    decreases |obs|
  {
    if obs == [] then Trace(s, [], [])
    else
      var t := Step(s, keyword, obs[0].file, obs[0].openOk);
      var rest := Run(t.state, keyword, obs[1..]);
      Trace(rest.state, t.line.ToSeq() + rest.lines, t.alert.ToSeq() + rest.alerts)
  }

  /** A run over one more poll: the first tick, then the run over the rest. */
  lemma RunCons(s: TailState, keyword: string, o: Observation, rest: seq<Observation>, r: Trace)
    requires Consistent(s)
    requires r == Run(Step(s, keyword, o.file, o.openOk).state, keyword, rest)
    ensures var t := Step(s, keyword, o.file, o.openOk);
            Run(s, keyword, [o] + rest) == Trace(r.state, t.line.ToSeq() + r.lines, t.alert.ToSeq() + r.alerts)
  {
    assert ([o] + rest)[0] == o && ([o] + rest)[1..] == rest;
  }

  /**
   * A run over two stretches of polls is the run `ra` over the first, then the
   * run `rb` over the second from where `ra` ended.
   */
  lemma {:induction false} RunAppend(s: TailState, keyword: string, a: seq<Observation>, b: seq<Observation>, ra: Trace, rb: Trace, r: Trace)
    requires Consistent(s)
    requires ra == Run(s, keyword, a) && rb == Run(ra.state, keyword, b) && r == Run(s, keyword, a + b)
    ensures r == Trace(rb.state, ra.lines + rb.lines, ra.alerts + rb.alerts)
    decreases |a|
  {
    if a == [] {
      assert a + b == b;
    } else {
      var t := Step(s, keyword, a[0].file, a[0].openOk);
      var ra', r' := Run(t.state, keyword, a[1..]), Run(t.state, keyword, a[1..] + b);
      ConsAppend(a, b);
      RunCons(s, keyword, a[0], a[1..] + b, r');
      RunCons(s, keyword, a[0], a[1..], ra');
      RunAppend(t.state, keyword, a[1..], b, ra', rb, r');
      AppendAssoc(t.line.ToSeq(), ra'.lines, rb.lines);
      AppendAssoc(t.alert.ToSeq(), ra'.alerts, rb.alerts);
    }
  }

  /** A non-empty sequence is its first element in front of the rest, also with more appended. */
  lemma ConsAppend<T>(a: seq<T>, b: seq<T>)
    requires a != []
    ensures a == [a[0]] + a[1..] && a + b == [a[0]] + (a[1..] + b)
  {
  }

  /** Concatenation is associative. */
  lemma AppendAssoc<T>(x: seq<T>, y: seq<T>, z: seq<T>)
    ensures x + (y + z) == x + y + z
  {
  }

  /** What a run of polls reads: the final state and the lines, in order. */
  datatype Reading = Reading(state: TailState, lines: seq<Line>)

  /** The reading half of the tailer's loop over a sequence of polls, which does not depend on the keyword. */
  function ReadRun(s: TailState, obs: seq<Observation>): (r: Reading)
    requires Consistent(s)
    ensures Consistent(r.state) && |r.lines| <= |obs|
    decreases |obs|
  {
    if obs == [] then Reading(s, [])
    else
      var rd := ReadTick(s, obs[0].file, obs[0].openOk);
      var rest := ReadRun(rd.state, obs[1..]);
      Reading(rest.state, rd.line.ToSeq() + rest.lines)
  }

  /** The alerts aside, a run reads what its reading half reads and ends in the same state. */
  lemma {:induction false} RunReads(s: TailState, keyword: string, obs: seq<Observation>)
    requires Consistent(s)
    ensures Run(s, keyword, obs).state == ReadRun(s, obs).state
    ensures Run(s, keyword, obs).lines == ReadRun(s, obs).lines
    decreases |obs|
  {
    if obs != [] {
      var t := Step(s, keyword, obs[0].file, obs[0].openOk);
      RunReads(t.state, keyword, obs[1..]);
    }
  }

  /** Reference definition: the alerts for a sequence of lines are one per line containing the keyword. */
  function AlertsOf(keyword: string, lines: seq<Line>): seq<string>
    decreases |lines|
  {
    if lines == [] then []
    else (if Contains(keyword, lines[0]) then [AlertPayload(lines[0])] else []) + AlertsOf(keyword, lines[1..])
  }

  /** Over any run, the alerts are exactly one per line read that contains the keyword, in reading order. */
  lemma {:induction false} RunAlertsFollowLines(s: TailState, keyword: string, obs: seq<Observation>)
    requires Consistent(s)
    ensures Run(s, keyword, obs).alerts == AlertsOf(keyword, Run(s, keyword, obs).lines)
    decreases |obs|
  {
    if obs != [] {
      var t := Step(s, keyword, obs[0].file, obs[0].openOk);
      var rest := Run(t.state, keyword, obs[1..]);
      RunAlertsFollowLines(t.state, keyword, obs[1..]);
      assert Run(s, keyword, obs) == Trace(rest.state, t.line.ToSeq() + rest.lines, t.alert.ToSeq() + rest.alerts);
      if t.line.Some? {
        var ls := [t.line.value] + rest.lines;
        assert ls[0] == t.line.value && ls[1..] == rest.lines;
        assert AlertsOf(keyword, ls)
            == (if Contains(keyword, ls[0]) then [AlertPayload(ls[0])] else []) + AlertsOf(keyword, ls[1..]);
      } else {
        assert t.line.ToSeq() + rest.lines == rest.lines;
      }
    }
  }

  /** One poll finds the path naming inode `ino`, holding a prefix of `final`. */
  predicate GrowingTo(o: Observation, ino: Inode, final: seq<Line>) {
    o.file.Some? && o.file.value.inode == ino && o.file.value.lines <= final
  }

  /**
   * Every poll finds the path naming inode `ino`, and every snapshot's content is
   * a prefix of `final`: the file only grows by appending.
   */
  predicate OnlyAppends(obs: seq<Observation>, ino: Inode, final: seq<Line>)
    decreases |obs|
  {
    obs == [] || (GrowingTo(obs[0], ino, final) && OnlyAppends(obs[1..], ino, final))
  }

  /**
   * While the inode stays the same and the file only grows, the tailer reads the
   * lines from its offset on, consecutively: none skipped, none twice, none before
   * the offset. `r` is what a run reads from a handle at offset `off`.
   */
  lemma {:induction false} ReadsFollowOffset(obs: seq<Observation>, ino: Inode, final: seq<Line>, off: nat, r: Reading)
    requires OnlyAppends(obs, ino, final) && off <= |final|
    requires r == ReadRun(TailState(Some(ino), Some(Handle(ino, off))), obs)
    ensures off + |r.lines| <= |final|
    ensures r.lines == final[off..off + |r.lines|]
    ensures r.state == TailState(Some(ino), Some(Handle(ino, off + |r.lines|)))
    decreases |obs|
  {
    if obs == [] {
      assert final[off..off] == [];
    } else {
      var n := if off < |obs[0].file.value.lines| then 1 else 0;
      var rest := ReadRun(TailState(Some(ino), Some(Handle(ino, off + n))), obs[1..]);
      FirstTickOnGrowingFile(obs, ino, final, off, n, r, rest);
      ReadsFollowOffset(obs[1..], ino, final, off + n, rest);
      AdjacentSlices(final, off, n, rest.lines, r.lines);
    }
  }

  /** A slice of `final` followed by the slice right after it is the slice spanning both. */
  lemma AdjacentSlices<T>(final: seq<T>, off: nat, n: nat, rest: seq<T>, whole: seq<T>)
    requires off + n + |rest| <= |final| && rest == final[off + n..off + n + |rest|]
    requires whole == final[off..off + n] + rest
    ensures |whole| == n + |rest| && off + |whole| <= |final|
    ensures whole == final[off..off + |whole|]
  {
    assert final[off..off + n + |rest|] == final[off..off + n] + final[off + n..off + n + |rest|];
  }

  /**
   * The first poll of a growing file on the handle's own inode reads the next
   * `n` lines of `final`: one if the snapshot has a line at the offset, none
   * otherwise. The reading `r` goes on as the reading `rest` from there.
   */
  lemma FirstTickOnGrowingFile(obs: seq<Observation>, ino: Inode, final: seq<Line>, off: nat, n: nat, r: Reading, rest: Reading)
    requires obs != [] && GrowingTo(obs[0], ino, final) && off <= |final|
    requires n == (if off < |obs[0].file.value.lines| then 1 else 0)
    requires r == ReadRun(TailState(Some(ino), Some(Handle(ino, off))), obs)
    requires rest == ReadRun(TailState(Some(ino), Some(Handle(ino, off + n))), obs[1..])
    ensures off + n <= |final|
    ensures r.lines == final[off..off + n] + rest.lines && r.state == rest.state
  {
    var f := obs[0].file.value;
    var t := ReadTick(TailState(Some(ino), Some(Handle(ino, off))), obs[0].file, obs[0].openOk);
    assert t.state == TailState(Some(ino), Some(Handle(ino, off + n)));
    if n == 1 {
      assert t.line == Some(final[off]);
      assert final[off..off + 1] == [final[off]];
    } else {
      assert t.line == None && final[off..off] == [];
    }
  }

  /** A file that does not change at all only grows. */
  lemma {:induction false} UnchangedOnlyAppends(obs: seq<Observation>, ino: Inode, lines: seq<Line>)
    requires forall k :: 0 <= k < |obs| ==> obs[k].file == Some(FileStat(ino, lines))
    ensures OnlyAppends(obs, ino, lines)
    decreases |obs|
  {
    if obs != [] {
      forall k | 0 <= k < |obs| - 1 ensures obs[1..][k].file == Some(FileStat(ino, lines)) {
        assert obs[1..][k] == obs[k + 1];
      }
      UnchangedOnlyAppends(obs[1..], ino, lines);
    }
  }

  /**
   * Seek-to-end skips history: after the tick that opens inode `ino`, a run over a
   * growing file reads only lines appended after that open, in order, each once.
   * No line present when the file was opened is ever returned.
   */
  lemma NoHistoryAfterOpen(s: TailState, keyword: string, obs: seq<Observation>, ino: Inode, final: seq<Line>, r: Trace)
    requires Consistent(s) && s.currentInode != Some(ino)
    requires |obs| > 0 && obs[0].openOk && OnlyAppends(obs, ino, final)
    requires r == Run(s, keyword, obs)
    ensures var atOpen := |obs[0].file.value.lines|;
            && atOpen + |r.lines| <= |final|
            && r.lines == final[atOpen..atOpen + |r.lines|]
  {
    var f := obs[0].file.value;
    assert f.lines <= final;
    var t := ReadTick(s, obs[0].file, obs[0].openOk);
    assert t.state == TailState(Some(ino), Some(Handle(ino, |f.lines|))) && t.line.None?;
    ReadsFollowOffset(obs[1..], ino, final, |f.lines|, ReadRun(t.state, obs[1..]));
    RunReads(s, keyword, obs);
  }

  /**
   * Seek-to-end skips history anywhere in a history: whatever polls come
   * before and after, the polls from the one that (re)opens inode `ino` while
   * it only grows read only lines appended after that open, in order. `r1`,
   * `r2` and `r3` are the runs over the three stretches, each from where the
   * one before ended, and `r` is the run over the whole history: it reads and
   * raises what the three do, one after another.
   */
  lemma NoHistoryInSegment(s: TailState, keyword: string, pre: seq<Observation>, seg: seq<Observation>, post: seq<Observation>,
                           ino: Inode, final: seq<Line>, r1: Trace, r2: Trace, r3: Trace, r: Trace)
    requires Consistent(s)
    requires r1 == Run(s, keyword, pre) && r2 == Run(r1.state, keyword, seg) && r3 == Run(r2.state, keyword, post)
    requires r == Run(s, keyword, pre + seg + post)
    requires r1.state.currentInode != Some(ino)
    requires |seg| > 0 && seg[0].openOk && OnlyAppends(seg, ino, final)
    ensures var atOpen := |seg[0].file.value.lines|;
            && atOpen + |r2.lines| <= |final|
            && r2.lines == final[atOpen..atOpen + |r2.lines|]
    ensures r == Trace(r3.state, r1.lines + r2.lines + r3.lines, r1.alerts + r2.alerts + r3.alerts)
  {
    NoHistoryAfterOpen(r1.state, keyword, seg, ino, final, r2);
    RunAppend3(s, keyword, pre, seg, post, r1, r2, r3, r);
  }

  /** `RunAppend` over three stretches of polls. */
  lemma RunAppend3(s: TailState, keyword: string, pre: seq<Observation>, seg: seq<Observation>, post: seq<Observation>,
                   r1: Trace, r2: Trace, r3: Trace, r: Trace)
    requires Consistent(s)
    requires r1 == Run(s, keyword, pre) && r2 == Run(r1.state, keyword, seg) && r3 == Run(r2.state, keyword, post)
    requires r == Run(s, keyword, pre + seg + post)
    ensures r == Trace(r3.state, r1.lines + r2.lines + r3.lines, r1.alerts + r2.alerts + r3.alerts)
  {
    var r12 := Run(s, keyword, pre + seg);
    RunAppend(s, keyword, pre, seg, r1, r2, r12);
    RunAppend(s, keyword, pre + seg, post, r12, r3, r);
  }

  /**
   * Nothing is lost once the file stops growing: enough polls read every line
   * after the offset. `r` is what a run reads from a handle at offset `off`.
   */
  lemma {:induction false} StableFileDrained(obs: seq<Observation>, ino: Inode, lines: seq<Line>, off: nat, r: Reading)
    requires forall k :: 0 <= k < |obs| ==> obs[k].file == Some(FileStat(ino, lines))
    requires off <= |lines| && |obs| >= |lines| - off
    requires r == ReadRun(TailState(Some(ino), Some(Handle(ino, off))), obs)
    ensures r.lines == lines[off..]
    decreases |obs|
  {
    var s := TailState(Some(ino), Some(Handle(ino, off)));
    if off < |lines| {
      var t := ReadTick(s, obs[0].file, obs[0].openOk);
      assert t.line == Some(lines[off]);
      assert t.state == TailState(Some(ino), Some(Handle(ino, off + 1)));
      forall k | 0 <= k < |obs| - 1 ensures obs[1..][k].file == Some(FileStat(ino, lines)) {
        assert obs[1..][k] == obs[k + 1];
      }
      var rest := ReadRun(t.state, obs[1..]);
      StableFileDrained(obs[1..], ino, lines, off + 1, rest);
      assert r.lines == [lines[off]] + rest.lines;
      assert lines[off..] == [lines[off]] + lines[off + 1..];
    } else if obs != [] {
      UnchangedOnlyAppends(obs, ino, lines);
      ReadsFollowOffset(obs, ino, lines, off, r);
    }
  }

  /** One more tick of a run, folded into what the earlier ticks produced. */
  lemma AccumulateTick(s: TailState, keyword: string, obs: seq<Observation>, i: nat, lines: seq<Line>, alerts: seq<string>,
                       s': TailState, line: Option<Line>, alert: Option<string>)
    requires i < |obs| && Consistent(s)
    requires var t := Step(s, keyword, obs[i].file, obs[i].openOk); s' == t.state && line == t.line && alert == t.alert
    ensures var rest := Run(s, keyword, obs[i..]);
            var rest' := Run(s', keyword, obs[i + 1..]);
            Trace(rest.state, lines + rest.lines, alerts + rest.alerts)
            == Trace(rest'.state, (lines + line.ToSeq()) + rest'.lines, (alerts + alert.ToSeq()) + rest'.alerts)
  {
    assert obs[i..][1..] == obs[i + 1..];
    var rest' := Run(s', keyword, obs[i + 1..]);
    assert lines + (line.ToSeq() + rest'.lines) == (lines + line.ToSeq()) + rest'.lines;
    assert alerts + (alert.ToSeq() + rest'.alerts) == (alerts + alert.ToSeq()) + rest'.alerts;
  }

  /** The watcher of one path for one keyword, with the loop's variables as fields. */
  class Watcher {
    const keyword: string
    var currentInode: Option<Inode>
    var handle: Option<Handle>

    function State(): TailState
      reads this
    {
      TailState(currentInode, handle)
    }

    constructor (keyword: string)
      ensures this.keyword == keyword && State() == Initial
    {
      this.keyword := keyword;
      currentInode := None;
      handle := None;
    }

    /** One iteration of the watch loop, as `Step` specifies it. */
    method Poll(file: Option<FileStat>, openOk: bool) returns (line: Option<Line>, alert: Option<string>)
      requires Consistent(State())
      modifies this
      ensures var t := Step(old(State()), keyword, file, openOk);
              State() == t.state && line == t.line && alert == t.alert
    {
      line, alert := None, None;
      if file.None? {
        // "Log file not found. Waiting..."
        return;
      }
      var f := file.value;
      if currentInode != Some(f.inode) {
        if !openOk {
          // open() raised after the old handle was closed; the finally clause resets current_inode.
          handle, currentInode := None, None;
          return;
        }
        handle := Some(Handle(f.inode, |f.lines|));   // open, then seek(0, SEEK_END)
        currentInode := Some(f.inode);
      }
      var h := handle.value;
      if h.offset < |f.lines| {
        line := Some(f.lines[h.offset]);
        handle := Some(Handle(h.inode, h.offset + 1));
        if Contains(keyword, line.value) {
          alert := Some(AlertPayload(line.value));
        }
      }
    }

    /** The watch loop over a sequence of polls; returns the alerts it raised. */
    method Watch(obs: seq<Observation>) returns (lines: seq<Line>, alerts: seq<string>)
      requires Consistent(State())
      modifies this
      ensures var r := Run(old(State()), keyword, obs);
              State() == r.state && lines == r.lines && alerts == r.alerts
    {
      lines, alerts := [], [];
      var i := 0;
      assert obs[0..] == obs;
      assert Run(State(), keyword, obs[0..]).lines == [] + Run(State(), keyword, obs[0..]).lines;
      assert Run(State(), keyword, obs[0..]).alerts == [] + Run(State(), keyword, obs[0..]).alerts;
      while i < |obs|
        invariant 0 <= i <= |obs| && Consistent(State())
        invariant var rest := Run(State(), keyword, obs[i..]);
                  Run(old(State()), keyword, obs) == Trace(rest.state, lines + rest.lines, alerts + rest.alerts)
      {
        ghost var before := State();
        var line, alert := Poll(obs[i].file, obs[i].openOk);
        AccumulateTick(before, keyword, obs, i, lines, alerts, State(), line, alert);
        lines := lines + line.ToSeq();
        alerts := alerts + alert.ToSeq();
        i := i + 1;
      }
    }
  }
}
