// Exporting a Wayland selection to X11: an event-driven reader that collects a pipe into a
// doubling buffer, up to a hard limit.
// src/clipboard.c:20-33 and 98-154, with the two export starters.

module Clipboard {
  import opened Base

  type Byte = b: int | 0 <= b < 256

  const CLIPBOARD_MAX: nat := 1024 * 1024
  const CHUNK: nat := 4096

  // What one call of read returned.
  datatype Read = Data(chunk: seq<Byte>) | WouldBlock | EndOfFile | ReadError

  // The reader and the two texts served to X11. data is what the buffer holds, cap its size.
  datatype State = State(reading: bool, primary: bool, data: seq<Byte>, cap: nat,
                         clipOut: Option<seq<Byte>>, priOut: Option<seq<Byte>>)

  // clipboard_clear_read
  function Clear(s: State): State {
    s.(reading := false, data := [], cap := 0)
  }

  // Publishes what was collected, if anything, under the selection being exported.
  function Publish(s: State): State {
    if s.data == [] then s
    else if s.primary then s.(priOut := Some(s.data))
    else s.(clipOut := Some(s.data))
  }

  function Doubled(cap: nat, need: nat): (c: nat)
    requires cap > 0
    ensures c >= need && c >= cap
    ensures c == cap || c < 2 * need
    decreases need - cap
  {
    if cap >= need then cap else Doubled(2 * cap, need)
  }

  // The capacity after making room for need bytes, the terminator included.
  function Grown(cap: nat, need: nat): nat {
    if need <= cap then cap else Doubled(if cap == 0 then CHUNK else 2 * cap, need)
  }

  function Append(s: State, chunk: seq<Byte>): State {
    s.(data := s.data + chunk, cap := Grown(s.cap, |s.data| + |chunk| + 1))
  }

  // The read loop; when the results run out the next read would block.
  function ReadAll(s: State, results: seq<Read>): State
    decreases |results|
  {
    if results == [] then s
    else match results[0]
      case WouldBlock => s
      case ReadError => Clear(s)
      case EndOfFile => Clear(Publish(s))
      case Data(chunk) =>
        if |s.data| + |chunk| > CLIPBOARD_MAX then Clear(s) else ReadAll(Append(s, chunk), results[1..])
  }

  // clipboard_read_fd: hangup and error win over readable.
  function ReadFd(s: State, hangup: bool, readable: bool, results: seq<Read>): State {
    if hangup then Clear(Publish(s))
    else if readable then ReadAll(s, results)
    else s
  }

  // clipboard_export_wayland_source and its twin: without a text type nothing happens; with one
  // the previous export is dropped, and reading starts if the pipe and its source can be made.
  function StartExport(s: State, primary: bool, hasText: bool, pipeOk: bool, sourceOk: bool): State {
    if !hasText then s
    else Clear(s).(primary := primary, reading := pipeOk && sourceOk)
  }

  // ---- The buffer ----

  predicate BufferInv(s: State) {
    && |s.data| <= CLIPBOARD_MAX
    && (s.cap == 0 ==> s.data == [])
    && (s.cap > 0 ==> |s.data| < s.cap <= 2 * CLIPBOARD_MAX && TightlyGrown(s))
    && (!s.reading ==> s.data == [])
  }

  // One chunk, or less than twice the text and its terminator.
  predicate TightlyGrown(s: State) {
    s.cap == 4096 || 4096 < s.cap < 2 * (|s.data| + 1)
  }

  lemma AppendKeepsBuffer(s: State, chunk: seq<Byte>)
    requires BufferInv(s) && s.reading && |s.data| + |chunk| <= CLIPBOARD_MAX
    ensures BufferInv(Append(s, chunk))
  {
    DoublingBound(s.cap, |s.data| + |chunk| + 1);
  }

  lemma DoublingBound(cap: nat, need: nat)
    requires 0 < need <= CLIPBOARD_MAX + 1 && cap <= 2 * CLIPBOARD_MAX
    ensures need <= Grown(cap, need) <= 2 * CLIPBOARD_MAX
  {
    if need > cap {
      PowerCaps(if cap == 0 then CHUNK else 2 * cap, need);
    }
  }

  // Doubling stops no later than just past the need.
  lemma {:induction false} PowerCaps(cap: nat, need: nat)
    requires 0 < cap <= 2 * CLIPBOARD_MAX && need <= CLIPBOARD_MAX + 1
    ensures Doubled(cap, need) <= 2 * CLIPBOARD_MAX
    decreases need - cap
  {
    if cap < need {
      PowerCaps(2 * cap, need);
    }
  }

  lemma {:induction false} ReadAllKeepsBuffer(s: State, results: seq<Read>)
    requires BufferInv(s) && s.reading
    ensures BufferInv(ReadAll(s, results))
    decreases |results|
  {
    if results != [] && results[0].Data? && |s.data| + |results[0].chunk| <= CLIPBOARD_MAX {
      AppendKeepsBuffer(s, results[0].chunk);
      ReadAllKeepsBuffer(Append(s, results[0].chunk), results[1..]);
    }
  }

  // ---- The pipe ----

  // What the client wrote so far, what of it has not been read, and whether it has closed its
  // end.
  datatype Pipe = Pipe(written: seq<Byte>, unread: seq<Byte>, closed: bool)

  const NEW_PIPE: Pipe := Pipe([], [], false)

  // A read returns a non-empty piece of what is unread, at most a chunk; it would block only
  // when nothing is unread, and reports end of file only once the writer is gone as well.
  predicate Honest(p: Pipe, r: Read) {
    match r
    case Data(chunk) => 0 < |chunk| <= CHUNK && chunk <= p.unread
    case WouldBlock => p.unread == []
    case EndOfFile => p.unread == [] && p.closed
    case ReadError => true
  }

  function AfterRead(p: Pipe, r: Read): Pipe
    requires Honest(p, r)
  {
    if r.Data? then p.(unread := p.unread[|r.chunk|..]) else p
  }

  // What the reads of one poll return: pieces until the pipe is drained or something else comes
  // up. When the limit ends the loop early, the rest is what further reads would have returned.
  predicate AllHonest(p: Pipe, results: seq<Read>)
    decreases |results|
  {
    if results == [] then p.unread == []
    else
      && Honest(p, results[0])
      && if results[0].Data? then AllHonest(AfterRead(p, results[0]), results[1..]) else |results| == 1
  }

  function AfterReads(p: Pipe, results: seq<Read>): Pipe
    requires AllHonest(p, results)
    decreases |results|
  {
    if results == [] || !results[0].Data? then p else AfterReads(AfterRead(p, results[0]), results[1..])
  }

  datatype World = World(s: State, pipe: Pipe)

  datatype Event =
    | EvStart(primary: bool, hasText: bool, pipeOk: bool, sourceOk: bool)
    | EvWrite(bytes: seq<Byte>)
    | EvCloseWriter
    | EvPoll(hangup: bool, readable: bool, results: seq<Read>)

  // The event loop only polls while an export is being read, and only writers that have not
  // closed write.
  predicate Enabled(w: World, e: Event) {
    match e
    case EvStart(_, _, _, _) => true
    case EvWrite(_) => !w.pipe.closed
    case EvCloseWriter => true
    case EvPoll(hangup, readable, results) =>
      w.s.reading && (!hangup && readable ==> AllHonest(w.pipe, results))
  }

  function Step(w: World, e: Event): World
    requires Enabled(w, e)
  {
    match e
    case EvStart(primary, hasText, pipeOk, sourceOk) =>
      World(StartExport(w.s, primary, hasText, pipeOk, sourceOk), if hasText then NEW_PIPE else w.pipe)
    case EvWrite(bytes) =>
      w.(pipe := w.pipe.(written := w.pipe.written + bytes, unread := w.pipe.unread + bytes))
    case EvCloseWriter => w.(pipe := w.pipe.(closed := true))
    case EvPoll(hangup, readable, results) =>
      World(ReadFd(w.s, hangup, readable, results),
            if !hangup && readable then AfterReads(w.pipe, results) else w.pipe)
  }

  // The buffer is exactly what was read of the stream so far.
  predicate Inv(w: World) {
    && BufferInv(w.s)
    && (w.s.reading ==> w.pipe.written == w.s.data + w.pipe.unread)
  }

  // What a run of reads does to a reader that has taken everything before the unread part.
  lemma {:induction false} ReadAllFollowsPipe(s: State, p: Pipe, results: seq<Read>)
    requires BufferInv(s) && s.reading && p.written == s.data + p.unread
    requires AllHonest(p, results)
    ensures var s', p' := ReadAll(s, results), AfterReads(p, results);
            && p'.written == p.written
            && (s'.reading ==> p.written == s'.data + p'.unread && p'.unread == [])
            && (s'.clipOut != s.clipOut ==> s'.clipOut == Some(p.written))
            && (s'.priOut != s.priOut ==> s'.priOut == Some(p.written))
    decreases |results|
  {
    if results != [] {
      var r := results[0];
      if r.Data? {
        if |s.data| + |r.chunk| <= CLIPBOARD_MAX {
          AppendKeepsBuffer(s, r.chunk);
          assert p.unread == r.chunk + p.unread[|r.chunk|..];
          assert s.data + r.chunk + p.unread[|r.chunk|..] == p.written;
          ReadAllFollowsPipe(Append(s, r.chunk), AfterRead(p, r), results[1..]);
        } else {
          WrittenKept(AfterRead(p, r), results[1..]);
        }
      } else {
        assert r.EndOfFile? ==> s.data + p.unread == s.data;
      }
    }
  }

  lemma {:induction false} WrittenKept(p: Pipe, results: seq<Read>)
    requires AllHonest(p, results)
    ensures AfterReads(p, results).written == p.written
    decreases |results|
  {
    if results != [] && results[0].Data? {
      WrittenKept(AfterRead(p, results[0]), results[1..]);
    }
  }

  lemma StepKeeps(w: World, e: Event)
    requires Inv(w) && Enabled(w, e)
    ensures Inv(Step(w, e))
  {
    match e
    case EvPoll(hangup, readable, results) =>
      if !hangup && readable {
        ReadAllFollowsPipe(w.s, w.pipe, results);
        ReadAllKeepsBuffer(w.s, results);
      }
    case EvWrite(bytes) =>
      assert w.s.data + (w.pipe.unread + bytes) == w.s.data + w.pipe.unread + bytes;
    case EvStart(_, _, _, _) =>
    case EvCloseWriter =>
  }

  predicate Possible(w: World, es: seq<Event>)
    decreases |es|
  {
    es == [] || (Enabled(w, es[0]) && Possible(Step(w, es[0]), es[1..]))
  }

  function Run(w: World, es: seq<Event>): World
    requires Possible(w, es)
    decreases |es|
  {
    if es == [] then w else Run(Step(w, es[0]), es[1..])
  }

  const START: World := World(State(false, false, [], 0, None, None), NEW_PIPE)

  lemma {:induction false} RunKeeps(w: World, es: seq<Event>)
    requires Inv(w) && Possible(w, es)
    ensures Inv(Run(w, es))
    decreases |es|
  {
    if es != [] {
      StepKeeps(w, es[0]);
      RunKeeps(Step(w, es[0]), es[1..]);
    }
  }

  // ---- Theorems over runs ----

  // At any moment of any run the buffer is the part of the stream read since the export began,
  // within the limits.
  lemma BufferIsTheStream(es: seq<Event>)
    requires Possible(START, es)
    ensures var w := Run(START, es);
            && |w.s.data| <= CLIPBOARD_MAX
            && (w.s.cap > 0 ==> |w.s.data| < w.s.cap <= 2 * CLIPBOARD_MAX && TightlyGrown(w.s))
            && (w.s.reading ==> w.s.data + w.pipe.unread == w.pipe.written)
  {
    RunKeeps(START, es);
  }

  // ---- What a poll does, exactly ----

  // What the reads of a poll ended with.
  function Ending(results: seq<Read>): Read {
    if results == [] || results[|results| - 1].Data? then WouldBlock else results[|results| - 1]
  }

  // The text served for the selection being exported, and the other one.
  function Served(s: State): Option<seq<Byte>> {
    if s.primary then s.priOut else s.clipOut
  }

  function Other(s: State): Option<seq<Byte>> {
    if s.primary then s.clipOut else s.priOut
  }

  lemma EndingOfRest(results: seq<Read>)
    requires results != [] && results[0].Data?
    ensures Ending(results[1..]) == Ending(results)
  {
  }

  lemma {:induction false} ReadAllExactly(s: State, p: Pipe, results: seq<Read>)
    requires BufferInv(s) && s.reading && p.written == s.data + p.unread
    requires AllHonest(p, results)
    ensures var s' := ReadAll(s, results);
            && s'.primary == s.primary && Other(s') == Other(s)
            && AfterPoll(s, s', p.written, |s.data| + DataLength(results), Ending(results))
    decreases |results|
  {
    if results != [] {
      var r := results[0];
      if r.Data? {
        EndingOfRest(results);
        if |s.data| + |r.chunk| <= CLIPBOARD_MAX {
          AppendKeepsBuffer(s, r.chunk);
          assert p.unread == r.chunk + p.unread[|r.chunk|..];
          assert s.data + r.chunk + p.unread[|r.chunk|..] == p.written;
          ReadAllExactly(Append(s, r.chunk), AfterRead(p, r), results[1..]);
        }
      } else {
        assert p.unread == [] ==> s.data + p.unread == s.data;
      }
    } else {
      assert s.data + p.unread == s.data;
    }
  }

  // s' is where a poll leads whose reads bring the buffer to total bytes and end so.
  predicate AfterPoll(s: State, s': State, stream: seq<Byte>, total: nat, end: Read) {
    if total > 1024 * 1024 || end.ReadError? then !s'.reading && Served(s') == Served(s)
    else if end.EndOfFile? then !s'.reading && Served(s') == if stream == [] then Served(s) else Some(stream)
    else s'.reading && s'.data == stream && Served(s') == Served(s)
  }

  // In every run: a poll that passes the limit or fails ends the export and publishes nothing;
  // one that reads end of file ends it and serves the whole stream, if there was any; any other
  // leaves it going with everything written so far in the buffer. The other selection is never
  // touched.
  lemma PollExactly(es: seq<Event>, results: seq<Read>)
    requires Possible(START, es) && Enabled(Run(START, es), EvPoll(false, true, results))
    ensures var w := Run(START, es);
            var w' := Step(w, EvPoll(false, true, results));
            && w'.s.primary == w.s.primary && Other(w'.s) == Other(w.s)
            && AfterPoll(w.s, w'.s, w.pipe.written, |w.s.data| + DataLength(results), Ending(results))
  {
    RunKeeps(START, es);
    var w := Run(START, es);
    ReadAllExactly(w.s, w.pipe, results);
  }

  lemma {:induction false} DrainedLength(p: Pipe, results: seq<Read>)
    requires AllHonest(p, results) && !Ending(results).ReadError?
    ensures DataLength(results) == |p.unread|
    decreases |results|
  {
    if results != [] && results[0].Data? {
      EndingOfRest(results);
      DrainedLength(AfterRead(p, results[0]), results[1..]);
    }
  }

  // End of file serves the whole text of the client exactly if it has one and it is within the
  // limit; otherwise the text of before stays.
  lemma EndOfFileServesExactly(es: seq<Event>, results: seq<Read>)
    requires Possible(START, es) && Enabled(Run(START, es), EvPoll(false, true, results))
    requires Ending(results).EndOfFile?
    ensures var w := Run(START, es);
            var s' := Step(w, EvPoll(false, true, results)).s;
            && Served(s') == (if 0 < |w.pipe.written| <= 1024 * 1024 then Some(w.pipe.written) else Served(w.s))
            && Other(s') == Other(w.s) && !s'.reading
  {
    RunKeeps(START, es);
    PollExactly(es, results);
    DrainedLength(Run(START, es).pipe, results);
  }

  // The event ends the export.
  predicate Ends(w: World, e: Event) {
    && e.EvPoll?
    && (e.hangup || (e.readable && (|w.s.data| + DataLength(e.results) > 1024 * 1024 ||
                                    Ending(e.results).EndOfFile? || Ending(e.results).ReadError?)))
  }

  // In every run: an export is going on from a start that found a text type, a pipe and a source
  // to the first event that ends it or the next start that finds a text type, and it is for the
  // selection of its start. Only polls change what is served, and only for that selection.
  lemma ExportLivesExactly(es: seq<Event>, e: Event)
    requires Possible(START, es) && Enabled(Run(START, es), e)
    ensures var w := Run(START, es);
            var s' := Step(w, e).s;
            && (if e.EvStart? && e.hasText then s'.primary == e.primary && (s'.reading <==> e.pipeOk && e.sourceOk)
                else s'.primary == w.s.primary && (s'.reading <==> w.s.reading && !Ends(w, e)))
            && (if e.EvPoll? then Other(s') == Other(w.s) else s'.clipOut == w.s.clipOut && s'.priOut == w.s.priOut)
  {
    if e.EvPoll? && !e.hangup && e.readable {
      PollExactly(es, e.results);
    }
  }

  // A poll that leaves the export going has drained the pipe: only what was written since the
  // last poll can be left unread when a hangup comes.
  lemma PollDrains(es: seq<Event>, e: Event)
    requires Possible(START, es) && Enabled(Run(START, es), e)
    requires e.EvPoll? && !e.hangup && e.readable
    ensures var w' := Step(Run(START, es), e);
            w'.s.reading ==> w'.pipe.unread == [] && w'.s.data == w'.pipe.written
  {
    RunKeeps(START, es);
    var w := Run(START, es);
    ReadAllFollowsPipe(w.s, w.pipe, e.results);
  }

  // After a hangup the served text is the whole stream exactly when something had been read and
  // nothing was left unread, or nothing had been read and the text of before happens to be it.
  lemma HangupServesExactly(es: seq<Event>, e: Event)
    requires Possible(START, es) && Enabled(Run(START, es), e)
    requires e.EvPoll? && e.hangup
    ensures var w := Run(START, es);
            Served(Step(w, e).s) == Some(w.pipe.written) <==>
              if w.s.data != [] then w.pipe.unread == [] else Served(w.s) == Some(w.pipe.written)
  {
    RunKeeps(START, es);
    var w := Run(START, es);
    if w.s.data != [] {
      assert |w.pipe.written| == |w.s.data| + |w.pipe.unread|;
      assert w.pipe.unread == [] ==> w.s.data + w.pipe.unread == w.s.data;
    }
  }

  // Whatever an event publishes is a non-empty prefix of the stream, within the limit. Reading
  // up to end of file publishes all of it. A hangup publishes exactly what was read, so all of
  // it or less, and nothing if nothing was read.
  lemma PublishedIsPrefix(es: seq<Event>, e: Event)
    requires Possible(START, es) && Enabled(Run(START, es), e)
    ensures var w := Run(START, es);
            var s' := Step(w, e).s;
            && (s'.clipOut != w.s.clipOut ==> Published(w, e, s'.clipOut))
            && (s'.priOut != w.s.priOut ==> Published(w, e, s'.priOut))
            && (e.EvPoll? && e.hangup ==> Served(s') == if w.s.data == [] then Served(w.s) else Some(w.s.data))
  {
    RunKeeps(START, es);
    var w := Run(START, es);
    if e.EvPoll? {
      if e.hangup {
        assert w.s.data <= w.pipe.written;
      } else if e.readable {
        ReadAllFollowsPipe(w.s, w.pipe, e.results);
        PublishNeedsRoom(w.s, e.results);
      }
    }
  }

  ghost predicate Published(w: World, e: Event, text: Option<seq<Byte>>) {
    && e.EvPoll? && text.Some?
    && [] < text.value <= w.pipe.written
    && |text.value| <= CLIPBOARD_MAX
    && (if e.hangup then text.value == w.pipe.written <==> w.pipe.unread == [] else text.value == w.pipe.written)
  }

  lemma {:induction false} PublishNeedsRoom(s: State, results: seq<Read>)
    requires BufferInv(s) && s.reading
    ensures var s' := ReadAll(s, results);
            && (s'.clipOut != s.clipOut ==> s'.clipOut.Some? && 0 < |s'.clipOut.value| <= CLIPBOARD_MAX)
            && (s'.priOut != s.priOut ==> s'.priOut.Some? && 0 < |s'.priOut.value| <= CLIPBOARD_MAX)
    decreases |results|
  {
    if results != [] && results[0].Data? && |s.data| + |results[0].chunk| <= CLIPBOARD_MAX {
      AppendKeepsBuffer(s, results[0].chunk);
      PublishNeedsRoom(Append(s, results[0].chunk), results[1..]);
    }
  }

  // When the data of a poll would pass the limit, the export ends and nothing is published.
  lemma {:induction false} TooMuchPublishesNothing(s: State, results: seq<Read>)
    requires BufferInv(s) && s.reading
    requires |s.data| + DataLength(results) > CLIPBOARD_MAX
    ensures ReadAll(s, results) == Clear(s)
    decreases |results|
  {
    if results != [] && |s.data| + |results[0].chunk| <= CLIPBOARD_MAX {
      AppendKeepsBuffer(s, results[0].chunk);
      TooMuchPublishesNothing(Append(s, results[0].chunk), results[1..]);
    }
  }

  // The bytes delivered before the first result that is not data.
  function DataLength(results: seq<Read>): nat
    decreases |results|
  {
    if results == [] || !results[0].Data? then 0 else |results[0].chunk| + DataLength(results[1..])
  }

  // ---- What a hangup can cost ----

  lemma RunThree(w: World, a: Event, b: Event, c: Event)
    requires Enabled(w, a) && Enabled(Step(w, a), b) && Enabled(Step(Step(w, a), b), c)
    ensures Possible(w, [a, b, c]) && Run(w, [a, b, c]) == Step(Step(Step(w, a), b), c)
  {
    hide Step, Enabled;
    var es := [a, b, c];
    assert es[1..] == [b, c] && [b, c][1..] == [c] && [c][1..] == [];
    var v := Step(w, a);
    var u := Step(v, b);
    assert Possible(u, [c]) && Run(u, [c]) == Step(u, c);
    assert Possible(v, [b, c]) && Run(v, [b, c]) == Step(u, c);
  }

  const COPIED: Event := EvStart(false, true, true, true)

  // The client writes everything and goes before the first poll, which reports the hangup:
  // nothing is published, and the whole text is lost.
  lemma HangupCanLoseAll()
    ensures var es := [COPIED, EvWrite([65, 66]), EvCloseWriter];
            && Possible(START, es) && Run(START, es).pipe.written == [65, 66]
            && Enabled(Run(START, es), EvPoll(true, true, []))
            && var s' := Step(Run(START, es), EvPoll(true, true, [])).s; s'.clipOut == None && !s'.reading
  {
    RunThree(START, COPIED, EvWrite([65, 66]), EvCloseWriter);
  }

  lemma {:induction false} RunSplit(w: World, es: seq<Event>, fs: seq<Event>)
    requires Possible(w, es) && Possible(Run(w, es), fs)
    ensures Possible(w, es + fs) && Run(w, es + fs) == Run(Run(w, es), fs)
    decreases |es|
  {
    hide Step, Enabled;
    if es == [] {
      assert es + fs == fs;
    } else {
      assert (es + fs)[1..] == es[1..] + fs;
      RunSplit(Step(w, es[0]), es[1..], fs);
    }
  }

  lemma RunTwo(w: World, a: Event, b: Event)
    requires Enabled(w, a) && Enabled(Step(w, a), b)
    ensures Possible(w, [a, b]) && Run(w, [a, b]) == Step(Step(w, a), b)
  {
    hide Step, Enabled;
    var v := Step(w, a);
    assert [a, b][1..] == [b] && [b][1..] == [];
    var u := Step(v, b);
    assert Possible(u, []) && Run(u, []) == u;
    assert Possible(v, [b]) && Run(v, [b]) == u;
  }

  const FIRST_READ: Event := EvPoll(false, true, [Data([65])])

  // The rest is written after the last poll, and the hangup publishes a cut text.
  lemma HangupCanTruncate()
    ensures var es := [COPIED, EvWrite([65]), FIRST_READ] + [EvWrite([66]), EvCloseWriter];
            && Possible(START, es) && Run(START, es).pipe.written == [65, 66]
            && Enabled(Run(START, es), EvPoll(true, true, []))
            && Step(Run(START, es), EvPoll(true, true, [])).s.clipOut == Some([65])
  {
    var w := Step(Step(START, COPIED), EvWrite([65]));
    var rs: seq<Read> := [Data([65])];
    assert rs[1..] == [] && [65] <= w.pipe.unread && AfterRead(w.pipe, rs[0]).unread == [];
    assert AllHonest(AfterRead(w.pipe, rs[0]), []) && AllHonest(w.pipe, rs);
    var v := Step(w, FIRST_READ);
    assert ReadAll(Append(w.s, [65]), []) == Append(w.s, [65]);
    assert v.s.data == [65] && v.pipe == Pipe([65], [], false);
    RunThree(START, COPIED, EvWrite([65]), FIRST_READ);
    RunTwo(v, EvWrite([66]), EvCloseWriter);
    RunSplit(START, [COPIED, EvWrite([65]), FIRST_READ], [EvWrite([66]), EvCloseWriter]);
  }
}
