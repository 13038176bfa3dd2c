/** The host side of a session (host.go, with the terminal-state slot of
    config.go): the control-message dispatcher that drives the pty, the pty
    read pump, the one-way offer and answer handling and the teardown.

    The pty is a write log and its window size; the completion channel
    errChan is a single slot (see Common.Post); the data channel's Send is an
    append to a log of sent payloads.  Everything the operating system or
    the network answers is a parameter. */
module Host {
  import opened Common
  import opened Decimal
  import opened Json
  import Sd
  import Hex
  import Libraries
  import TenKbSite

  const Quit: seq<byte> := Bytes("quit")
  /** The two bytes `["` that open a JSON control message. */
  const Open: seq<byte> := [91, Quote]
  const StdinTag: seq<byte> := Bytes("stdin")
  const SetSizeTag: seq<byte> := Bytes("set_size")

  /** The error `Unmatched string message: "<payload>"`. */
  function UnmatchedError(d: seq<byte>): Error
  {
    Error(Bytes("Unmatched string message: \"") + d + Bytes("\""))
  }

  /** A string payload the dispatcher parses as a JSON array. */
  predicate IsArrayMessage(d: seq<byte>)
  {
    d != Quit && |d| > 2 && d[..2] == Open
  }

  /** What keeps the dispatcher from panicking: an array message must parse
      and have an element 0, a `stdin` message an element 1 and a
      `set_size` message elements 1 and 2.  (The source indexes msg[0],
      msg[1] and size[2] unchecked.) */
  predicate Dispatchable(p: Payload, parse: ArrayParser)
  {
    p.Text? && IsArrayMessage(p.data) ==>
      parse(p.data).Some? && |parse(p.data).value| >= 1 &&
      (Strings(parse(p.data).value)[0] == StdinTag ==> |parse(p.data).value| >= 2) &&
      (Strings(parse(p.data).value)[0] == SetSizeTag ==> |parse(p.data).value| >= 3)
  }

  // ------------------------------------------------------ the dispatcher

  datatype PtyState = PtyState(writes: seq<seq<byte>>, size: Winsize)

  /** What the pty calls return for one message: ptmx.Write's error,
      pty.GetsizeFull's error and pty.Setsize's error. */
  datatype PtyResults = PtyResults(writeErr: Option<Error>, getSizeErr: Option<Error>, setSizeErr: Option<Error>)

  const NoErrors: PtyResults := PtyResults(None, None, None)

  datatype Reaction = Reaction(pty: PtyState, slot: Option<Signal>)

  /** The window size after a `set_size` array: rows and columns from
      elements 1 and 2, X and Y from elements 3 and 4 only when present;
      each value cut to 16 bits. */
  function Resized(ws: Winsize, size: seq<int>): (r: Winsize)
    requires |size| >= 3
    ensures r.rows == ToU16(size[1]) && r.cols == ToU16(size[2])
    ensures |size| >= 5 ==> r.x == ToU16(size[3]) && r.y == ToU16(size[4])
    ensures |size| < 5 ==> r.x == ws.x && r.y == ws.y
  {
    var w := ws.(rows := ToU16(size[1]), cols := ToU16(size[2]));
    if |size| >= 5 then w.(x := ToU16(size[3]), y := ToU16(size[4])) else w
  }

  /** dataChannelOnMessage, once the pty is ready: what one payload does to
      the pty and to the completion slot. */
  function React(p: Payload, st: PtyState, slot: Option<Signal>, parse: ArrayParser, io: PtyResults): (r: Reaction)
    requires Dispatchable(p, parse)
    ensures slot.Some? ==> r.slot == slot
    ensures |st.writes| <= |r.pty.writes| <= |st.writes| + 1 && r.pty.writes[..|st.writes|] == st.writes
    ensures p.Binary? ==> r.pty.writes == st.writes + [p.data]
    ensures r.pty.size != st.size ==> p.Text? && IsArrayMessage(p.data) && io == PtyResults(io.writeErr, None, None)
  {
    match p
    case Binary(d) =>
      Reaction(st.(writes := st.writes + [d]), if io.writeErr.Some? then Post(slot, Failed(io.writeErr.value)) else slot)
    case Text(d) =>
      if d == Quit then Reaction(st, Post(slot, Graceful))
      else if IsArrayMessage(d) then
        var vs := parse(d).value;
        var msg := Strings(vs);
        if msg[0] == StdinTag then
          if msg[1] == [] then Reaction(st, slot) else Reaction(st.(writes := st.writes + [msg[1]]), slot)
        else if msg[0] == SetSizeTag then
          if io.getSizeErr.Some? then Reaction(st, Post(slot, Failed(io.getSizeErr.value)))
          else if io.setSizeErr.Some? then Reaction(st, Post(slot, Failed(io.setSizeErr.value)))
          else Reaction(st.(size := Resized(st.size, Ints(vs))), slot)
        else Reaction(st, Post(slot, Failed(UnmatchedError(d))))
      else Reaction(st, Post(slot, Failed(UnmatchedError(d))))
  }

  /** `"quit"` signals a graceful end and leaves the pty alone. */
  lemma QuitEnds(st: PtyState, slot: Option<Signal>, parse: ArrayParser, io: PtyResults)
    ensures React(Text(Quit), st, slot, parse, io) == Reaction(st, Post(slot, Graceful))
  {
  }

  /** A binary payload is written as it is; a write error is signalled. */
  lemma BinaryWritten(d: seq<byte>, st: PtyState, slot: Option<Signal>, parse: ArrayParser, io: PtyResults)
    ensures var r := React(Binary(d), st, slot, parse, io);
      r.pty == PtyState(st.writes + [d], st.size) &&
      r.slot == (if io.writeErr.Some? then Post(slot, Failed(io.writeErr.value)) else slot)
  {
  }

  /** A string that is neither `"quit"` nor opens with `["` is reported as
      unmatched, with the payload in the message; the pty is untouched. */
  lemma StrayTextUnmatched(d: seq<byte>, st: PtyState, slot: Option<Signal>, parse: ArrayParser, io: PtyResults)
    requires d != Quit && !HasPrefix(d, Open)
    ensures React(Text(d), st, slot, parse, io) == Reaction(st, Post(slot, Failed(UnmatchedError(d))))
  {
  }

  /** An array message whose first element is a string. */
  function Message(tag: seq<byte>, rest: seq<Value>): seq<byte>
  {
    ArrayText([JString(tag)] + rest)
  }

  /** Such a message is dispatched as an array, to the parse of its
      elements: the elements written, with their strings read back through
      Go's UTF-8 coercion. */
  lemma MessageIsArray(tag: seq<byte>, rest: seq<Value>, parse: ArrayParser)
    requires ReadsArrayText(parse)
    ensures IsArrayMessage(Message(tag, rest))
    ensures parse(Message(tag, rest)) == Some(CoerceValues([JString(tag)] + rest))
    ensures |parse(Message(tag, rest)).value| == 1 + |rest|
    ensures Strings(parse(Message(tag, rest)).value)[0] == Coerce(tag)
  {
    var d := Message(tag, rest);
    ArrayTextOpens(tag, rest);
    assert d[0] == 91;
    assert Quit[0] == 113;
  }

  /** The two tags are ASCII, so Go reads them back as they are. */
  lemma TagsKept()
    ensures Coerce(StdinTag) == StdinTag && Coerce(SetSizeTag) == SetSizeTag
  {
    AsciiTag(StdinTag);
    AsciiTag(SetSizeTag);
  }

  lemma AsciiTag(tag: seq<byte>)
    requires tag == StdinTag || tag == SetSizeTag
    ensures Coerce(tag) == tag
  {
    assert forall i :: 0 <= i < |tag| ==> tag[i] < 0x80;
    AsciiValid(tag);
  }

  /** An array whose tag, as Go reads it, is neither `stdin` nor `set_size`
      is reported as unmatched. */
  lemma UnknownTagUnmatched(tag: seq<byte>, rest: seq<Value>, st: PtyState, slot: Option<Signal>, parse: ArrayParser, io: PtyResults)
    requires ReadsArrayText(parse)
    requires Coerce(tag) != StdinTag && Coerce(tag) != SetSizeTag
    ensures Dispatchable(Text(Message(tag, rest)), parse)
    ensures React(Text(Message(tag, rest)), st, slot, parse, io) ==
      Reaction(st, Post(slot, Failed(UnmatchedError(Message(tag, rest)))))
  {
    MessageIsArray(tag, rest, parse);
  }

  /** `["stdin", s]` writes s as Go reads it back (each byte of s that does
      not open a valid UTF-8 encoding becomes U+FFFD), writes nothing for an
      empty s, and never signals: a write error is only logged.  Valid UTF-8
      is written exactly. */
  lemma StdinWritten(s: seq<byte>, st: PtyState, slot: Option<Signal>, parse: ArrayParser, io: PtyResults)
    requires ReadsArrayText(parse)
    ensures Dispatchable(Text(Message(StdinTag, [JString(s)])), parse)
    ensures React(Text(Message(StdinTag, [JString(s)])), st, slot, parse, io) ==
      Reaction(if s == [] then st else st.(writes := st.writes + [Coerce(s)]), slot)
    ensures ValidUtf8(s) ==>
      React(Text(Message(StdinTag, [JString(s)])), st, slot, parse, io) ==
        Reaction(if s == [] then st else st.(writes := st.writes + [s]), slot)
  {
    StdinParsed(s, parse);
    CoerceFixed(s);
  }

  /** The parse of a `stdin` message: the tag and the coerced keys. */
  lemma StdinParsed(s: seq<byte>, parse: ArrayParser)
    requires ReadsArrayText(parse)
    ensures var m := Message(StdinTag, [JString(s)]);
      IsArrayMessage(m) && parse(m).Some? && |parse(m).value| == 2 &&
      Strings(parse(m).value)[0] == StdinTag && Strings(parse(m).value)[1] == Coerce(s)
  {
    MessageIsArray(StdinTag, [JString(s)], parse);
    TagsKept();
    CoercedFields([JString(StdinTag)] + [JString(s)]);
  }

  /** The keystroke 0xFF, which is not UTF-8, reaches the pty as EF BF BD. */
  lemma InvalidStdinReplaced(s: seq<byte>, st: PtyState, slot: Option<Signal>, parse: ArrayParser, io: PtyResults)
    requires ReadsArrayText(parse)
    requires s == [0xFF]
    ensures Dispatchable(Text(Message(StdinTag, [JString(s)])), parse)
    ensures React(Text(Message(StdinTag, [JString(s)])), st, slot, parse, io) ==
      Reaction(st.(writes := st.writes + [[0xEF, 0xBF, 0xBD]]), slot)
  {
    InvalidBytesReplaced();
    StdinWritten(s, st, slot, parse, io);
  }

  /** `["set_size", r, c, ...]` with every element an integer: Rows and Cols
      become r and c and, with five elements, X and Y the last two, all cut
      to 16 bits; a GetsizeFull or Setsize error is signalled instead. */
  lemma SetSizeApplied(dims: seq<int>, st: PtyState, slot: Option<Signal>, parse: ArrayParser, io: PtyResults)
    requires ReadsArrayText(parse)
    requires |dims| >= 2
    requires forall i :: 0 <= i < |dims| ==> MinInt64 <= dims[i] <= MaxInt64
    ensures var d := Message(SetSizeTag, IntValues(dims));
      Dispatchable(Text(d), parse) &&
      React(Text(d), st, slot, parse, io) ==
        if io.getSizeErr.Some? then Reaction(st, Post(slot, Failed(io.getSizeErr.value)))
        else if io.setSizeErr.Some? then Reaction(st, Post(slot, Failed(io.setSizeErr.value)))
        else Reaction(st.(size := Resized(st.size, [0] + dims)), slot)
  {
    SetSizeMessageParses(dims, parse);
    ReactSetSize(Message(SetSizeTag, IntValues(dims)), [JString(SetSizeTag)] + IntValues(dims), st, slot, parse, io);
  }

  /** Such a message parses back to its tag and integers. */
  lemma SetSizeMessageParses(dims: seq<int>, parse: ArrayParser)
    requires ReadsArrayText(parse)
    requires |dims| >= 2
    requires forall i :: 0 <= i < |dims| ==> MinInt64 <= dims[i] <= MaxInt64
    ensures var vs := [JString(SetSizeTag)] + IntValues(dims);
      IsArrayMessage(Message(SetSizeTag, IntValues(dims))) &&
      parse(Message(SetSizeTag, IntValues(dims))) == Some(vs) &&
      |vs| >= 3 && Strings(vs)[0] == SetSizeTag && Ints(vs) == [0] + dims
  {
    MessageIsArray(SetSizeTag, IntValues(dims), parse);
    TagsKept();
    IntValuesKept(dims);
    assert CoerceValues([JString(SetSizeTag)] + IntValues(dims)) == [JString(SetSizeTag)] + IntValues(dims);
    IntsAfterTag(SetSizeTag, dims);
  }

  /** The integers read from a tag followed by 64-bit integers. */
  lemma IntsAfterTag(tag: seq<byte>, dims: seq<int>)
    requires forall i :: 0 <= i < |dims| ==> MinInt64 <= dims[i] <= MaxInt64
    ensures Ints([JString(tag)] + IntValues(dims)) == [0] + dims
  {
    var vs := [JString(tag)] + IntValues(dims);
    assert forall i :: 1 <= i < |vs| ==> vs[i] == JInt(dims[i - 1]);
  }

  /** An array message that parses to a `set_size` array of at least three
      elements resizes the pty to its integers, unless a pty call fails. */
  lemma ReactSetSize(d: seq<byte>, vs: seq<Value>, st: PtyState, slot: Option<Signal>, parse: ArrayParser, io: PtyResults)
    requires IsArrayMessage(d) && parse(d) == Some(vs) && |vs| >= 3 && Strings(vs)[0] == SetSizeTag
    ensures Dispatchable(Text(d), parse)
    ensures React(Text(d), st, slot, parse, io) ==
      if io.getSizeErr.Some? then Reaction(st, Post(slot, Failed(io.getSizeErr.value)))
      else if io.setSizeErr.Some? then Reaction(st, Post(slot, Failed(io.setSizeErr.value)))
      else Reaction(st.(size := Resized(st.size, Ints(vs))), slot)
  {
    TagsDiffer();
  }

  lemma TagsDiffer()
    ensures StdinTag != SetSizeTag
  {
    assert StdinTag[1] != SetSizeTag[1];
  }

  // ------------------------------------------------- a run of messages

  /** A sequence of payloads, each with its pty results. */
  function ReactAll(ps: seq<Payload>, ios: seq<PtyResults>, st: PtyState, slot: Option<Signal>, parse: ArrayParser): Reaction
    requires |ios| == |ps|
    requires forall i :: 0 <= i < |ps| ==> Dispatchable(ps[i], parse)
    decreases |ps|
  {
    if ps == [] then Reaction(st, slot)
    else
      var r := React(ps[0], st, slot, parse, ios[0]);
      ReactAll(ps[1..], ios[1..], r.pty, r.slot, parse)
  }

  /** Whatever follows, the first completion signal is the one reported. */
  lemma {:induction false} FirstSignalStays(ps: seq<Payload>, ios: seq<PtyResults>, st: PtyState, s: Signal, parse: ArrayParser)
    requires |ios| == |ps|
    requires forall i :: 0 <= i < |ps| ==> Dispatchable(ps[i], parse)
    ensures ReactAll(ps, ios, st, Some(s), parse).slot == Some(s)
    decreases |ps|
  {
    if ps != [] {
      var r := React(ps[0], st, Some(s), parse, ios[0]);
      FirstSignalStays(ps[1..], ios[1..], r.pty, s, parse);
    }
  }

  /** Binary payloads reach the pty in order and unchanged. */
  lemma {:induction false} BinaryRunWritten(ds: seq<seq<byte>>, ios: seq<PtyResults>, st: PtyState, slot: Option<Signal>, parse: ArrayParser)
    requires |ios| == |ds|
    ensures var ps := seq(|ds|, i requires 0 <= i < |ds| => Binary(ds[i]));
      ReactAll(ps, ios, st, slot, parse).pty == PtyState(st.writes + ds, st.size)
    decreases |ds|
  {
    var ps := seq(|ds|, i requires 0 <= i < |ds| => Binary(ds[i]));
    if ds != [] {
      var r := React(ps[0], st, slot, parse, ios[0]);
      BinaryRunWritten(ds[1..], ios[1..], r.pty, r.slot, parse);
      assert ps[1..] == seq(|ds[1..]|, i requires 0 <= i < |ds[1..]| => Binary(ds[1..][i]));
      assert st.writes + ds == st.writes + [ds[0]] + ds[1..];
    }
  }

  // ---------------------------------------------------- the read pump

  /** What one ptmx.Read returned: a chunk, io.EOF or another error. */
  datatype ReadResult = Chunk(data: seq<byte>) | Eof | ReadFailed(err: Error)

  /** One pass of the read loop: the read, then os.Stdout.Write's error and
      the data channel Send's error for the chunk. */
  datatype PumpStep = PumpStep(read: ReadResult, stdoutErr: Option<Error>, sendErr: Option<Error>)

  const BufSize: nat := 1024

  /** The pump's effects: stdout writes, sent payloads, the completion slot,
      and whether the loop has returned. */
  datatype Pumped = Pumped(stdout: seq<seq<byte>>, sent: seq<Payload>, slot: Option<Signal>, ended: bool)

  predicate ReadsFit(steps: seq<PumpStep>)
  {
    forall i :: 0 <= i < |steps| ==> steps[i].read.Chunk? ==> |steps[i].read.data| <= BufSize
  }

  /** One pass: EOF ends with nil, a read error with the error; a chunk is
      echoed to stdout unless non-interactive, then sent as binary; a
      failed echo or send ends with its error. */
  function PumpOnce(step: PumpStep, nonInteractive: bool, acc: Pumped): Pumped
  {
    match step.read
    case Eof => acc.(slot := Post(acc.slot, Graceful), ended := true)
    case ReadFailed(e) => acc.(slot := Post(acc.slot, Failed(e)), ended := true)
    case Chunk(d) =>
      if !nonInteractive && step.stdoutErr.Some? then
        acc.(stdout := acc.stdout + [d], slot := Post(acc.slot, Failed(step.stdoutErr.value)), ended := true)
      else
        var echoed := if nonInteractive then acc.stdout else acc.stdout + [d];
        if step.sendErr.Some? then
          acc.(stdout := echoed, sent := acc.sent + [Binary(d)], slot := Post(acc.slot, Failed(step.sendErr.value)), ended := true)
        else acc.(stdout := echoed, sent := acc.sent + [Binary(d)])
  }

  /** The loop over a script of reads; a script that runs out leaves the
      pump still running. */
  function Pump(steps: seq<PumpStep>, nonInteractive: bool, acc: Pumped): Pumped
    decreases |steps|
  {
    if steps == [] || acc.ended then acc
    else Pump(steps[1..], nonInteractive, PumpOnce(steps[0], nonInteractive, acc))
  }

  /** Clean passes only: chunks that are echoed and sent without error. */
  predicate AllClean(steps: seq<PumpStep>)
  {
    forall i :: 0 <= i < |steps| ==> steps[i].read.Chunk? && steps[i].stdoutErr.None? && steps[i].sendErr.None?
  }

  function Chunks(steps: seq<PumpStep>): (ds: seq<seq<byte>>)
    requires AllClean(steps)
    ensures |ds| == |steps|
    ensures forall i :: 0 <= i < |steps| ==> ds[i] == steps[i].read.data
  {
    seq(|steps|, i requires 0 <= i < |steps| => steps[i].read.data)
  }

  function AsBinary(ds: seq<seq<byte>>): (ps: seq<Payload>)
    ensures |ps| == |ds|
    ensures forall i :: 0 <= i < |ds| ==> ps[i] == Binary(ds[i])
  {
    seq(|ds|, i requires 0 <= i < |ds| => Binary(ds[i]))
  }

  /** Every chunk read is sent as binary, in order; it is echoed to stdout
      exactly when the host is interactive; nothing is signalled. */
  lemma {:induction false} CleanPumpForwards(steps: seq<PumpStep>, nonInteractive: bool, acc: Pumped)
    requires !acc.ended
    requires AllClean(steps)
    ensures Pump(steps, nonInteractive, acc) ==
      acc.(stdout := acc.stdout + (if nonInteractive then [] else Chunks(steps)),
           sent := acc.sent + AsBinary(Chunks(steps)))
    decreases |steps|
  {
    if steps != [] {
      var next := PumpOnce(steps[0], nonInteractive, acc);
      assert Pump(steps, nonInteractive, acc) == Pump(steps[1..], nonInteractive, next);
      CleanTail(steps);
      CleanPumpForwards(steps[1..], nonInteractive, next);
      CleanStepForwards(steps, nonInteractive, acc);
    }
  }

  /** The induction step of CleanPumpForwards: one clean pass, then the rest. */
  lemma CleanStepForwards(steps: seq<PumpStep>, nonInteractive: bool, acc: Pumped)
    requires steps != [] && AllClean(steps)
    ensures AllClean(steps[1..])
    ensures var next := PumpOnce(steps[0], nonInteractive, acc);
      next.(stdout := next.stdout + (if nonInteractive then [] else Chunks(steps[1..])),
            sent := next.sent + AsBinary(Chunks(steps[1..]))) ==
      acc.(stdout := acc.stdout + (if nonInteractive then [] else Chunks(steps)),
           sent := acc.sent + AsBinary(Chunks(steps)))
  {
    var d := steps[0].read.data;
    ChunksCons(steps);
    AsBinaryCons(d, Chunks(steps[1..]));
    if !nonInteractive {
      assert acc.stdout + [d] + Chunks(steps[1..]) == acc.stdout + Chunks(steps);
    }
    assert acc.sent + [Binary(d)] + AsBinary(Chunks(steps[1..])) == acc.sent + AsBinary(Chunks(steps));
  }

  lemma CleanTail(steps: seq<PumpStep>)
    requires steps != [] && AllClean(steps)
    ensures AllClean(steps[1..])
  {
    var tail := steps[1..];
    forall i | 0 <= i < |tail| ensures tail[i].read.Chunk? && tail[i].stdoutErr.None? && tail[i].sendErr.None? {
      assert tail[i] == steps[i + 1];
    }
  }

  lemma ChunksCons(steps: seq<PumpStep>)
    requires steps != [] && AllClean(steps)
    ensures AllClean(steps[1..]) && Chunks(steps) == [steps[0].read.data] + Chunks(steps[1..])
  {
    CleanTail(steps);
  }

  lemma AsBinaryCons(d: seq<byte>, ds: seq<seq<byte>>)
    ensures AsBinary([d] + ds) == [Binary(d)] + AsBinary(ds)
  {
  }

  /** Clean chunks followed by EOF: the same output, then a graceful end. */
  lemma CleanPumpThenEof(steps: seq<PumpStep>, last: PumpStep, nonInteractive: bool, acc: Pumped)
    requires !acc.ended && acc.slot.None?
    requires AllClean(steps)
    requires last.read.Eof?
    ensures Pump(steps + [last], nonInteractive, acc) ==
      Pumped(acc.stdout + (if nonInteractive then [] else Chunks(steps)),
             acc.sent + AsBinary(Chunks(steps)), Some(Graceful), true)
  {
    PumpSplit(steps, [last], nonInteractive, acc);
    CleanPumpForwards(steps, nonInteractive, acc);
  }

  /** Once the loop has returned, further reads are never made. */
  lemma EndedStays(rest: seq<PumpStep>, nonInteractive: bool, acc: Pumped)
    requires acc.ended
    ensures Pump(rest, nonInteractive, acc) == acc
  {
  }

  /** Clean chunks, then a pass that ends the loop: its effect on the clean
      output is the end result, and no later pass is made. */
  lemma CleanPumpThenStop(steps: seq<PumpStep>, last: PumpStep, rest: seq<PumpStep>, nonInteractive: bool, acc: Pumped)
    requires !acc.ended && AllClean(steps)
    requires PumpOnce(last, nonInteractive, acc).ended
    ensures var clean := acc.(stdout := acc.stdout + (if nonInteractive then [] else Chunks(steps)),
                              sent := acc.sent + AsBinary(Chunks(steps)));
      Pump(steps + [last] + rest, nonInteractive, acc) == PumpOnce(last, nonInteractive, clean)
  {
    var clean := acc.(stdout := acc.stdout + (if nonInteractive then [] else Chunks(steps)),
                      sent := acc.sent + AsBinary(Chunks(steps)));
    PumpSplit(steps + [last], rest, nonInteractive, acc);
    PumpSplit(steps, [last], nonInteractive, acc);
    CleanPumpForwards(steps, nonInteractive, acc);
    assert Pump([last], nonInteractive, clean) == PumpOnce(last, nonInteractive, clean);
    EndedStays(rest, nonInteractive, PumpOnce(last, nonInteractive, clean));
  }

  /** A read error other than EOF ends the pump with that error; nothing
      more is echoed or sent. */
  lemma CleanPumpThenReadFailure(steps: seq<PumpStep>, last: PumpStep, rest: seq<PumpStep>, nonInteractive: bool, acc: Pumped)
    requires !acc.ended && acc.slot.None?
    requires AllClean(steps)
    requires last.read.ReadFailed?
    ensures Pump(steps + [last] + rest, nonInteractive, acc) ==
      Pumped(acc.stdout + (if nonInteractive then [] else Chunks(steps)),
             acc.sent + AsBinary(Chunks(steps)), Some(Failed(last.read.err)), true)
  {
    CleanPumpThenStop(steps, last, rest, nonInteractive, acc);
  }

  /** An interactive host whose stdout write fails ends the pump with that
      error: the chunk it tried to echo is not sent, and nothing follows. */
  lemma CleanPumpThenEchoFailure(steps: seq<PumpStep>, last: PumpStep, rest: seq<PumpStep>, acc: Pumped)
    requires !acc.ended && acc.slot.None?
    requires AllClean(steps)
    requires last.read.Chunk? && last.stdoutErr.Some?
    ensures Pump(steps + [last] + rest, false, acc) ==
      Pumped(acc.stdout + Chunks(steps) + [last.read.data],
             acc.sent + AsBinary(Chunks(steps)), Some(Failed(last.stdoutErr.value)), true)
  {
    CleanPumpThenStop(steps, last, rest, false, acc);
  }

  /** A failed Send ends the pump with its error after that chunk was
      handed to the channel; no later chunk is read. */
  lemma CleanPumpThenSendFailure(steps: seq<PumpStep>, last: PumpStep, rest: seq<PumpStep>, nonInteractive: bool, acc: Pumped)
    requires !acc.ended && acc.slot.None?
    requires AllClean(steps)
    requires last.read.Chunk? && (nonInteractive || last.stdoutErr.None?) && last.sendErr.Some?
    ensures Pump(steps + [last] + rest, nonInteractive, acc) ==
      Pumped(acc.stdout + (if nonInteractive then [] else Chunks(steps) + [last.read.data]),
             acc.sent + AsBinary(Chunks(steps)) + [Binary(last.read.data)], Some(Failed(last.sendErr.value)), true)
  {
    CleanPumpThenStop(steps, last, rest, nonInteractive, acc);
    if !nonInteractive {
      assert acc.stdout + Chunks(steps) + [last.read.data] == acc.stdout + (Chunks(steps) + [last.read.data]);
    }
  }

  lemma {:induction false} PumpSplit(a: seq<PumpStep>, b: seq<PumpStep>, nonInteractive: bool, acc: Pumped)
    ensures Pump(a + b, nonInteractive, acc) == Pump(b, nonInteractive, Pump(a, nonInteractive, acc))
    decreases |a|
  {
    if a != [] && !acc.ended {
      assert (a + b)[1..] == a[1..] + b;
      PumpSplit(a[1..], b, nonInteractive, PumpOnce(a[0], nonInteractive, acc));
    } else if a == [] {
      assert a + b == b;
    } else {
      assert Pump(a, nonInteractive, acc) == acc;
      if b != [] {
        assert a + b != [];
      }
    }
  }

  /** Every payload fits the 1024-byte read buffer. */
  predicate SentFit(sent: seq<Payload>)
  {
    forall i :: 0 <= i < |sent| ==> |sent[i].data| <= BufSize
  }

  /** No sent payload is longer than the 1024-byte read buffer. */
  lemma {:induction false} PumpSendsBufferSized(steps: seq<PumpStep>, nonInteractive: bool, acc: Pumped)
    requires ReadsFit(steps)
    requires SentFit(acc.sent)
    ensures SentFit(Pump(steps, nonInteractive, acc).sent)
    decreases |steps|
  {
    if steps != [] && !acc.ended {
      var next := PumpOnce(steps[0], nonInteractive, acc);
      assert SentFit(next.sent) by {
        if steps[0].read.Chunk? {
          assert |steps[0].read.data| <= BufSize;
        }
      }
      var tail := steps[1..];
      assert ReadsFit(tail) by {
        forall i | 0 <= i < |tail| ensures tail[i].read.Chunk? ==> |tail[i].read.data| <= BufSize {
          assert tail[i] == steps[i + 1];
        }
      }
      PumpSendsBufferSized(tail, nonInteractive, next);
    }
  }

  // ------------------------------------------------------- hostConfig

  /** Where the one-way answer stands after polling: decrypted, failed, or
      not yet uploaded. */
  datatype Answer = Got(sd: Sd.SessionDescription) | NoAnswer(err: Error) | NotYet

  /** run's one-way branch: the body of the polled reply is decoded, given
      the offer's Key and Nonce, and decrypted. */
  function OneWayAnswer(c: Sd.Codecs, offer: Sd.SessionDescription, replies: seq<TenKbSite.HttpReply>): (r: Answer)
    requires Sd.NonceFits(offer)
    ensures r.Got? ==> r.sd.key == offer.key && r.sd.nonce == offer.nonce
  {
    match TenKbSite.PollSpec(replies)
    case StillPolling => NotYet
    case Answered(body, err, _) =>
      if err.Some? then NoAnswer(err.value)
      else match Sd.Decode(c, body)
        case Err(e) => NoAnswer(e)
        case Ok(a) =>
          var m := Sd.Decrypt(c, a.(key := offer.key, nonce := offer.nonce));
          if m.err.Some? then NoAnswer(m.err.value) else Got(m.sd)
  }

  /** What run prints for the user to paste: the encoded offer and a blank
      line. */
  function OfferText(c: Sd.Codecs, offer: Sd.SessionDescription): seq<byte>
  {
    Sd.Encode(c, offer) + [10, 10]
  }

  /** The printed text, without its blank line, is what the peer pastes:
      it decodes back to the offer. */
  lemma PrintedOfferDecodes(c: Sd.Codecs, offer: Sd.SessionDescription)
    requires Sd.Sound(c)
    requires Libraries.IsAscii(offer.tenKbSiteLoc) && Libraries.IsAscii(offer.key) && Libraries.IsAscii(offer.nonce)
    ensures var t := OfferText(c, offer);
      |t| >= 2 && t[|t| - 2..] == [10, 10] && Sd.Decode(c, t[..|t| - 2]) == Ok(offer)
  {
    var t := OfferText(c, offer);
    assert t[..|t| - 2] == Sd.Encode(c, offer);
    Sd.DecodeEncode(c, offer);
  }

  /** How far run gets before it blocks on errChan. */
  datatype RunOutcome = Stopped(err: Error) | Waiting | Polling

  class HostConfig {
    var ptmxReady: bool
    var pty: PtyState
    var completion: Option<Signal>
    var sent: seq<Payload>
    var stdout: seq<seq<byte>>
    var oldTerminalState: Option<TermState>
    var restores: seq<TermState>
    var offer: Sd.SessionDescription
    var answer: Sd.SessionDescription
    var remoteSdp: Option<seq<byte>>
    var hasChannel: bool
    var isTerminal: bool
    const nonInteractive: bool
    const oneWay: bool

    constructor (nonInteractive: bool, oneWay: bool)
      ensures !ptmxReady && completion.None? && sent == [] && stdout == [] && restores == []
      ensures oldTerminalState.None? && remoteSdp.None? && !hasChannel
      ensures this.nonInteractive == nonInteractive && this.oneWay == oneWay
    {
      ptmxReady := false;
      pty := PtyState([], Winsize(0, 0, 0, 0));
      completion := None;
      sent := [];
      stdout := [];
      oldTerminalState := None;
      restores := [];
      offer := Sd.SessionDescription([], [], [], []);
      answer := Sd.SessionDescription([], [], [], []);
      remoteSdp := None;
      hasChannel := false;
      isTerminal := false;
      this.nonInteractive := nonInteractive;
      this.oneWay := oneWay;
    }

    /** `hc.errChan <- s`. */
    method Signal(s: Signal)
      modifies this`completion
      ensures completion == Post(old(completion), s)
    {
      if completion.None? {
        completion := Some(s);
      }
    }

    /** onDataChannel: the channel is recorded. */
    method OnDataChannel()
      modifies this`hasChannel
      ensures hasChannel
    {
      hasChannel := true;
    }

    /** dataChannelOnMessage.  The source busy-waits until ptmxReady; here
        no message is dispatched before it holds. */
    method OnMessage(p: Payload, parse: ArrayParser, io: PtyResults)
      requires ptmxReady
      requires Dispatchable(p, parse)
      modifies this`pty, this`completion
      ensures Reaction(pty, completion) == React(p, old(pty), old(completion), parse, io)
    {
      match p {
        case Binary(d) =>
          pty := pty.(writes := pty.writes + [d]);
          if io.writeErr.Some? {
            Signal(Failed(io.writeErr.value));
          }
        case Text(d) =>
          if d == Quit {
            Signal(Graceful);
            return;
          }
          if |d| > 2 && d[..2] == Open {
            var msg := Strings(parse(d).value);
            if msg[0] == StdinTag {
              if |msg[1]| == 0 {
                return;
              }
              pty := pty.(writes := pty.writes + [msg[1]]);
              return;
            }
            if msg[0] == SetSizeTag {
              var size := Ints(parse(d).value);
              if io.getSizeErr.Some? {
                Signal(Failed(io.getSizeErr.value));
                return;
              }
              var ws := pty.size;
              ws := ws.(rows := ToU16(size[1]), cols := ToU16(size[2]));
              if |size| >= 5 {
                ws := ws.(x := ToU16(size[3]), y := ToU16(size[4]));
              }
              if io.setSizeErr.Some? {
                Signal(Failed(io.setSizeErr.value));
              } else {
                pty := pty.(size := ws);
              }
              return;
            }
          }
          Signal(Failed(UnmatchedError(d)));
      }
    }

    /** The read loop of dataChannelOnOpen over a script of reads. */
    method ReadPump(steps: seq<PumpStep>)
      modifies this`stdout, this`sent, this`completion
      ensures Pumped(stdout, sent, completion, false) ==
        Pump(steps, nonInteractive, Pumped(old(stdout), old(sent), old(completion), false)).(ended := false)
    {
      var i := 0;
      var ended := false;
      while i < |steps| && !ended
        invariant 0 <= i <= |steps|
        invariant Pump(steps, nonInteractive, Pumped(old(stdout), old(sent), old(completion), false)) ==
          Pump(steps[i..], nonInteractive, Pumped(stdout, sent, completion, ended))
        decreases |steps| - i
      {
        var step := steps[i];
        match step.read {
          case Eof =>
            Signal(Graceful);
            ended := true;
          case ReadFailed(e) =>
            Signal(Failed(e));
            ended := true;
          case Chunk(d) =>
            if !nonInteractive {
              stdout := stdout + [d];
              if step.stdoutErr.Some? {
                Signal(Failed(step.stdoutErr.value));
                ended := true;
              }
            }
            if !ended {
              sent := sent + [Binary(d)];
              if step.sendErr.Some? {
                Signal(Failed(step.sendErr.value));
                ended := true;
              }
            }
        }
        i := i + 1;
      }
    }

    /** config.go makeRawTerminal: the slot takes what MakeRaw returned (no
        state when it failed). */
    method MakeRawTerminal(raw: Result<TermState>) returns (err: Option<Error>)
      modifies this`oldTerminalState
      ensures oldTerminalState == (if raw.Ok? then Some(raw.value) else None)
      ensures err == (if raw.Err? then Some(raw.error) else None)
    {
      if raw.Ok? {
        oldTerminalState := Some(raw.value);
        err := None;
      } else {
        oldTerminalState := None;
        err := Some(raw.error);
      }
    }

    /** config.go restoreTerminalState: nothing without a saved state;
        otherwise the saved state is restored and Restore's error returned. */
    method RestoreTerminalState(restoreErr: Option<Error>) returns (err: Option<Error>)
      modifies this`restores
      ensures oldTerminalState.None? ==> err.None? && restores == old(restores)
      ensures oldTerminalState.Some? ==> err == restoreErr && restores == old(restores) + [oldTerminalState.value]
    {
      if oldTerminalState.None? {
        return None;
      }
      restores := restores + [oldTerminalState.value];
      return restoreErr;
    }

    /** makeRawTerminal then restoreTerminalState: the state restored is
        the one that raw-mode call saved. */
    method RawThenRestore(raw: TermState, restoreErr: Option<Error>) returns (err: Option<Error>)
      modifies this`oldTerminalState, this`restores
      ensures oldTerminalState == Some(raw)
      ensures restores == old(restores) + [raw] && err == restoreErr
    {
      var _ := MakeRawTerminal(Ok(raw));
      err := RestoreTerminalState(restoreErr);
    }

    /** dataChannelOnOpen: start the command on a fresh pty (an error is
        signalled and the pty never becomes ready); unless non-interactive,
        put the terminal in raw mode (an error is signalled and the pump
        never starts); then run the read pump.  The goroutines it starts
        beside the pump, io.Copy of the host's own stdin into the pty and
        the SIGINT handler, are not part of this model. */
    method OnOpen(spawnErr: Option<Error>, initial: Winsize, raw: Result<TermState>, steps: seq<PumpStep>)
      modifies this`ptmxReady, this`pty, this`completion, this`oldTerminalState, this`stdout, this`sent
      ensures spawnErr.Some? ==>
        ptmxReady == old(ptmxReady) && completion == Post(old(completion), Failed(spawnErr.value)) &&
        pty == old(pty) && stdout == old(stdout) && sent == old(sent) && oldTerminalState == old(oldTerminalState)
      ensures spawnErr.None? ==> ptmxReady && pty == PtyState([], initial)
      ensures spawnErr.None? && !nonInteractive ==> oldTerminalState == (if raw.Ok? then Some(raw.value) else None)
      ensures spawnErr.None? && nonInteractive ==> oldTerminalState == old(oldTerminalState)
      ensures spawnErr.None? && !nonInteractive && raw.Err? ==>
        completion == Post(old(completion), Failed(raw.error)) && stdout == old(stdout) && sent == old(sent)
      ensures spawnErr.None? && (nonInteractive || raw.Ok?) ==>
        Pumped(stdout, sent, completion, false) ==
          Pump(steps, nonInteractive, Pumped(old(stdout), old(sent), old(completion), false)).(ended := false)
    {
      if spawnErr.Some? {
        Signal(Failed(spawnErr.value));
        return;
      }
      pty := PtyState([], initial);
      ptmxReady := true;
      if !nonInteractive {
        var err := MakeRawTerminal(raw);
        if err.Some? {
          Signal(Failed(err.value));
          return;
        }
      }
      ReadPump(steps);
    }

    /** createOffer: the completion slot is made, the offer carries the
        peer connection's Sdp, and in one-way mode it gets fresh keys, an
        encrypted Sdp and a random 100-character relay path.  The errors of
        GenKeys and Encrypt are ignored, as in the source.  (crypto/rand
        failing after it delivered the key would make Encrypt panic on the
        empty nonce; that case is excluded.) */
    method CreateOffer(c: Sd.Codecs, pcErr: Option<Error>, created: Result<seq<byte>>,
                       keyRead: Result<seq<byte>>, nonceRead: Result<seq<byte>>, picks: seq<int>)
      returns (err: Option<Error>)
      requires keyRead.Ok? ==> |keyRead.value| == Sd.KeyBytes && nonceRead.Ok?
      requires nonceRead.Ok? ==> |nonceRead.value| == Libraries.NonceSize
      requires |picks| == 100 && forall i :: 0 <= i < |picks| ==> 0 <= picks[i] < 62
      modifies this`completion, this`offer
      ensures pcErr.Some? ==> err == pcErr && offer == old(offer) && completion == old(completion)
      ensures pcErr.None? ==> completion.None?
      ensures pcErr.None? && created.Err? ==> err == Some(created.error) && offer == old(offer)
      ensures err.None? ==> pcErr.None? && created.Ok? && Sd.NonceFits(offer)
      ensures pcErr.None? && created.Ok? ==> err.None?
      ensures err.None? && !oneWay ==> offer == Sd.SessionDescription(created.value, [], [], [])
      ensures err.None? && oneWay && keyRead.Ok? ==>
        Hex.Decode(offer.key) == Ok(keyRead.value) && Hex.Decode(offer.nonce) == Ok(nonceRead.value) &&
        |offer.key| == 64 && |offer.nonce| == 24 &&
        offer.sdp == Hex.Encode(c.aead.seal(keyRead.value, nonceRead.value, created.value))
      ensures err.None? && oneWay && keyRead.Err? ==>
        offer.sdp == created.value && offer.key == [] && offer.nonce == []
      ensures err.None? && oneWay ==>
        |offer.tenKbSiteLoc| == 100 && forall i :: 0 <= i < 100 ==> TenKbSite.IsAlphanumeric(offer.tenKbSiteLoc[i])
    {
      if pcErr.Some? {
        return pcErr;
      }
      completion := None;
      if created.Err? {
        return Some(created.error);
      }
      offer := Sd.SessionDescription(created.value, [], [], []);
      if oneWay {
        var g := Sd.GenKeys(offer, keyRead, nonceRead);
        offer := g.sd;
        if keyRead.Ok? {
          Sd.GenKeysThenEncrypt(c, Sd.SessionDescription(created.value, [], [], []), keyRead.value, nonceRead.value);
        }
        var e := Sd.Encrypt(c, offer);
        offer := e.sd;
        var loc := TenKbSite.RandSeq(100, picks);
        offer := offer.(tenKbSiteLoc := loc);
      }
      return None;
    }

    /** setHostRemoteDescriptionAndWait, up to the wait: the answer's Sdp
        becomes the remote description. */
    method SetHostRemoteDescription(setErr: Option<Error>) returns (outcome: RunOutcome)
      modifies this`remoteSdp
      ensures remoteSdp == Some(answer.sdp)
      ensures outcome == (if setErr.Some? then Stopped(setErr.value) else Waiting)
    {
      remoteSdp := Some(answer.sdp);
      if setErr.Some? {
        return Stopped(setErr.value);
      }
      return Waiting;
    }

    /** setHostRemoteDescriptionAndWait, after errChan delivered: `"quit"`
        is sent when a data channel exists, the terminal is restored when
        stdin is a terminal (a restore error is only logged), and the
        delivered error is returned. */
    method AfterWait(restoreErr: Option<Error>) returns (err: Option<Error>)
      requires completion.Some?
      modifies this`completion, this`sent, this`restores
      ensures err == (if old(completion).value.Failed? then Some(old(completion).value.err) else None)
      ensures completion.None?
      ensures sent == old(sent) + (if hasChannel then [Text(Quit)] else [])
      ensures restores == old(restores) + (if isTerminal && oldTerminalState.Some? then [oldTerminalState.value] else [])
    {
      var delivered := completion.value;
      completion := None;
      err := if delivered.Failed? then Some(delivered.err) else None;
      if hasChannel {
        sent := sent + [Text(Quit)];
      }
      if isTerminal {
        var _ := RestoreTerminalState(restoreErr);
      }
    }

    /** run's one-way branch: the relay is polled, and the reply decoded and
        decrypted with the offer's Key and Nonce into the answer. */
    method ReceiveAnswer(c: Sd.Codecs, replies: seq<TenKbSite.HttpReply>) returns (got: Answer)
      requires Sd.NonceFits(offer)
      modifies this`answer
      ensures got == OneWayAnswer(c, offer, replies)
      ensures got.Got? ==> answer == got.sd
    {
      var polled := TenKbSite.PollForResponse(replies);
      if polled.StillPolling? {
        return NotYet;
      }
      if polled.err.Some? {
        return NoAnswer(polled.err.value);
      }
      var decoded := Sd.Decode(c, polled.body);
      if decoded.Err? {
        return NoAnswer(decoded.error);
      }
      answer := decoded.value;
      answer := answer.(key := offer.key, nonce := offer.nonce);
      var m := Sd.Decrypt(c, answer);
      if m.err.Some? {
        return NoAnswer(m.err.value);
      }
      answer := m.sd;
      return Got(m.sd);
    }

    /** run, up to the wait on errChan.  Two-way: the answer's Sdp is the
        Sdp of the description pasted on stdin.  One-way: the relay is
        polled and the answer decoded and decrypted with the offer's Key and
        Nonce. */
    method Run(c: Sd.Codecs, isTerm: bool, pcErr: Option<Error>, created: Result<seq<byte>>,
               keyRead: Result<seq<byte>>, nonceRead: Result<seq<byte>>, picks: seq<int>,
               pasted: seq<byte>, replies: seq<TenKbSite.HttpReply>, setErr: Option<Error>)
      returns (outcome: RunOutcome)
      requires keyRead.Ok? ==> |keyRead.value| == Sd.KeyBytes && nonceRead.Ok?
      requires nonceRead.Ok? ==> |nonceRead.value| == Libraries.NonceSize
      requires |picks| == 100 && forall i :: 0 <= i < |picks| ==> 0 <= picks[i] < 62
      modifies this`isTerminal, this`completion, this`offer, this`answer, this`remoteSdp, this`stdout
      ensures isTerminal == isTerm
      ensures pcErr.None? && created.Ok? ==> stdout == old(stdout) + [OfferText(c, offer)]
      ensures !(pcErr.None? && created.Ok?) ==> stdout == old(stdout)
      ensures outcome.Waiting? ==> remoteSdp == Some(answer.sdp) && setErr.None?
      ensures outcome.Waiting? && !oneWay ==>
        Sd.Decode(c, pasted).Ok? && answer.sdp == Sd.Decode(c, pasted).value.sdp
      ensures outcome.Waiting? && oneWay ==>
        Sd.NonceFits(offer) && OneWayAnswer(c, offer, replies) == Got(answer)
      ensures outcome.Polling? ==> oneWay && Sd.NonceFits(offer) && OneWayAnswer(c, offer, replies).NotYet?
      ensures pcErr.Some? ==> outcome == Stopped(pcErr.value)
      ensures pcErr.None? && created.Err? ==> outcome == Stopped(created.error)
      ensures pcErr.None? && created.Ok? && !oneWay ==>
        outcome == (if Sd.Decode(c, pasted).Err? then Stopped(Sd.Decode(c, pasted).error)
                    else if setErr.Some? then Stopped(setErr.value) else Waiting)
      ensures pcErr.None? && created.Ok? && oneWay ==>
        Sd.NonceFits(offer) &&
        outcome == match OneWayAnswer(c, offer, replies)
                   case NotYet => Polling
                   case NoAnswer(e) => Stopped(e)
                   case Got(_) => if setErr.Some? then Stopped(setErr.value) else Waiting
    {
      isTerminal := isTerm;
      var err := CreateOffer(c, pcErr, created, keyRead, nonceRead, picks);
      if err.Some? {
        return Stopped(err.value);
      }
      stdout := stdout + [OfferText(c, offer)];
      if !oneWay {
        var decoded := Sd.Decode(c, pasted);
        if decoded.Err? {
          return Stopped(decoded.error);
        }
        answer := answer.(sdp := decoded.value.sdp);
      } else {
        var got := ReceiveAnswer(c, replies);
        if got.NotYet? {
          return Polling;
        }
        if got.NoAnswer? {
          return Stopped(got.err);
        }
      }
      outcome := SetHostRemoteDescription(setErr);
    }
  }
}
