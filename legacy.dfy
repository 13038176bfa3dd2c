/** The first version of the program (main.go): a host dispatcher that also
    understands the textual `size,R,C,X,Y` message, the client that sends
    it, the client handler that ignores unknown strings, and the offer codec
    of a bare Sdp (base64 of its zlib stream, no JSON). */
module Legacy {
  import opened Common
  import opened Decimal
  import opened Json
  import opened Libraries
  import Host
  import Client
  import OfferCodec
  import Base64

  const SizeTag: seq<byte> := Bytes("size")

  /** A string the `size` branch parses: longer than four bytes and
      starting with `size`.  The fifth byte is skipped unread. */
  predicate IsSizeMessage(d: seq<byte>)
  {
    |d| > 4 && d[..4] == SizeTag
  }

  /** The fields after `size` and its separator. */
  function Coords(d: seq<byte>): seq<seq<byte>>
    requires IsSizeMessage(d)
  {
    Split(d[5..], Comma)
  }

  /** A string the array branch parses. */
  predicate OpensArray(d: seq<byte>)
  {
    |d| > 2 && d[..2] == Host.Open
  }

  /** What keeps the handler from panicking: at most four `size` fields
      (out[i] of a [4]int), and for arrays what the newer dispatcher needs
      too (msg[0], msg[1] for stdin, size[2] for set_size). */
  predicate Dispatchable(p: Payload, parse: ArrayParser)
  {
    p.Text? ==>
      (IsSizeMessage(p.data) ==> |Coords(p.data)| <= 4) &&
      Host.Dispatchable(p, parse)
  }

  // ------------------------------------------------- the size fields

  /** out after the loop: field i is Atoi's value of the i-th coordinate
      (0 on a syntax error), and 0 where there is no coordinate. */
  function SizeValues(coords: seq<seq<byte>>): (r: seq<int>)
    requires |coords| <= 4
    ensures |r| == 4
    ensures forall i :: 0 <= i < |coords| ==> r[i] == Atoi(coords[i]).value
    ensures forall i :: |coords| <= i < 4 ==> r[i] == 0
  {
    seq(4, i requires 0 <= i < 4 => if i < |coords| then Atoi(coords[i]).value else 0)
  }

  lemma SizeValuesSnoc(coords: seq<seq<byte>>, i: nat)
    requires i < |coords| <= 4
    ensures SizeValues(coords[..i + 1]) == SizeValues(coords[..i])[i := Atoi(coords[i]).value]
  {
    var a, b := SizeValues(coords[..i + 1]), SizeValues(coords[..i])[i := Atoi(coords[i]).value];
    assert forall k :: 0 <= k < 4 ==> a[k] == b[k];
  }

  /** The errors among the results, in order. */
  function Somes(errs: seq<Option<Error>>): seq<Error>
    decreases |errs|
  {
    if errs == [] then []
    else
      var last := errs[|errs| - 1];
      Somes(errs[..|errs| - 1]) + (if last.Some? then [last.value] else [])
  }

  /** Atoi's error for each coordinate. */
  function FieldErrors(coords: seq<seq<byte>>): (e: seq<Option<Error>>)
    ensures |e| == |coords|
    ensures forall i :: 0 <= i < |coords| ==> e[i] == Atoi(coords[i]).err
  {
    seq(|coords|, i requires 0 <= i < |coords| => Atoi(coords[i]).err)
  }

  /** The Atoi errors of the coordinates, in order. */
  function SizeErrors(coords: seq<seq<byte>>): seq<Error>
  {
    Somes(FieldErrors(coords))
  }

  lemma SizeErrorsSnoc(coords: seq<seq<byte>>, i: nat)
    requires i < |coords|
    ensures SizeErrors(coords[..i + 1]) ==
      SizeErrors(coords[..i]) + (if Atoi(coords[i]).err.Some? then [Atoi(coords[i]).err.value] else [])
  {
    var e := FieldErrors(coords[..i + 1]);
    assert e[..i] == FieldErrors(coords[..i]);
  }

  /** Sending each error on errChan in turn. */
  function PostAll(slot: Option<Signal>, errs: seq<Error>): (r: Option<Signal>)
    ensures slot.Some? ==> r == slot
    decreases |errs|
  {
    if errs == [] then slot else Post(PostAll(slot, errs[..|errs| - 1]), Failed(errs[|errs| - 1]))
  }

  lemma PostAllSnoc(slot: Option<Signal>, errs: seq<Error>, more: seq<Error>)
    requires |more| <= 1
    ensures PostAll(slot, errs + more) ==
      if more == [] then PostAll(slot, errs) else Post(PostAll(slot, errs), Failed(more[0]))
  {
    if more == [] {
      assert errs + more == errs;
    } else {
      assert (errs + more)[..|errs|] == errs;
    }
  }

  /** One more coordinate: its error, if any, is sent after the others. */
  lemma StepPosts(slot: Option<Signal>, coords: seq<seq<byte>>, i: nat)
    requires i < |coords|
    ensures PostAll(slot, SizeErrors(coords[..i + 1])) ==
      if Atoi(coords[i]).err.Some? then Post(PostAll(slot, SizeErrors(coords[..i])), Failed(Atoi(coords[i]).err.value))
      else PostAll(slot, SizeErrors(coords[..i]))
  {
    SizeErrorsSnoc(coords, i);
    PostAllSnoc(slot, SizeErrors(coords[..i]), if Atoi(coords[i]).err.Some? then [Atoi(coords[i]).err.value] else []);
  }

  /** The first error sent is the one delivered. */
  lemma {:induction false} PostAllFirst(slot: Option<Signal>, errs: seq<Error>)
    ensures PostAll(slot, errs) ==
      if slot.Some? then slot else if errs == [] then None else Some(Failed(errs[0]))
    decreases |errs|
  {
    if errs != [] {
      var init := errs[..|errs| - 1];
      PostAllFirst(slot, init);
      if init != [] {
        assert init[0] == errs[0];
      }
    }
  }

  /** The first coordinate that is not a number is the error reported. */
  lemma FirstBadFieldReported(coords: seq<seq<byte>>, k: nat)
    requires k < |coords| && Atoi(coords[k]).err.Some?
    requires forall j :: 0 <= j < k ==> Atoi(coords[j]).err.None?
    ensures SizeErrors(coords) != [] && SizeErrors(coords)[0] == Atoi(coords[k]).err.value
  {
    FirstSome(FieldErrors(coords), k);
  }

  /** The first error among the results is the first error reported. */
  lemma {:induction false} FirstSome(errs: seq<Option<Error>>, k: nat)
    requires k < |errs| && errs[k].Some?
    requires forall j :: 0 <= j < k ==> errs[j].None?
    ensures Somes(errs) != [] && Somes(errs)[0] == errs[k].value
    decreases |errs|
  {
    var init := errs[..|errs| - 1];
    var last := errs[|errs| - 1];
    var tail := if last.Some? then [last.value] else [];
    if k < |errs| - 1 {
      assert init[k] == errs[k];
      assert forall j :: 0 <= j < k ==> init[j] == errs[j];
      FirstSome(init, k);
    } else {
      assert forall j :: 0 <= j < |init| ==> init[j] == errs[j];
      NoSomes(init);
    }
  }

  lemma {:induction false} NoSomes(errs: seq<Option<Error>>)
    requires forall j :: 0 <= j < |errs| ==> errs[j].None?
    ensures Somes(errs) == []
    decreases |errs|
  {
    if errs != [] {
      var init := errs[..|errs| - 1];
      assert forall j :: 0 <= j < |init| ==> init[j] == errs[j];
      NoSomes(init);
    }
  }

  lemma NoErrors(coords: seq<seq<byte>>)
    requires forall j :: 0 <= j < |coords| ==> Atoi(coords[j]).err.None?
    ensures SizeErrors(coords) == []
  {
    NoSomes(FieldErrors(coords));
  }

  /** The window of the four fields, each cut to 16 bits. */
  function FieldsWinsize(v: seq<int>): Winsize
    requires |v| == 4
  {
    Winsize(ToU16(v[0]), ToU16(v[1]), ToU16(v[2]), ToU16(v[3]))
  }

  // ---------------------------------------------------- the dispatcher

  /** The `size` branch: the fields are parsed (each error sent), then
      Setsize; a Setsize error is only logged, and the size is kept. */
  function SizeReact(d: seq<byte>, st: Host.PtyState, slot: Option<Signal>, io: Host.PtyResults): (r: Host.Reaction)
    requires IsSizeMessage(d) && |Coords(d)| <= 4
    ensures r.pty.writes == st.writes
  {
    var slot' := PostAll(slot, SizeErrors(Coords(d)));
    if io.setSizeErr.Some? then Host.Reaction(st, slot')
    else Host.Reaction(st.(size := FieldsWinsize(SizeValues(Coords(d)))), slot')
  }

  /** What GetsizeFull leaves in ws: the current size, or the zero size
      when the ioctl failed (the error is sent on errChan). */
  function Current(st: Host.PtyState, io: Host.PtyResults): Winsize
  {
    if io.getSizeErr.Some? then Winsize(0, 0, 0, 0) else st.size
  }

  /** The array branch: `stdin` writes element 1, even an empty one, and
      sends a write error; `set_size` sets Rows and Cols only, on top of
      what GetsizeFull returned, and sends both its errors; any other tag
      does nothing. */
  function ArrayReact(d: seq<byte>, st: Host.PtyState, slot: Option<Signal>, parse: ArrayParser, io: Host.PtyResults): Host.Reaction
    requires Host.Dispatchable(Text(d), parse) && Host.IsArrayMessage(d)
  {
    var vs := parse(d).value;
    var msg := Strings(vs);
    if msg[0] == Host.StdinTag then
      Host.Reaction(st.(writes := st.writes + [msg[1]]),
                    if io.writeErr.Some? then Post(slot, Failed(io.writeErr.value)) else slot)
    else if msg[0] == Host.SetSizeTag then
      var size := Ints(vs);
      var slot1 := if io.getSizeErr.Some? then Post(slot, Failed(io.getSizeErr.value)) else slot;
      var ws := Current(st, io).(rows := ToU16(size[1]), cols := ToU16(size[2]));
      if io.setSizeErr.Some? then Host.Reaction(st, Post(slot1, Failed(io.setSizeErr.value)))
      else Host.Reaction(st.(size := ws), slot1)
    else Host.Reaction(st, slot)
  }

  /** hostDataChannelOnMessage: the `size` test and the array test in
      turn; binary data is written and a write error sent.  `"quit"`
      matches neither test and is ignored. */
  function React(p: Payload, st: Host.PtyState, slot: Option<Signal>, parse: ArrayParser, io: Host.PtyResults): (r: Host.Reaction)
    requires Dispatchable(p, parse)
    ensures slot.Some? ==> r.slot == slot
  {
    match p
    case Binary(d) =>
      Host.Reaction(st.(writes := st.writes + [d]), if io.writeErr.Some? then Post(slot, Failed(io.writeErr.value)) else slot)
    case Text(d) =>
      var r1 := if IsSizeMessage(d) then SizeReact(d, st, slot, io) else Host.Reaction(st, slot);
      if OpensArray(d) then
        assert d[0] == 91 && Host.Quit[0] == 113;
        ArrayReact(d, r1.pty, r1.slot, parse, io)
      else r1
  }

  /** The client's message for a window: `size,R,C,X,Y`. */
  function SizeMessage(ws: Winsize): seq<byte>
  {
    SizeTag + [Comma] + SizeFieldsText(ws)
  }

  function SizeFieldsText(ws: Winsize): seq<byte>
  {
    Itoa(ws.rows) + [Comma] + (Itoa(ws.cols) + [Comma] + (Itoa(ws.x) + [Comma] + Itoa(ws.y)))
  }

  /** Four comma-free fields joined by commas split back into themselves. */
  lemma SplitFour(r: seq<byte>, c: seq<byte>, x: seq<byte>, y: seq<byte>)
    requires Comma !in r && Comma !in c && Comma !in x && Comma !in y
    ensures Split(r + [Comma] + (c + [Comma] + (x + [Comma] + y)), Comma) == [r, c, x, y]
  {
    var t1 := x + [Comma] + y;
    var t2 := c + [Comma] + t1;
    assert Split(y, Comma) == [y];
    SplitCons(x, Comma, y);
    SplitCons(c, Comma, t1);
    SplitCons(r, Comma, t2);
  }

  /** A text starting with `[` is not a `size` message. */
  lemma NotSize(d: seq<byte>)
    requires |d| > 0 && d[0] == 91
    ensures !IsSizeMessage(d)
  {
    if |d| > 4 {
      assert d[..4][0] == 91;
      assert SizeTag[0] == 115;
    }
  }

  /** An array message is dispatched by the array branch alone. */
  lemma ReactArray(d: seq<byte>, st: Host.PtyState, slot: Option<Signal>, parse: ArrayParser, io: Host.PtyResults)
    requires Host.Dispatchable(Text(d), parse) && Host.IsArrayMessage(d)
    ensures Dispatchable(Text(d), parse)
    ensures React(Text(d), st, slot, parse, io) == ArrayReact(d, st, slot, parse, io)
  {
    assert d[..2][0] == 91;
    NotSize(d);
  }

  /** Its fields are the four numbers. */
  lemma SizeMessageFields(ws: Winsize)
    ensures IsSizeMessage(SizeMessage(ws))
    ensures Coords(SizeMessage(ws)) == [Itoa(ws.rows), Itoa(ws.cols), Itoa(ws.x), Itoa(ws.y)]
  {
    var m := SizeMessage(ws);
    assert m[..4] == SizeTag;
    assert m[5..] == SizeFieldsText(ws);
    SplitFour(Itoa(ws.rows), Itoa(ws.cols), Itoa(ws.x), Itoa(ws.y));
  }

  /** A `size` message is dispatched by the `size` branch alone. */
  lemma ReactSize(d: seq<byte>, st: Host.PtyState, slot: Option<Signal>, parse: ArrayParser, io: Host.PtyResults)
    requires IsSizeMessage(d) && |Coords(d)| <= 4
    ensures Dispatchable(Text(d), parse)
    ensures React(Text(d), st, slot, parse, io) == SizeReact(d, st, slot, io)
  {
    assert d[..4][0] == 115;
    assert Host.Open[0] == 91;
    if |d| > 2 {
      assert d[..2][0] == 115;
    }
  }

  /** The fields of the message parse to the four numbers... */
  lemma SizeMessageValues(ws: Winsize)
    ensures IsSizeMessage(SizeMessage(ws)) && |Coords(SizeMessage(ws))| == 4
    ensures FieldsWinsize(SizeValues(Coords(SizeMessage(ws)))) == ws
  {
    SizeMessageFields(ws);
    FieldValues(ws);
  }

  lemma FieldValues(ws: Winsize)
    ensures FieldsWinsize(SizeValues([Itoa(ws.rows), Itoa(ws.cols), Itoa(ws.x), Itoa(ws.y)])) == ws
  {
    AtoiOfItoa(ws.rows);
    AtoiOfItoa(ws.cols);
    AtoiOfItoa(ws.x);
    AtoiOfItoa(ws.y);
    var v := SizeValues([Itoa(ws.rows), Itoa(ws.cols), Itoa(ws.x), Itoa(ws.y)]);
    assert v[0] == ws.rows && v[1] == ws.cols && v[2] == ws.x && v[3] == ws.y;
  }

  /** ...and without error. */
  lemma SizeMessageClean(ws: Winsize)
    ensures IsSizeMessage(SizeMessage(ws)) && SizeErrors(Coords(SizeMessage(ws))) == []
  {
    SizeMessageFields(ws);
    FieldsClean(ws);
  }

  lemma FieldsClean(ws: Winsize)
    ensures SizeErrors([Itoa(ws.rows), Itoa(ws.cols), Itoa(ws.x), Itoa(ws.y)]) == []
  {
    AtoiOfItoa(ws.rows);
    AtoiOfItoa(ws.cols);
    AtoiOfItoa(ws.x);
    AtoiOfItoa(ws.y);
    FourClean(Itoa(ws.rows), Itoa(ws.cols), Itoa(ws.x), Itoa(ws.y));
  }

  lemma FourClean(a: seq<byte>, b: seq<byte>, c: seq<byte>, e: seq<byte>)
    requires Atoi(a).err.None? && Atoi(b).err.None? && Atoi(c).err.None? && Atoi(e).err.None?
    ensures SizeErrors([a, b, c, e]) == []
  {
    NoErrors([a, b, c, e]);
  }

  /** The host reads back exactly the window the client sent, all four
      fields, with nothing signalled; a Setsize error leaves the size. */
  lemma SizeRoundTrip(ws: Winsize, st: Host.PtyState, slot: Option<Signal>, parse: ArrayParser, io: Host.PtyResults)
    ensures Dispatchable(Text(SizeMessage(ws)), parse)
    ensures React(Text(SizeMessage(ws)), st, slot, parse, io) ==
      Host.Reaction(if io.setSizeErr.Some? then st else st.(size := ws), slot)
  {
    SizeMessageValues(ws);
    SizeMessageClean(ws);
    ReactSize(SizeMessage(ws), st, slot, parse, io);
  }

  /** Fewer than four fields leave the missing ones 0.  A field that is not
      a number contributes 0 and a syntax error, unless its leading digits
      already overflow uint64: then it contributes the int64 bound of its
      sign and a range error.  That error is what is reported when it is
      the first failing field and nothing was reported before. */
  lemma SizeFieldsDefault(d: seq<byte>, st: Host.PtyState, parse: ArrayParser, io: Host.PtyResults, k: nat)
    requires IsSizeMessage(d) && |Coords(d)| <= 4 && io.setSizeErr.None?
    requires k < |Coords(d)| && !IsIntegerText(Coords(d)[k])
    requires forall j :: 0 <= j < k ==> Atoi(Coords(d)[j]).err.None?
    ensures Dispatchable(Text(d), parse)
    ensures var r := React(Text(d), st, None, parse, io);
      var v := SizeValues(Coords(d));
      var f := Coords(d)[k];
      r.pty == st.(size := FieldsWinsize(v)) &&
      (forall i :: |Coords(d)| <= i < 4 ==> v[i] == 0) &&
      (!Overflows(f) ==> v[k] == 0 && r.slot == Some(Failed(SyntaxError(f)))) &&
      (Overflows(f) ==> v[k] == (if Negative(f) then MinInt64 else MaxInt64) && r.slot == Some(Failed(RangeError(f))))
  {
    ReactSize(d, st, None, parse, io);
    FirstBadFieldReported(Coords(d), k);
    PostAllFirst(None, SizeErrors(Coords(d)));
  }

  /** `"quit"` is not a command to the first host: nothing happens. */
  lemma QuitIgnored(st: Host.PtyState, slot: Option<Signal>, parse: ArrayParser, io: Host.PtyResults)
    ensures Dispatchable(Text(Host.Quit), parse)
    ensures React(Text(Host.Quit), st, slot, parse, io) == Host.Reaction(st, slot)
  {
    assert Host.Quit[0] == 113;
  }

  /** `["stdin", s]` writes s as Go reads it back (invalid UTF-8 replaced
      by U+FFFD), also when it is empty, and sends a write error.  Valid
      UTF-8 is written exactly. */
  lemma StdinAlwaysWritten(s: seq<byte>, st: Host.PtyState, slot: Option<Signal>, parse: ArrayParser, io: Host.PtyResults)
    requires ReadsArrayText(parse)
    ensures Dispatchable(Text(Host.Message(Host.StdinTag, [JString(s)])), parse)
    ensures React(Text(Host.Message(Host.StdinTag, [JString(s)])), st, slot, parse, io) ==
      Host.Reaction(st.(writes := st.writes + [Coerce(s)]), if io.writeErr.Some? then Post(slot, Failed(io.writeErr.value)) else slot)
    ensures ValidUtf8(s) ==> Coerce(s) == s
  {
    var m := Host.Message(Host.StdinTag, [JString(s)]);
    Host.StdinParsed(s, parse);
    ReactArray(m, st, slot, parse, io);
    CoerceFixed(s);
  }

  /** `["set_size", r, c, ...]` sets Rows and Cols; X and Y are those
      GetsizeFull returned, whatever the array holds after c. */
  lemma SetSizeRowsCols(dims: seq<int>, st: Host.PtyState, slot: Option<Signal>, parse: ArrayParser, io: Host.PtyResults)
    requires ReadsArrayText(parse)
    requires |dims| >= 2 && MinInt64 <= dims[0] <= MaxInt64 && MinInt64 <= dims[1] <= MaxInt64
    requires io.setSizeErr.None?
    ensures var d := Host.Message(Host.SetSizeTag, IntValues(dims));
      Dispatchable(Text(d), parse) &&
      React(Text(d), st, slot, parse, io) ==
        Host.Reaction(st.(size := Current(st, io).(rows := ToU16(dims[0]), cols := ToU16(dims[1]))),
                      if io.getSizeErr.Some? then Post(slot, Failed(io.getSizeErr.value)) else slot)
  {
    var rest := IntValues(dims);
    var m := Host.Message(Host.SetSizeTag, rest);
    SetSizeParsed(dims, parse);
    ReactArray(m, st, slot, parse, io);
  }

  /** The parse of a `set_size` message: the tag and the integers. */
  lemma SetSizeParsed(dims: seq<int>, parse: ArrayParser)
    requires ReadsArrayText(parse)
    requires |dims| >= 2 && MinInt64 <= dims[0] <= MaxInt64 && MinInt64 <= dims[1] <= MaxInt64
    ensures var m := Host.Message(Host.SetSizeTag, IntValues(dims));
      Host.IsArrayMessage(m) && parse(m).Some? && |parse(m).value| >= 3 &&
      Strings(parse(m).value)[0] == Host.SetSizeTag &&
      Ints(parse(m).value)[1] == dims[0] && Ints(parse(m).value)[2] == dims[1]
  {
    var rest := IntValues(dims);
    var vs := [JString(Host.SetSizeTag)] + rest;
    Host.MessageIsArray(Host.SetSizeTag, rest, parse);
    Host.TagsKept();
    CoercedFields(vs);
    assert Ints(vs)[1] == dims[0] && Ints(vs)[2] == dims[1];
  }

  /** A row field of twenty nines followed by `x` overflows before the `x`
      is read: the host asks for 65535 rows and reports a range error. */
  lemma OverflowingRowsClamp(d: seq<byte>, st: Host.PtyState, parse: ArrayParser, io: Host.PtyResults)
    requires IsSizeMessage(d) && |Coords(d)| <= 4 && io.setSizeErr.None?
    requires Coords(d)[0] == Bytes("99999999999999999999x")
    ensures Dispatchable(Text(d), parse)
    ensures React(Text(d), st, None, parse, io).pty.size.rows == 65535
    ensures React(Text(d), st, None, parse, io).slot == Some(Failed(RangeError(Coords(d)[0])))
  {
    OverflowBeforeJunk(Coords(d)[0]);
    SizeFieldsDefault(d, st, parse, io, 0);
  }

  // ---------------------------------------------------- the read pump

  /** The error io.EOF, whose text is `EOF`. */
  const EofError: Error := Error(Bytes("EOF"))

  /** One pass of hostDataChannelOnOpen's read loop: any read error, io.EOF
      included, is signalled and ends the loop; a chunk is always echoed to
      stdout, whose Write error is ignored, then sent as binary, and a Send
      error ends the loop. */
  function PumpOnce(step: Host.PumpStep, acc: Host.Pumped): (r: Host.Pumped)
    ensures step.read.Chunk? ==> r.stdout == acc.stdout + [step.read.data] && r.sent == acc.sent + [Binary(step.read.data)]
    ensures r.ended <==> !step.read.Chunk? || step.sendErr.Some? || acc.ended
  {
    match step.read
    case Eof => acc.(slot := Post(acc.slot, Failed(EofError)), ended := true)
    case ReadFailed(e) => acc.(slot := Post(acc.slot, Failed(e)), ended := true)
    case Chunk(d) =>
      var echoed := acc.(stdout := acc.stdout + [d], sent := acc.sent + [Binary(d)]);
      if step.sendErr.Some? then echoed.(slot := Post(acc.slot, Failed(step.sendErr.value)), ended := true)
      else echoed
  }

  function Pump(steps: seq<Host.PumpStep>, acc: Host.Pumped): Host.Pumped
    decreases |steps|
  {
    if steps == [] || acc.ended then acc
    else Pump(steps[1..], PumpOnce(steps[0], acc))
  }

  /** Passes whose read returns a chunk and whose Send succeeds; the echo
      may fail. */
  predicate SendsClean(steps: seq<Host.PumpStep>)
  {
    forall i :: 0 <= i < |steps| ==> steps[i].read.Chunk? && steps[i].sendErr.None?
  }

  function ChunksRead(steps: seq<Host.PumpStep>): (ds: seq<seq<byte>>)
    requires SendsClean(steps)
    ensures |ds| == |steps|
    ensures forall i :: 0 <= i < |steps| ==> ds[i] == steps[i].read.data
  {
    seq(|steps|, i requires 0 <= i < |steps| => steps[i].read.data)
  }

  /** Every chunk is echoed and sent, in order, whatever the echo returned,
      and nothing is signalled. */
  lemma {:induction false} CleanPumpForwards(steps: seq<Host.PumpStep>, acc: Host.Pumped)
    requires !acc.ended && SendsClean(steps)
    ensures Pump(steps, acc) ==
      acc.(stdout := acc.stdout + ChunksRead(steps), sent := acc.sent + Host.AsBinary(ChunksRead(steps)))
    decreases |steps|
  {
    if steps != [] {
      var next := PumpOnce(steps[0], acc);
      assert Pump(steps, acc) == Pump(steps[1..], next);
      SendsCleanTail(steps);
      CleanPumpForwards(steps[1..], next);
      CleanStepForwards(steps, acc);
    }
  }

  /** The induction step of CleanPumpForwards. */
  lemma CleanStepForwards(steps: seq<Host.PumpStep>, acc: Host.Pumped)
    requires steps != [] && SendsClean(steps)
    ensures SendsClean(steps[1..])
    ensures var next := PumpOnce(steps[0], acc);
      next.(stdout := next.stdout + ChunksRead(steps[1..]), sent := next.sent + Host.AsBinary(ChunksRead(steps[1..]))) ==
      acc.(stdout := acc.stdout + ChunksRead(steps), sent := acc.sent + Host.AsBinary(ChunksRead(steps)))
  {
    var d := steps[0].read.data;
    SendsCleanTail(steps);
    assert ChunksRead(steps) == [d] + ChunksRead(steps[1..]);
    Host.AsBinaryCons(d, ChunksRead(steps[1..]));
    assert acc.stdout + [d] + ChunksRead(steps[1..]) == acc.stdout + ChunksRead(steps);
    assert acc.sent + [Binary(d)] + Host.AsBinary(ChunksRead(steps[1..])) == acc.sent + Host.AsBinary(ChunksRead(steps));
  }

  lemma SendsCleanTail(steps: seq<Host.PumpStep>)
    requires steps != [] && SendsClean(steps)
    ensures SendsClean(steps[1..])
  {
    var tail := steps[1..];
    forall i | 0 <= i < |tail| ensures tail[i].read.Chunk? && tail[i].sendErr.None? {
      assert tail[i] == steps[i + 1];
    }
  }

  /** A pass after clean passes is made on their result. */
  lemma {:induction false} PumpSnoc(steps: seq<Host.PumpStep>, last: Host.PumpStep, acc: Host.Pumped)
    requires !acc.ended && SendsClean(steps)
    ensures Pump(steps + [last], acc) == PumpOnce(last, Pump(steps, acc))
    decreases |steps|
  {
    if steps == [] {
      assert [last][1..] == [];
    } else {
      assert (steps + [last])[1..] == steps[1..] + [last];
      SendsCleanTail(steps);
      PumpSnoc(steps[1..], last, PumpOnce(steps[0], acc));
    }
  }

  /** Clean passes followed by the end of the pty's output: the chunks, then
      io.EOF reported as the session's error, where the newer host ends
      gracefully (Host.CleanPumpThenEof). */
  lemma CleanPumpThenEof(steps: seq<Host.PumpStep>, last: Host.PumpStep, acc: Host.Pumped)
    requires !acc.ended && acc.slot.None? && SendsClean(steps)
    requires last.read.Eof?
    ensures Pump(steps + [last], acc) ==
      Host.Pumped(acc.stdout + ChunksRead(steps), acc.sent + Host.AsBinary(ChunksRead(steps)), Some(Failed(EofError)), true)
  {
    PumpSnoc(steps, last, acc);
    CleanPumpForwards(steps, acc);
  }

  /** A failed echo is ignored: the chunk is still sent and the loop goes
      on, where the newer interactive host signals the error and stops. */
  lemma EchoErrorIgnored(d: seq<byte>, e: Error, acc: Host.Pumped)
    requires !acc.ended && acc.slot.None?
    ensures PumpOnce(Host.PumpStep(Host.Chunk(d), Some(e), None), acc) ==
      acc.(stdout := acc.stdout + [d], sent := acc.sent + [Binary(d)])
    ensures Host.PumpOnce(Host.PumpStep(Host.Chunk(d), Some(e), None), false, acc) ==
      acc.(stdout := acc.stdout + [d], slot := Some(Failed(e)), ended := true)
  {
  }

  /** With no echo error and a clean end, the two hosts differ only in the
      signal: interactive output is the same. */
  lemma PumpsAgreeOnChunks(steps: seq<Host.PumpStep>, acc: Host.Pumped)
    requires !acc.ended && Host.AllClean(steps)
    ensures SendsClean(steps)
    ensures Pump(steps, acc) == Host.Pump(steps, false, acc)
  {
    CleanPumpForwards(steps, acc);
    Host.CleanPumpForwards(steps, false, acc);
  }

  /** The first host: the pty, errChan, the host's stdout and the data
      channel's sent payloads. */
  class LegacyHost {
    var pty: Host.PtyState
    var completion: Option<Signal>
    var stdout: seq<seq<byte>>
    var sent: seq<Payload>

    constructor (initial: Winsize)
      ensures pty == Host.PtyState([], initial) && completion.None? && stdout == [] && sent == []
    {
      pty := Host.PtyState([], initial);
      completion := None;
      stdout := [];
      sent := [];
    }

    /** hostDataChannelOnOpen: start bash on a fresh pty (an error is
        signalled and nothing else happens); put the terminal in raw mode,
        always, discarding the saved state (an error is signalled and the
        pump never starts); then run the read pump.  The io.Copy and SIGINT
        goroutines it starts are not part of this model. */
    method OnOpen(spawnErr: Option<Error>, initial: Winsize, rawErr: Option<Error>, steps: seq<Host.PumpStep>)
      modifies this`pty, this`completion, this`stdout, this`sent
      ensures spawnErr.Some? ==>
        completion == Post(old(completion), Failed(spawnErr.value)) &&
        pty == old(pty) && stdout == old(stdout) && sent == old(sent)
      ensures spawnErr.None? ==> pty == Host.PtyState([], initial)
      ensures spawnErr.None? && rawErr.Some? ==>
        completion == Post(old(completion), Failed(rawErr.value)) && stdout == old(stdout) && sent == old(sent)
      ensures spawnErr.None? && rawErr.None? ==>
        Host.Pumped(stdout, sent, completion, false) ==
          Pump(steps, Host.Pumped(old(stdout), old(sent), old(completion), false)).(ended := false)
    {
      if spawnErr.Some? {
        Signal(Failed(spawnErr.value));
        return;
      }
      pty := Host.PtyState([], initial);
      if rawErr.Some? {
        Signal(Failed(rawErr.value));
        return;
      }
      ReadPump(steps);
    }

    /** The read loop; a script that runs out leaves it still reading. */
    method ReadPump(steps: seq<Host.PumpStep>)
      modifies this`stdout, this`sent, this`completion
      ensures Host.Pumped(stdout, sent, completion, false) ==
        Pump(steps, Host.Pumped(old(stdout), old(sent), old(completion), false)).(ended := false)
    {
      var i := 0;
      var ended := false;
      while i < |steps| && !ended
        invariant 0 <= i <= |steps|
        invariant Pump(steps, Host.Pumped(old(stdout), old(sent), old(completion), false)) ==
          Pump(steps[i..], Host.Pumped(stdout, sent, completion, ended))
        decreases |steps| - i
      {
        var step := steps[i];
        match step.read {
          case Eof =>
            Signal(Failed(EofError));
            ended := true;
          case ReadFailed(e) =>
            Signal(Failed(e));
            ended := true;
          case Chunk(d) =>
            stdout := stdout + [d];
            sent := sent + [Binary(d)];
            if step.sendErr.Some? {
              Signal(Failed(step.sendErr.value));
              ended := true;
            }
        }
        i := i + 1;
      }
    }

    method Signal(s: Signal)
      modifies this`completion
      ensures completion == Post(old(completion), s)
    {
      if completion.None? {
        completion := Some(s);
      }
    }

    /** The loop over the coordinates into `out := [4]int{}`, a Go array and
        so a value. */
    method SizeFields(coords: seq<seq<byte>>) returns (v: seq<int>)
      requires |coords| <= 4
      modifies this`completion
      ensures v == SizeValues(coords)
      ensures completion == PostAll(old(completion), SizeErrors(coords))
    {
      var start := completion;
      var out := [0, 0, 0, 0];
      assert out == SizeValues(coords[..0]);
      for i := 0 to |coords|
        invariant out == SizeValues(coords[..i])
        invariant completion == PostAll(start, SizeErrors(coords[..i]))
      {
        var value := SizeField(start, coords, i);
        SizeValuesSnoc(coords, i);
        out := out[i := value];
      }
      assert coords[..|coords|] == coords;
      v := out;
    }

    /** One pass of that loop: ParseInt of the i-th coordinate, its error sent. */
    method SizeField(slot: Option<Signal>, coords: seq<seq<byte>>, i: nat) returns (value: int)
      requires i < |coords| && completion == PostAll(slot, SizeErrors(coords[..i]))
      modifies this`completion
      ensures value == Atoi(coords[i]).value
      ensures completion == PostAll(slot, SizeErrors(coords[..i + 1]))
    {
      var num := Atoi(coords[i]);
      StepPosts(slot, coords, i);
      if num.err.Some? {
        Signal(Failed(num.err.value));
      }
      value := num.value;
    }

    /** hostDataChannelOnMessage. */
    method OnMessage(p: Payload, parse: ArrayParser, io: Host.PtyResults)
      requires Dispatchable(p, parse)
      modifies this`pty, this`completion
      ensures Host.Reaction(pty, completion) == React(p, old(pty), old(completion), parse, io)
    {
      match p {
        case Binary(d) =>
          pty := pty.(writes := pty.writes + [d]);
          if io.writeErr.Some? {
            Signal(Failed(io.writeErr.value));
          }
        case Text(d) =>
          if |d| > 4 && d[..4] == SizeTag {
            var coords := Split(d[5..], Comma);
            var out := SizeFields(coords);
            // the source sleeps 100 ms here
            if io.setSizeErr.None? {
              pty := pty.(size := FieldsWinsize(out));
            }
          }
          if |d| > 2 && d[..2] == Host.Open {
            assert d[0] == 91 && Host.Quit[0] == 113;
            var msg := Strings(parse(d).value);
            if msg[0] == Host.StdinTag {
              pty := pty.(writes := pty.writes + [msg[1]]);
              if io.writeErr.Some? {
                Signal(Failed(io.writeErr.value));
              }
            }
            if msg[0] == Host.SetSizeTag {
              var size := Ints(parse(d).value);
              if io.getSizeErr.Some? {
                Signal(Failed(io.getSizeErr.value));
              }
              var ws := Current(pty, io);
              ws := ws.(rows := ToU16(size[1]), cols := ToU16(size[2]));
              if io.setSizeErr.Some? {
                Signal(Failed(io.setSizeErr.value));
              } else {
                pty := pty.(size := ws);
              }
            }
          }
      }
    }
  }

  // ------------------------------------------------------- the client

  /** The line the first client prints for every string payload.
      `typeName` is what the data-channel library's PayloadType().String()
      gives for a string payload. */
  function MessageLine(typeName: seq<byte>, d: seq<byte>): seq<byte>
  {
    Bytes("Message '") + typeName + Bytes("' from DataChannel payload '") + d + Bytes("'\n")
  }

  /** The first client's clientDataChannelOnMessage: a string payload is
      printed; `"quit"` then restores the saved state and sends nil; binary
      data goes to stdout. */
  function ClientEvents(p: Payload, saved: TermState, typeName: seq<byte>): seq<Client.ClientEvent>
  {
    match p
    case Text(d) =>
      [Client.Printed(MessageLine(typeName, d))] +
      (if d == Host.Quit then [Client.Restored(saved), Client.Signalled(Graceful)] else [])
    case Binary(d) => [Client.Printed(d)]
  }

  /** Where the newer client reports an unmatched string, the first one only
      prints it: it neither signals nor restores the terminal. */
  lemma ClientOnlyPrintsOtherText(d: seq<byte>, saved: TermState, typeName: seq<byte>, before: seq<Client.ClientEvent>)
    requires d != Host.Quit
    ensures ClientEvents(Text(d), saved, typeName) == [Client.Printed(MessageLine(typeName, d))]
    ensures Client.FirstSignal(before + ClientEvents(Text(d), saved, typeName)) == Client.FirstSignal(before)
    ensures Client.FirstSignal(Client.OnMessageEvents(Text(d), saved)).Some?
  {
    var evs := [Client.Printed(MessageLine(typeName, d))];
    Client.FirstSignalAppend(before, evs);
    assert Client.FirstSignal(evs) == None by {
      assert evs[1..] == [];
    }
  }

  /** On `"quit"` the first client does what the newer one does after
      printing its line; on binary payloads the two are the same. */
  lemma ClientsAgree(p: Payload, saved: TermState, typeName: seq<byte>)
    requires p.Binary? || p.data == Host.Quit
    ensures p.Binary? ==> ClientEvents(p, saved, typeName) == Client.OnMessageEvents(p, saved)
    ensures p.Text? ==>
      ClientEvents(p, saved, typeName) ==
      [Client.Printed(MessageLine(typeName, p.data))] + Client.OnMessageEvents(p, saved)
  {
  }

  class LegacyClient {
    var events: seq<Client.ClientEvent>
    var completion: Option<Signal>
    const saved: TermState
    const typeName: seq<byte>

    ghost predicate Valid()
      reads this
    {
      completion == Client.FirstSignal(events)
    }

    constructor (saved: TermState, typeName: seq<byte>)
      ensures Valid() && events == [] && this.saved == saved && this.typeName == typeName
    {
      events := [];
      completion := None;
      this.saved := saved;
      this.typeName := typeName;
    }

    /** The SIGWINCH goroutine's send: GetsizeFull's failure is fatal;
        otherwise `size,...` is sent and Send's error dropped. */
    method SendSize(size: Result<Winsize>)
      requires Valid()
      modifies this
      ensures Valid() && completion == old(completion)
      ensures events == old(events) +
        (if size.Err? then [Client.Exited(size.error)] else [Client.Sent(Text(SizeMessage(size.value)))])
    {
      var e := if size.Err? then Client.Exited(size.error) else Client.Sent(Text(SizeMessage(size.value)));
      Client.FirstSignalAppend(events, [e]);
      events := events + [e];
    }

    method OnMessage(p: Payload)
      requires Valid()
      modifies this
      ensures Valid() && events == old(events) + ClientEvents(p, saved, typeName)
    {
      match p {
        case Text(d) =>
          var line := Client.Printed(MessageLine(typeName, d));
          Client.FirstSignalAppend(events, [line]);
          events := events + [line];
          if d == Host.Quit {
            Client.FirstSignalAppend(events, [Client.Restored(saved)]);
            events := events + [Client.Restored(saved)];
            Client.SignalPosts(events, Graceful);
            events := events + [Client.Signalled(Graceful)];
            if completion.None? {
              completion := Some(Graceful);
            }
          }
        case Binary(d) =>
          Client.FirstSignalAppend(events, [Client.Printed(d)]);
          events := events + [Client.Printed(d)];
      }
    }
  }

  // ------------------------------------------------------- the codec

  /** encodeOffer: base64 of the zlib stream of the Sdp. */
  function EncodeOffer(z: Zlib, sdp: seq<byte>): seq<byte>
  {
    OfferCodec.EncodeBytes(z, sdp)
  }

  /** decodeOffer: the two-pass base64 loop, then the zlib reader. */
  function DecodeOfferSpec(z: Zlib, s: seq<byte>): (r: Result<seq<byte>>)
    ensures OfferCodec.Retried(s).Err? ==> r == Err(OfferCodec.Retried(s).error)
    ensures OfferCodec.Retried(s).Ok? ==> r == Read(z, OfferCodec.Retried(s).value)
  {
    var compressed :- OfferCodec.Retried(s);
    Read(z, compressed)
  }

  method DecodeOffer(z: Zlib, s: seq<byte>) returns (r: Result<seq<byte>>)
    ensures r == DecodeOfferSpec(z, s)
  {
    var compressed := OfferCodec.DecodeWithRetry(s);
    if compressed.Err? {
      return Err(compressed.error);
    }
    r := Read(z, compressed.value);
  }

  /** Every Sdp, any bytes at all, is read back from its encoding, also
      when the encoding lost a closing `=`. */
  lemma DecodeEncode(z: Zlib, sdp: seq<byte>)
    requires ZlibSound(z)
    ensures DecodeOfferSpec(z, EncodeOffer(z, sdp)) == Ok(sdp)
    ensures |z.compress(sdp)| % 3 == 2 ==>
      var s := EncodeOffer(z, sdp); DecodeOfferSpec(z, s[..|s| - 1]) == Ok(sdp)
  {
    ReadCompressed(z, sdp);
    WholeRead(z, sdp);
    if |z.compress(sdp)| % 3 == 2 {
      DroppedPadRead(z, sdp);
    }
  }

  lemma WholeRead(z: Zlib, sdp: seq<byte>)
    requires Read(z, z.compress(sdp)) == Ok(sdp)
    ensures DecodeOfferSpec(z, EncodeOffer(z, sdp)) == Ok(sdp)
  {
    OfferCodec.RetriedEncoding(z.compress(sdp));
  }

  lemma DroppedPadRead(z: Zlib, sdp: seq<byte>)
    requires Read(z, z.compress(sdp)) == Ok(sdp) && |z.compress(sdp)| % 3 == 2
    ensures var s := EncodeOffer(z, sdp); DecodeOfferSpec(z, s[..|s| - 1]) == Ok(sdp)
  {
    DroppedPadOfBytes(z, z.compress(sdp), EncodeOffer(z, sdp));
  }

  lemma DroppedPadOfBytes(z: Zlib, b: seq<byte>, e: seq<byte>)
    requires |b| % 3 == 2 && e == Base64.Encode(b)
    ensures |e| >= 1 && DecodeOfferSpec(z, e[..|e| - 1]) == Read(z, b)
  {
    OfferCodec.OneDroppedPadRecovered(b);
    SpecOfRetried(z, e, b);
  }

  /** Once the retry has given the compressed bytes, decodeOffer reads them. */
  lemma SpecOfRetried(z: Zlib, s: seq<byte>, b: seq<byte>)
    requires |s| >= 1 && OfferCodec.Retried(s[..|s| - 1]) == Ok(b)
    ensures DecodeOfferSpec(z, s[..|s| - 1]) == Read(z, b)
  {
  }

  /** Two lost `=` are not put back. */
  lemma TwoDroppedPadsFail(z: Zlib, sdp: seq<byte>)
    requires |z.compress(sdp)| % 3 == 1
    ensures var s := EncodeOffer(z, sdp); DecodeOfferSpec(z, s[..|s| - 2]).Err?
  {
    OfferCodec.TwoDroppedPadsFail(z.compress(sdp));
  }
}
