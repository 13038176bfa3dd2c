/** The client side of a session (client.go): the window-size message it
    sends, its handler for the host's messages and the stdin loop it runs
    once the data channel opens.

    Everything the client does that someone can observe is one ordered log
    of events: a terminal restore, a value sent on errChan, bytes printed to
    stdout, a payload sent on the channel, or the process exiting.  The
    completion channel is the single slot of Common.Post, and the class
    keeps it equal to the first signal of the log. */
module Client {
  import opened Common
  import opened Decimal
  import opened Json
  import Host

  // ------------------------------------------------- the size message

  /** sendTermSize's format string `["set_size",%d,%d,%d,%d]` applied to
      Rows, Cols, X and Y. */
  function TermSizeMessage(ws: Winsize): seq<byte>
  {
    [91, Quote] + Host.SetSizeTag + [Quote, Comma] + Itoa(ws.rows) + [Comma] + Itoa(ws.cols) + [Comma] +
      Itoa(ws.x) + [Comma] + Itoa(ws.y) + [93]
  }

  /** The array of a window size, as the host reads it. */
  function SizeArray(ws: Winsize): seq<Value>
  {
    [JString(Host.SetSizeTag), JInt(ws.rows), JInt(ws.cols), JInt(ws.x), JInt(ws.y)]
  }

  lemma SetSizeTagIsPlain()
    ensures forall i :: 0 <= i < |Host.SetSizeTag| ==> Plain(Host.SetSizeTag[i])
    ensures Escape(Host.SetSizeTag) == Host.SetSizeTag
  {
    assert Host.SetSizeTag == [115, 101, 116, 95, 115, 105, 122, 101];
    EscapePlain(Host.SetSizeTag);
  }

  /** Four integers, comma-separated. */
  lemma FourInts(a: int, b: int, c: int, d: int)
    ensures ElementsText([JInt(a), JInt(b), JInt(c), JInt(d)]) ==
      Itoa(a) + [Comma] + (Itoa(b) + [Comma] + (Itoa(c) + [Comma] + Itoa(d)))
  {
    var vs := [JInt(a), JInt(b), JInt(c), JInt(d)];
    assert vs[1..] == [JInt(b), JInt(c), JInt(d)];
    assert vs[1..][1..] == [JInt(c), JInt(d)];
    assert vs[1..][1..][1..] == [JInt(d)];
    assert ElementsText(vs[1..][1..][1..]) == Itoa(d);
    assert ElementsText(vs[1..][1..]) == Itoa(c) + [Comma] + Itoa(d);
    assert ElementsText(vs[1..]) == Itoa(b) + [Comma] + (Itoa(c) + [Comma] + Itoa(d));
  }

  /** The elements of a size array: the quoted tag, then the integers. */
  lemma SizeElements(ws: Winsize)
    ensures ElementsText(SizeArray(ws)) ==
      [Quote] + Host.SetSizeTag + [Quote] + [Comma] +
      (Itoa(ws.rows) + [Comma] + (Itoa(ws.cols) + [Comma] + (Itoa(ws.x) + [Comma] + Itoa(ws.y))))
  {
    var vs := SizeArray(ws);
    SetSizeTagIsPlain();
    assert ValueText(vs[0]) == [Quote] + Host.SetSizeTag + [Quote];
    FourInts(ws.rows, ws.cols, ws.x, ws.y);
    assert vs[1..] == [JInt(ws.rows), JInt(ws.cols), JInt(ws.x), JInt(ws.y)];
  }

  /** The formatted text is exactly the compact JSON array
      `["set_size",R,C,X,Y]`: a string tag, then the four fields in order. */
  lemma TermSizeIsArray(ws: Winsize)
    ensures TermSizeMessage(ws) == ArrayText(SizeArray(ws))
  {
    SizeElements(ws);
    Regroup(Host.SetSizeTag, Itoa(ws.rows), Itoa(ws.cols), Itoa(ws.x), Itoa(ws.y));
  }

  lemma Regroup(t: seq<byte>, r: seq<byte>, c: seq<byte>, x: seq<byte>, y: seq<byte>)
    ensures [91, Quote] + t + [Quote, Comma] + r + [Comma] + c + [Comma] + x + [Comma] + y + [93] ==
      [91] + ([Quote] + t + [Quote] + [Comma] + (r + [Comma] + (c + [Comma] + (x + [Comma] + y)))) + [93]
  {
  }

  /** Fed to the host dispatcher, the message sets the host's window to
      the client's, all four fields: the format and the parse agree, and no
      16-bit field is changed by the host's uint16 conversion.  Errors of
      GetsizeFull or Setsize on the host are signalled there instead. */
  lemma TermSizeReachesHost(ws: Winsize, st: Host.PtyState, slot: Option<Signal>, parse: ArrayParser, io: Host.PtyResults)
    requires ReadsArrayText(parse)
    ensures Host.Dispatchable(Text(TermSizeMessage(ws)), parse)
    ensures Host.React(Text(TermSizeMessage(ws)), st, slot, parse, io) ==
      if io.getSizeErr.Some? then Host.Reaction(st, Post(slot, Failed(io.getSizeErr.value)))
      else if io.setSizeErr.Some? then Host.Reaction(st, Post(slot, Failed(io.setSizeErr.value)))
      else Host.Reaction(st.(size := ws), slot)
  {
    var dims: seq<int> := [ws.rows, ws.cols, ws.x, ws.y];
    SizeMessageIsMessage(ws, dims);
    Host.SetSizeMessageParses(dims, parse);
    ResizedToWindow(st.size, ws, dims);
    Host.ReactSetSize(TermSizeMessage(ws), [JString(Host.SetSizeTag)] + IntValues(dims), st, slot, parse, io);
  }

  /** The size message is the host's `set_size` message of the four fields. */
  lemma SizeMessageIsMessage(ws: Winsize, dims: seq<int>)
    requires dims == [ws.rows, ws.cols, ws.x, ws.y]
    ensures TermSizeMessage(ws) == Host.Message(Host.SetSizeTag, IntValues(dims))
  {
    TermSizeIsArray(ws);
    SizeArrayOfFields(ws, dims);
  }

  lemma SizeArrayOfFields(ws: Winsize, dims: seq<int>)
    requires dims == [ws.rows, ws.cols, ws.x, ws.y]
    ensures [JString(Host.SetSizeTag)] + IntValues(dims) == SizeArray(ws)
  {
    var rest := IntValues(dims);
    assert rest == [JInt(ws.rows), JInt(ws.cols), JInt(ws.x), JInt(ws.y)];
  }

  /** Sizes read from a window's own fields give that window back. */
  lemma ResizedToWindow(size: Winsize, ws: Winsize, dims: seq<int>)
    requires dims == [ws.rows, ws.cols, ws.x, ws.y]
    ensures Host.Resized(size, [0] + dims) == ws
  {
    var v := [0] + dims;
    assert v[1] == ws.rows && v[2] == ws.cols && v[3] == ws.x && v[4] == ws.y;
  }

  /** The window 19 x 29 with pixel size 9 x 8 is sent as
      `["set_size",19,29,9,8]`, and the host adopts it. */
  lemma TermSizeExample(st: Host.PtyState, slot: Option<Signal>, parse: ArrayParser)
    requires ReadsArrayText(parse)
    ensures TermSizeMessage(Winsize(19, 29, 9, 8)) ==
      [91, Quote] + Host.SetSizeTag + [Quote, Comma, 49, 57, Comma, 50, 57, Comma, 57, Comma, 56, 93]
    ensures Host.Dispatchable(Text(TermSizeMessage(Winsize(19, 29, 9, 8))), parse)
    ensures Host.React(Text(TermSizeMessage(Winsize(19, 29, 9, 8))), st, slot, parse, Host.NoErrors) ==
      Host.Reaction(st.(size := Winsize(19, 29, 9, 8)), slot)
  {
    ExampleDigits();
    TermSizeReachesHost(Winsize(19, 29, 9, 8), st, slot, parse, Host.NoErrors);
  }

  lemma ExampleDigits()
    ensures Itoa(19) == [49, 57] && Itoa(29) == [50, 57] && Itoa(9) == [57] && Itoa(8) == [56]
  {
    assert Itoa(19) == [49, 57];
    assert Itoa(29) == [50, 57];
  }

  // ------------------------------------------------------------ events

  datatype ClientEvent =
    | Restored(state: TermState)
    | Signalled(signal: Signal)
    | Printed(data: seq<byte>)
    | Sent(payload: Payload)
    | Exited(err: Error)

  /** The first signal of a log: what runClient's `<-errChan` returns. */
  function FirstSignal(events: seq<ClientEvent>): Option<Signal>
  {
    if events == [] then None
    else if events[0].Signalled? then Some(events[0].signal)
    else FirstSignal(events[1..])
  }

  lemma {:induction false} FirstSignalAppend(a: seq<ClientEvent>, b: seq<ClientEvent>)
    ensures FirstSignal(a + b) == if FirstSignal(a).Some? then FirstSignal(a) else FirstSignal(b)
  {
    if a != [] {
      assert (a + b)[1..] == a[1..] + b;
      FirstSignalAppend(a[1..], b);
    } else {
      assert a + b == b;
    }
  }

  /** Logging a signal is posting it to the slot. */
  lemma SignalPosts(events: seq<ClientEvent>, s: Signal)
    ensures FirstSignal(events + [Signalled(s)]) == Post(FirstSignal(events), s)
  {
    FirstSignalAppend(events, [Signalled(s)]);
  }

  /** The payloads a log sends, in order. */
  function Sends(events: seq<ClientEvent>): seq<Payload>
  {
    if events == [] then []
    else (if events[0].Sent? then [events[0].payload] else []) + Sends(events[1..])
  }

  lemma {:induction false} SendsAppend(a: seq<ClientEvent>, b: seq<ClientEvent>)
    ensures Sends(a + b) == Sends(a) + Sends(b)
  {
    if a != [] {
      assert (a + b)[1..] == a[1..] + b;
      SendsAppend(a[1..], b);
    } else {
      assert a + b == b;
    }
  }

  // ---------------------------------------------------- the dispatcher

  /** clientDataChannelOnMessage: `"quit"` restores the terminal state saved
      by runClient and then sends nil; any other string sends an
      `Unmatched string message` error; binary data goes to stdout. */
  function OnMessageEvents(p: Payload, saved: TermState): seq<ClientEvent>
  {
    match p
    case Text(d) =>
      if d == Host.Quit then [Restored(saved), Signalled(Graceful)]
      else [Signalled(Failed(Host.UnmatchedError(d)))]
    case Binary(d) => [Printed(d)]
  }

  /** The host's closing `"quit"` makes the client restore its terminal
      before anything is reported, and report a graceful end unless a
      signal came first. */
  lemma QuitRestoresThenEnds(before: seq<ClientEvent>, saved: TermState)
    ensures var evs := before + OnMessageEvents(Text(Host.Quit), saved);
      evs[|before|] == Restored(saved) &&
      FirstSignal(evs) == Post(FirstSignal(before), Graceful)
  {
    FirstSignalAppend(before, OnMessageEvents(Text(Host.Quit), saved));
  }

  /** Any other string is reported, with the payload in the error text, and
      nothing is restored or printed. */
  lemma OtherTextUnmatched(d: seq<byte>, saved: TermState)
    requires d != Host.Quit
    ensures var evs := OnMessageEvents(Text(d), saved);
      |evs| == 1 && evs[0].Signalled? && evs[0].signal.Failed? &&
      Contains(evs[0].signal.err.text, d)
  {
    ContainsMiddle(Bytes("Unmatched string message: \""), d, Bytes("\""));
  }

  /** A binary payload is printed as it is and nothing is signalled. */
  lemma BinaryPrinted(d: seq<byte>, saved: TermState, before: seq<ClientEvent>)
    ensures var evs := before + OnMessageEvents(Binary(d), saved);
      evs == before + [Printed(d)] && FirstSignal(evs) == FirstSignal(before)
  {
    FirstSignalAppend(before, [Printed(d)]);
    assert FirstSignal([Printed(d)]) == None;
  }

  // ---------------------------------------------------- the stdin loop

  /** One pass of the stdin loop: what os.Stdin.Read returned (the bytes
      read and the error) and what dc.Send returned. */
  datatype StdinStep = StdinStep(data: seq<byte>, readErr: Option<Error>, sendErr: Option<Error>)

  /** One pass: a read error is sent on errChan and the bytes read are
      still sent; a send error is sent on errChan. */
  function StepEvents(step: StdinStep): seq<ClientEvent>
  {
    (if step.readErr.Some? then [Signalled(Failed(step.readErr.value))] else []) +
    [Sent(Binary(step.data))] +
    (if step.sendErr.Some? then [Signalled(Failed(step.sendErr.value))] else [])
  }

  /** The loop over a script of passes (the source loops forever). */
  function StdinEvents(steps: seq<StdinStep>): seq<ClientEvent>
    decreases |steps|
  {
    if steps == [] then [] else StdinEvents(steps[..|steps| - 1]) + StepEvents(steps[|steps| - 1])
  }

  lemma StdinEventsSnoc(steps: seq<StdinStep>, i: nat)
    requires i < |steps|
    ensures StdinEvents(steps[..i + 1]) == StdinEvents(steps[..i]) + StepEvents(steps[i])
  {
    assert steps[..i + 1][..i] == steps[..i];
  }

  function Forwarded(steps: seq<StdinStep>): (ps: seq<Payload>)
    ensures |ps| == |steps|
    ensures forall i :: 0 <= i < |steps| ==> ps[i] == Binary(steps[i].data)
  {
    seq(|steps|, i requires 0 <= i < |steps| => Binary(steps[i].data))
  }

  /** Every pass sends what it read, in order, whatever the errors. */
  lemma {:induction false} StdinForwarded(steps: seq<StdinStep>)
    ensures Sends(StdinEvents(steps)) == Forwarded(steps)
    decreases |steps|
  {
    if steps != [] {
      var init := steps[..|steps| - 1];
      StdinForwarded(init);
      SendsAppend(StdinEvents(init), StepEvents(steps[|steps| - 1]));
      StepSends(steps[|steps| - 1]);
      ForwardedSnoc(steps);
    }
  }

  /** One pass sends exactly the bytes it read. */
  lemma StepSends(step: StdinStep)
    ensures Sends(StepEvents(step)) == [Binary(step.data)]
  {
    var pre := if step.readErr.Some? then [Signalled(Failed(step.readErr.value))] else [];
    var post := if step.sendErr.Some? then [Signalled(Failed(step.sendErr.value))] else [];
    SendsAppend(pre + [Sent(Binary(step.data))], post);
    SendsAppend(pre, [Sent(Binary(step.data))]);
    assert Sends(pre) == [] && Sends(post) == [];
  }

  lemma ForwardedSnoc(steps: seq<StdinStep>)
    requires steps != []
    ensures Forwarded(steps) == Forwarded(steps[..|steps| - 1]) + [Binary(steps[|steps| - 1].data)]
  {
  }

  /** clientDataChannelOnOpen: a MakeRaw error is sent on errChan and the
      handler goes on. The initial SIGWINCH is handled by a goroutine that
      runs beside the stdin loop: `before` is the number of passes of that
      loop that finish before the goroutine acts. It then sends the window
      size (its Send error is dropped), or, when GetsizeFull fails, ends the
      process with glog.Fatal, so that no later pass happens. */
  function OnOpenEvents(raw: Result<TermState>, size: Result<Winsize>, before: nat, steps: seq<StdinStep>): seq<ClientEvent>
    requires before <= |steps|
  {
    (if raw.Err? then [Signalled(Failed(raw.error))] else []) +
    StdinEvents(steps[..before]) +
    (if size.Err? then [Exited(size.error)]
     else [Sent(Text(TermSizeMessage(size.value)))] + StdinEvents(steps[before..]))
  }

  /** Whenever the goroutine runs, the window size is sent exactly once, and
      around it every chunk read is sent, in order. */
  lemma SizeSentOnce(raw: Result<TermState>, size: Result<Winsize>, before: nat, steps: seq<StdinStep>)
    requires size.Ok? && before <= |steps|
    ensures Sends(OnOpenEvents(raw, size, before, steps)) ==
      Forwarded(steps[..before]) + [Text(TermSizeMessage(size.value))] + Forwarded(steps[before..])
    ensures Forwarded(steps[..before]) + Forwarded(steps[before..]) == Forwarded(steps)
  {
    var pre := if raw.Err? then [Signalled(Failed(raw.error))] else [];
    var m := [Sent(Text(TermSizeMessage(size.value)))];
    var head, tail := StdinEvents(steps[..before]), StdinEvents(steps[before..]);
    var f1, f2 := Forwarded(steps[..before]), Forwarded(steps[before..]);
    var evs := OnOpenEvents(raw, size, before, steps);
    assert evs == pre + head + (m + tail) by {
      OnOpenSent(raw, size, before, steps);
    }
    assert Sends(evs) == Sends(pre) + Sends(head) + (Sends(m) + Sends(tail)) by {
      SendsOfFour(pre, head, m, tail);
    }
    assert Sends(head) == f1 by {
      StdinForwarded(steps[..before]);
    }
    assert Sends(tail) == f2 by {
      StdinForwarded(steps[before..]);
    }
    assert Sends(pre) == [] by {
      NoSendsInSignals(pre);
    }
    assert Sends(m) == [Text(TermSizeMessage(size.value))] by {
      SendsOne(Text(TermSizeMessage(size.value)));
    }
    DropEmptyHead(Sends(evs), Sends(pre), f1, Sends(m), f2);
    ForwardedSplit(steps, before);
  }

  lemma DropEmptyHead(x: seq<Payload>, e: seq<Payload>, a: seq<Payload>, b: seq<Payload>, c: seq<Payload>)
    requires x == e + a + (b + c) && e == []
    ensures x == a + b + c
  {
  }

  lemma NoSendsInSignals(evs: seq<ClientEvent>)
    requires |evs| <= 1 && (forall i :: 0 <= i < |evs| ==> evs[i].Signalled?)
    ensures Sends(evs) == []
  {
  }

  lemma SendsOne(p: Payload)
    ensures Sends([Sent(p)]) == [p]
  {
    assert [Sent(p)][1..] == [];
  }

  lemma OnOpenSent(raw: Result<TermState>, size: Result<Winsize>, before: nat, steps: seq<StdinStep>)
    requires size.Ok? && before <= |steps|
    ensures OnOpenEvents(raw, size, before, steps) ==
      (if raw.Err? then [Signalled(Failed(raw.error))] else []) + StdinEvents(steps[..before]) +
      ([Sent(Text(TermSizeMessage(size.value)))] + StdinEvents(steps[before..]))
  {
  }

  lemma SendsOfFour(a: seq<ClientEvent>, b: seq<ClientEvent>, c: seq<ClientEvent>, d: seq<ClientEvent>)
    ensures Sends(a + b + (c + d)) == Sends(a) + Sends(b) + (Sends(c) + Sends(d))
  {
    SendsAppend(a + b, c + d);
    SendsAppend(a, b);
    SendsAppend(c, d);
  }

  lemma ForwardedSplit(steps: seq<StdinStep>, k: nat)
    requires k <= |steps|
    ensures Forwarded(steps[..k]) + Forwarded(steps[k..]) == Forwarded(steps)
  {
    var l, r := Forwarded(steps[..k]), Forwarded(steps[k..]);
    forall i | 0 <= i < |steps|
      ensures (l + r)[i] == Forwarded(steps)[i]
    {
      if i >= k {
        assert (l + r)[i] == r[i - k];
        assert steps[k..][i - k] == steps[i];
      }
    }
  }

  /** A failed MakeRaw is what runClient reports, whatever follows. */
  lemma RawErrorReported(raw: Result<TermState>, size: Result<Winsize>, before: nat, steps: seq<StdinStep>)
    requires raw.Err? && before <= |steps|
    ensures FirstSignal(OnOpenEvents(raw, size, before, steps)) == Some(Failed(raw.error))
  {
    var rest := StdinEvents(steps[..before]) +
      (if size.Err? then [Exited(size.error)] else [Sent(Text(TermSizeMessage(size.value)))] + StdinEvents(steps[before..]));
    FirstSignalAppend([Signalled(Failed(raw.error))], rest);
    assert OnOpenEvents(raw, size, before, steps) == [Signalled(Failed(raw.error))] + rest;
  }

  /** A GetsizeFull failure ends the process: only the passes that finished
      before it have sent anything, and nothing follows the exit. */
  lemma SizeFailureExits(raw: Result<TermState>, size: Result<Winsize>, before: nat, steps: seq<StdinStep>)
    requires size.Err? && before <= |steps|
    ensures var evs := OnOpenEvents(raw, size, before, steps);
      evs[|evs| - 1] == Exited(size.error) && Sends(evs) == Forwarded(steps[..before])
  {
    var pre := if raw.Err? then [Signalled(Failed(raw.error))] else [];
    var head := StdinEvents(steps[..before]);
    SendsAppend(pre + head, [Exited(size.error)]);
    SendsAppend(pre, head);
    StdinForwarded(steps[..before]);
    assert Sends(pre) == [];
  }

  lemma Regroup4(a: seq<ClientEvent>, b: seq<ClientEvent>, c: seq<ClientEvent>, d: seq<ClientEvent>)
    ensures a + b + c + d == a + (b + c + d)
  {
  }

  lemma Regroup5(a: seq<ClientEvent>, b: seq<ClientEvent>, c: seq<ClientEvent>, d: seq<ClientEvent>, e: seq<ClientEvent>)
    ensures a + b + c + d + e == a + (b + c + (d + e))
  {
  }

  // ----------------------------------------------------------- the class

  class ClientSession {
    /** Everything observable the client has done, in order. */
    var events: seq<ClientEvent>
    /** errChan. */
    var completion: Option<Signal>
    /** The state terminal.GetState saved in runClient. */
    const saved: TermState

    ghost predicate Valid()
      reads this
    {
      completion == FirstSignal(events)
    }

    constructor (saved: TermState)
      ensures Valid() && events == [] && this.saved == saved
    {
      events := [];
      completion := None;
      this.saved := saved;
    }

    /** `errChan <- s`. */
    method Signal(s: Signal)
      requires Valid()
      modifies this
      ensures Valid() && events == old(events) + [Signalled(s)]
      ensures completion == Post(old(completion), s)
    {
      SignalPosts(events, s);
      events := events + [Signalled(s)];
      if completion.None? {
        completion := Some(s);
      }
    }

    method Record(e: ClientEvent)
      requires Valid() && !e.Signalled?
      modifies this
      ensures Valid() && events == old(events) + [e] && completion == old(completion)
    {
      FirstSignalAppend(events, [e]);
      events := events + [e];
    }

    /** sendTermSize: GetsizeFull's failure is fatal; otherwise the message
        is sent and Send's error returned. */
    method SendTermSize(size: Result<Winsize>, sendErr: Option<Error>) returns (err: Option<Error>)
      requires Valid()
      modifies this
      ensures Valid() && completion == old(completion)
      ensures size.Err? ==> events == old(events) + [Exited(size.error)] && err.None?
      ensures size.Ok? ==> events == old(events) + [Sent(Text(TermSizeMessage(size.value)))] && err == sendErr
    {
      if size.Err? {
        Record(Exited(size.error));
        return None;
      }
      Record(Sent(Text(TermSizeMessage(size.value))));
      return sendErr;
    }

    /** clientDataChannelOnMessage. */
    method OnMessage(p: Payload)
      requires Valid()
      modifies this
      ensures Valid() && events == old(events) + OnMessageEvents(p, saved)
    {
      match p {
        case Text(d) =>
          if d == Host.Quit {
            Record(Restored(saved));
            Signal(Graceful);
            return;
          }
          Signal(Failed(Host.UnmatchedError(d)));
        case Binary(d) =>
          Record(Printed(d));
      }
    }

    /** One pass of the stdin loop. */
    method Pass(step: StdinStep)
      requires Valid()
      modifies this
      ensures Valid() && events == old(events) + StepEvents(step)
    {
      if step.readErr.Some? {
        Signal(Failed(step.readErr.value));
      }
      Record(Sent(Binary(step.data)));
      if step.sendErr.Some? {
        Signal(Failed(step.sendErr.value));
      }
    }

    /** The stdin loop of clientDataChannelOnOpen over a script of reads. */
    method StdinLoop(steps: seq<StdinStep>)
      requires Valid()
      modifies this
      ensures Valid() && events == old(events) + StdinEvents(steps)
    {
      var i := 0;
      while i < |steps|
        invariant 0 <= i <= |steps| && Valid()
        invariant events == old(events) + StdinEvents(steps[..i])
      {
        Pass(steps[i]);
        StdinEventsSnoc(steps, i);
        assert events == old(events) + (StdinEvents(steps[..i]) + StepEvents(steps[i]));
        i := i + 1;
      }
      assert steps[..i] == steps;
    }

    /** clientDataChannelOnOpen over a script of stdin reads, with the size
        goroutine acting after `before` passes. */
    method OnOpen(raw: Result<TermState>, size: Result<Winsize>, sizeSendErr: Option<Error>,
                  before: nat, steps: seq<StdinStep>)
      requires Valid() && before <= |steps|
      modifies this
      ensures Valid() && events == old(events) + OnOpenEvents(raw, size, before, steps)
    {
      ghost var pre := if raw.Err? then [Signalled(Failed(raw.error))] else [];
      if raw.Err? {
        Signal(Failed(raw.error));
      }
      assert events == old(events) + pre;
      StdinLoop(steps[..before]);
      ghost var head := StdinEvents(steps[..before]);
      var _ := SendTermSize(size, sizeSendErr);
      if size.Err? {
        Regroup4(old(events), pre, head, [Exited(size.error)]);
        assert events == old(events) + (pre + head + [Exited(size.error)]);
        return;
      }
      ghost var sizeMsg := [Sent(Text(TermSizeMessage(size.value)))];
      assert events == old(events) + pre + head + sizeMsg;
      StdinLoop(steps[before..]);
      Regroup5(old(events), pre, head, sizeMsg, StdinEvents(steps[before..]));
    }
  }
}
