/** The browser's terminal add-on (web-client/src/attach.ts): it attaches an
    xterm terminal to a socket-like channel, shows what arrives, optionally
    through a write buffer flushed by a 10 ms timer, and sends keystrokes
    and resizes as the JSON arrays the host dispatches.  JavaScript values
    that reach the buffer are strings, `undefined` or `null`; strings are
    byte sequences here.  The timer is not modelled as time: each
    `setTimeout` adds one pending flush, and a flush may only run while one
    is pending. */
module Attach {
  import opened Common
  import opened Json
  import opened Decimal
  import Host

  /** A JavaScript value as the buffer code sees it. */
  datatype JsValue = Str(s: seq<byte>) | Undefined | Null

  /** JavaScript truthiness: only a non-empty string is truthy. */
  predicate Truthy(v: JsValue) { v.Str? && v.s != [] }

  /** `a || b`. */
  function Or(a: JsValue, b: JsValue): (r: JsValue)
    ensures Truthy(a) ==> r == a
    ensures !Truthy(a) ==> r == b
  {
    if Truthy(a) then a else b
  }

  /** The text `+=` appends for a value: `undefined` and `null` become the
      words themselves. */
  function Stringify(v: JsValue): (t: seq<byte>)
    ensures v.Str? ==> t == v.s
    ensures !v.Str? ==> |t| >= 4
  {
    match v
    case Str(s) => s
    case Undefined => Bytes("undefined")
    case Null => Bytes("null")
  }

  /** What a terminal write of the value shows.  Writing `undefined` or
      `null` shows nothing. */
  function Shown(v: JsValue): seq<byte>
  {
    if v.Str? then v.s else []
  }

  /** The text of a run of terminal writes. */
  function AllShown(ws: seq<JsValue>): seq<byte>
    decreases |ws|
  {
    if ws == [] then [] else AllShown(ws[..|ws| - 1]) + Shown(ws[|ws| - 1])
  }

  lemma AllShownSnoc(ws: seq<JsValue>, v: JsValue)
    ensures AllShown(ws + [v]) == AllShown(ws) + Shown(v)
  {
    assert (ws + [v])[..|ws|] == ws;
  }

  // --------------------------------------------------- the write buffer

  /** The display side of the add-on: `__attachSocketBuffer`, the flushes
      scheduled and not yet run, and the terminal writes so far. */
  datatype Screen = Screen(buffer: JsValue, pending: nat, written: seq<JsValue>)

  /** Everything shown once the pending flushes have run. */
  function Eventually(sc: Screen): seq<byte>
  {
    AllShown(sc.written) + Shown(sc.buffer)
  }

  /** A buffer holding text always has a flush scheduled for it. */
  predicate Scheduled(sc: Screen)
  {
    Truthy(sc.buffer) ==> sc.pending >= 1
  }

  /** `__pushToBuffer`: a truthy buffer is appended to; otherwise the data
      becomes the buffer and one flush is scheduled. */
  function Push(sc: Screen, data: JsValue): (r: Screen)
    ensures r.written == sc.written
    ensures r.pending == sc.pending + (if Truthy(sc.buffer) then 0 else 1)
    ensures Truthy(sc.buffer) ==> r.buffer == Str(sc.buffer.s + Stringify(data))
    ensures !Truthy(sc.buffer) ==> r.buffer == data
  {
    if Truthy(sc.buffer) then sc.(buffer := Str(sc.buffer.s + Stringify(data)))
    else sc.(buffer := data, pending := sc.pending + 1)
  }

  /** `__flushBuffer`, run by a timer that was scheduled. */
  function Flush(sc: Screen): (r: Screen)
    requires sc.pending > 0
    ensures r.written == sc.written + [sc.buffer] && r.buffer == Null && r.pending == sc.pending - 1
  {
    Screen(Null, sc.pending - 1, sc.written + [sc.buffer])
  }

  /** `displayData(str)` (every call passes only `str`, so `data` is
      `undefined`): through the buffer when the add-on is buffered, else
      written at once. */
  function Display(sc: Screen, buffered: bool, str: JsValue): (r: Screen)
    ensures !buffered ==> r == sc.(written := sc.written + [Or(str, Undefined)])
    ensures buffered ==> r == Push(sc, Or(str, Undefined))
  {
    if buffered then Push(sc, Or(str, Undefined)) else sc.(written := sc.written + [Or(str, Undefined)])
  }

  /** What one displayed value adds to the eventual text: a non-empty
      string adds itself; an empty or missing one adds nothing, except that
      `undefined` appended to a buffer holding text adds the word
      "undefined". */
  function Adds(sc: Screen, buffered: bool, str: JsValue): (t: seq<byte>)
    ensures Truthy(str) ==> t == str.s
    ensures !Truthy(str) && !(buffered && Truthy(sc.buffer)) ==> t == []
    ensures !Truthy(str) && buffered && Truthy(sc.buffer) ==> t == Bytes("undefined")
  {
    if Truthy(str) then str.s
    else if buffered && Truthy(sc.buffer) then Bytes("undefined")
    else []
  }

  /** Pushing keeps every byte and its order, and keeps text scheduled. */
  lemma PushKeepsText(sc: Screen, data: JsValue)
    requires Scheduled(sc)
    ensures Scheduled(Push(sc, data))
    ensures Eventually(Push(sc, data)) ==
      Eventually(sc) + (if Truthy(sc.buffer) then Stringify(data) else Shown(data))
  {
  }

  /** A flush moves the buffer to the terminal and loses nothing. */
  lemma FlushKeepsText(sc: Screen)
    requires sc.pending > 0 && Scheduled(sc)
    ensures Scheduled(Flush(sc))
    ensures Eventually(Flush(sc)) == Eventually(sc)
    ensures AllShown(Flush(sc).written) == AllShown(sc.written) + Shown(sc.buffer)
  {
    AllShownSnoc(sc.written, sc.buffer);
  }

  /** Displaying adds exactly what `Adds` says to the eventual text. */
  lemma DisplayKeepsText(sc: Screen, buffered: bool, str: JsValue)
    requires Scheduled(sc) && (buffered || !Truthy(sc.buffer))
    ensures Scheduled(Display(sc, buffered, str))
    ensures Eventually(Display(sc, buffered, str)) == Eventually(sc) + Adds(sc, buffered, str)
  {
    var v := Or(str, Undefined);
    if buffered {
      PushKeepsText(sc, v);
    } else {
      AllShownSnoc(sc.written, v);
    }
  }

  /** With no flush pending the terminal shows everything. */
  lemma SettledShowsAll(sc: Screen)
    requires Scheduled(sc) && sc.pending == 0
    ensures AllShown(sc.written) == Eventually(sc)
  {
  }

  /** Unbuffered, a message is on the terminal as soon as it is displayed. */
  lemma UnbufferedWritesAtOnce(sc: Screen, str: JsValue)
    requires Truthy(str)
    ensures AllShown(Display(sc, false, str).written) == AllShown(sc.written) + str.s
  {
    AllShownSnoc(sc.written, str);
  }

  /** Several non-empty messages arriving within one 10 ms window are
      pushed to the buffer with one flush, which writes them all in order. */
  lemma OneFlushForABurst(a: seq<byte>, b: seq<byte>)
    requires a != [] && b != []
    ensures var sc := Display(Display(Screen(Null, 0, []), true, Str(a)), true, Str(b));
      sc.pending == 1 && Flush(sc).written == [Str(a + b)] && Flush(sc).pending == 0
  {
  }

  /** An empty message while text is buffered puts the word "undefined"
      on the terminal: `"" || undefined` is `undefined`, and `+=` turns it
      into text. */
  lemma EmptyMessageAppendsUndefined(a: seq<byte>)
    requires a != []
    ensures var sc := Display(Display(Screen(Null, 0, []), true, Str(a)), true, Str([]));
      Flush(sc).written == [Str(a + Bytes("undefined"))]
  {
  }

  // ------------------------------------------------------ sent messages

  /** `JSON.stringify(["stdin", data])`. */
  function StdinMessage(data: seq<byte>): seq<byte>
  {
    Host.Message(Host.StdinTag, [JString(data)])
  }

  /** `JSON.stringify(["set_size", rows, cols])`. */
  function SetSizeMessage(rows: int, cols: int): seq<byte>
  {
    Host.Message(Host.SetSizeTag, [JInt(rows), JInt(cols)])
  }

  /** A keystroke message makes the host write the keys to the pty as Go
      reads them back: exactly the keys when they are valid UTF-8, as the
      UTF-8 of a JavaScript string is. */
  lemma StdinReachesHost(data: seq<byte>, st: Host.PtyState, slot: Option<Signal>,
                         parse: ArrayParser, io: Host.PtyResults)
    requires ReadsArrayText(parse)
    ensures Host.Dispatchable(Text(StdinMessage(data)), parse)
    ensures Host.React(Text(StdinMessage(data)), st, slot, parse, io) ==
      Host.Reaction(if data == [] then st else st.(writes := st.writes + [Coerce(data)]), slot)
    ensures ValidUtf8(data) ==>
      Host.React(Text(StdinMessage(data)), st, slot, parse, io) ==
        Host.Reaction(if data == [] then st else st.(writes := st.writes + [data]), slot)
  {
    Host.StdinWritten(data, st, slot, parse, io);
  }

  /** A resize message has no X and Y, so the host changes only rows and
      columns (cut to 16 bits) and keeps X and Y. */
  lemma SetSizeKeepsPixels(rows: int, cols: int, st: Host.PtyState, slot: Option<Signal>, parse: ArrayParser)
    requires ReadsArrayText(parse)
    requires MinInt64 <= rows <= MaxInt64 && MinInt64 <= cols <= MaxInt64
    ensures Host.Dispatchable(Text(SetSizeMessage(rows, cols)), parse)
    ensures Host.React(Text(SetSizeMessage(rows, cols)), st, slot, parse, Host.NoErrors) ==
      Host.Reaction(st.(size := Winsize(ToU16(rows), ToU16(cols), st.size.x, st.size.y)), slot)
  {
    var dims := [rows, cols];
    assert IntValues(dims) == [JInt(rows), JInt(cols)];
    Host.SetSizeApplied(dims, st, slot, parse, Host.NoErrors);
  }

  // --------------------------------------------------------- the add-on

  /** What a socket message carries: an ArrayBuffer or a Blob (decoded as
      text), a string, or a value of another type. */
  datatype MessageData = ArrayBufferData(b: seq<byte>) | BlobData(b: seq<byte>) | StringData(s: seq<byte>)
                       | OtherData(typeName: seq<byte>)

  /** The error `__getMessage` throws for a message of another type. */
  function CannotHandle(typeName: seq<byte>): Error
  {
    Error(Bytes("Cannot handle \"") + typeName + Bytes("\" websocket message."))
  }

  /** A terminal with the add-on attached: the fields terminadoAttach sets
      on it, the handlers and listeners it registers, what it writes and
      what it sends on the socket. */
  class Attachment {
    var buffer: JsValue
    var pendingFlushes: nat
    var written: seq<JsValue>
    var sent: seq<seq<byte>>
    /** Whether `__socket` is set. */
    var hasSocket: bool
    var dataHandler: bool
    var resizeHandler: bool
    var messageListener: bool
    var closeListeners: bool
    /** The `buffered` argument the closures captured. */
    const buffered: bool
    /** The text displayed so far, as it will eventually be shown. */
    ghost var shown: seq<byte>

    ghost predicate Valid()
      reads this
    {
      Scheduled(Screen(buffer, pendingFlushes, written)) &&
      (buffered || !Truthy(buffer)) &&
      Eventually(Screen(buffer, pendingFlushes, written)) == shown
    }

    /** terminadoAttach on a terminal: `bidirectional` defaults to true
        when undefined; the message, resize, close and error handlers are
        always registered, the data handler only when bidirectional.  The
        buffer property is not set yet. */
    constructor (bidirectional: Option<bool>, buffered: bool)
      ensures Valid() && this.buffered == buffered
      ensures hasSocket && messageListener && resizeHandler && closeListeners
      ensures dataHandler == (bidirectional.None? || bidirectional.value)
      ensures buffer == Undefined && pendingFlushes == 0 && written == [] && sent == []
    {
      var bidi := if bidirectional.None? then true else bidirectional.value;
      hasSocket := true;
      buffer := Undefined;
      pendingFlushes := 0;
      written := [];
      sent := [];
      shown := [];
      this.buffered := buffered;
      messageListener := true;
      dataHandler := bidi;
      resizeHandler := true;
      closeListeners := true;
    }

    /** Only displayData calls it, and only when the add-on is buffered. */
    method PushToBuffer(data: JsValue)
      requires Valid() && buffered
      modifies this`buffer, this`pendingFlushes, this`shown
      ensures Valid()
      ensures Screen(buffer, pendingFlushes, written) == Push(Screen(old(buffer), old(pendingFlushes), written), data)
      ensures shown == old(shown) + (if Truthy(old(buffer)) then Stringify(data) else Shown(data))
    {
      PushKeepsText(Screen(buffer, pendingFlushes, written), data);
      if Truthy(buffer) {
        shown := shown + Stringify(data);
        buffer := Str(buffer.s + Stringify(data));
      } else {
        shown := shown + Shown(data);
        buffer := data;
        pendingFlushes := pendingFlushes + 1;
      }
    }

    /** A scheduled timer fires. */
    method FlushBuffer()
      requires Valid() && pendingFlushes > 0
      modifies this`buffer, this`pendingFlushes, this`written
      ensures Valid()
      ensures Screen(buffer, pendingFlushes, written) == Flush(Screen(old(buffer), old(pendingFlushes), old(written)))
    {
      FlushKeepsText(Screen(buffer, pendingFlushes, written));
      written := written + [buffer];
      buffer := Null;
      pendingFlushes := pendingFlushes - 1;
    }

    method DisplayData(str: JsValue)
      requires Valid()
      modifies this`buffer, this`pendingFlushes, this`written, this`shown
      ensures Valid()
      ensures Screen(buffer, pendingFlushes, written) ==
        Display(Screen(old(buffer), old(pendingFlushes), old(written)), buffered, str)
      ensures shown == old(shown) + Adds(Screen(old(buffer), old(pendingFlushes), old(written)), buffered, str)
    {
      DisplayKeepsText(Screen(buffer, pendingFlushes, written), buffered, str);
      var v := Or(str, Undefined);
      if buffered {
        PushToBuffer(v);
      } else {
        shown := shown + Shown(v);
        written := written + [v];
      }
    }

    /** `__getMessage`: every message but one of another type is
        displayed as text; that one throws. */
    method GetMessage(ev: MessageData) returns (thrown: Option<Error>)
      requires Valid()
      modifies this`buffer, this`pendingFlushes, this`written, this`shown
      ensures Valid()
      ensures ev.OtherData? ==> thrown == Some(CannotHandle(ev.typeName)) && unchanged(this)
      ensures !ev.OtherData? ==> thrown.None?
      ensures !ev.OtherData? ==>
        Screen(buffer, pendingFlushes, written) == Display(Screen(old(buffer), old(pendingFlushes), old(written)), buffered, Str(TextOf(ev)))
      ensures !ev.OtherData? ==>
        shown == old(shown) + Adds(Screen(old(buffer), old(pendingFlushes), old(written)), buffered, Str(TextOf(ev)))
    {
      match ev
      case OtherData(t) =>
        return Some(CannotHandle(t));
      case _ =>
        DisplayData(Str(TextOf(ev)));
        return None;
    }

    /** The terminal's "data" event: `__sendData` when it is registered. */
    method OnData(data: seq<byte>)
      modifies this`sent
      ensures sent == old(sent) + (if dataHandler then [StdinMessage(data)] else [])
    {
      if dataHandler {
        sent := sent + [StdinMessage(data)];
      }
    }

    /** The terminal's "resize" event: `__setSize` when it is registered. */
    method OnResize(rows: int, cols: int)
      modifies this`sent
      ensures sent == old(sent) + (if resizeHandler then [SetSizeMessage(rows, cols)] else [])
    {
      if resizeHandler {
        sent := sent + [SetSizeMessage(rows, cols)];
      }
    }

    /** terminadoDetach (the close and error listeners call it with the
        socket): the data handler goes, the message listener goes when a
        socket is given or `__socket` is set, and `__socket` is deleted.
        The resize handler stays registered. */
    method Detach(socketGiven: bool)
      modifies this`dataHandler, this`messageListener, this`hasSocket
      ensures !dataHandler && !hasSocket
      ensures messageListener == (old(messageListener) && !socketGiven && !old(hasSocket))
    {
      dataHandler := false;
      if socketGiven || hasSocket {
        messageListener := false;
      }
      hasSocket := false;
    }
  }

  /** The bytes a message carries, as the text it is displayed as. */
  function TextOf(ev: MessageData): seq<byte>
    requires !ev.OtherData?
  {
    match ev
    case ArrayBufferData(b) => b
    case BlobData(b) => b
    case StringData(s) => s
  }
}
