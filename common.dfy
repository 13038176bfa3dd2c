/** Shared vocabulary of the webtty model: bytes, Go's uint16 conversion,
    errors, the completion signal and the pty window size. */
module Common {

  /** One octet. Go strings and byte slices are both `seq<byte>` here:
      a Go string is an immutable byte sequence. */
  type byte = b: int | 0 <= b < 256

  /** A value of Go's `uint16`. */
  type u16 = n: int | 0 <= n < 0x1_0000

  datatype Option<T> = None | Some(value: T)

  /** A Go error, known by the text its Error() method returns. */
  datatype Error = Error(text: seq<byte>)

  datatype Result<T> = Ok(value: T) | Err(error: Error) {
    predicate IsFailure() { Err? }
    function PropagateFailure<U>(): Result<U> requires Err? { Err(error) }
    function Extract(): T requires Ok? { value }
  }

  /** What a session's capacity-one `errChan` carries: `nil` (a graceful end)
      or an error. */
  datatype Signal = Graceful | Failed(err: Error)

  /** Sending on the capacity-one completion channel: the first value sent is
      the one the reader sees; later sends change nothing. */
  function Post(slot: Option<Signal>, s: Signal): (r: Option<Signal>)
    ensures r.Some?
    ensures slot.Some? ==> r == slot
  {
    if slot.None? then Some(s) else slot
  }

  /** The bytes of an ASCII literal. */
  function Bytes(s: string): (b: seq<byte>)
    ensures |b| == |s|
  {
    seq(|s|, i requires 0 <= i < |s| => (s[i] as int) % 256)
  }

  /** Go's conversion `uint16(n)` of an integer: keep the low 16 bits. */
  function ToU16(n: int): (r: u16)
    ensures 0 <= n < 0x1_0000 ==> r == n
    ensures (r - n) % 0x1_0000 == 0
  {
    n % 0x1_0000
  }

  /** A data-channel message: a string payload or a binary payload. */
  datatype Payload = Text(data: seq<byte>) | Binary(data: seq<byte>)

  /** A terminal state saved by terminal.MakeRaw, known by identity. */
  datatype TermState = TermState(id: nat)

  /** pty.Winsize: rows, columns and the pixel sizes X and Y. */
  datatype Winsize = Winsize(rows: u16, cols: u16, x: u16, y: u16)

  predicate HasPrefix(s: seq<byte>, p: seq<byte>)
  {
    |p| <= |s| && s[..|p|] == p
  }

  /** `needle` occurs somewhere inside `s` (Go's strings.Contains). */
  predicate Contains(s: seq<byte>, needle: seq<byte>)
  {
    exists i | 0 <= i <= |s| - |needle| :: OccursAt(s, needle, i)
  }

  predicate OccursAt(s: seq<byte>, needle: seq<byte>, i: int)
    requires 0 <= i <= |s| - |needle|
  {
    s[i..i + |needle|] == needle
  }

  lemma ContainsMiddle(a: seq<byte>, m: seq<byte>, b: seq<byte>)
    ensures Contains(a + m + b, m)
  {
    var s := a + m + b;
    assert OccursAt(s, m, |a|);
  }
}
