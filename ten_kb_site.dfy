/** The 10kb.site relay used by one-way connections: the host posts nothing
    itself but polls a random path until the browser has uploaded its
    answer there.  HTTP is replaced by the reply each request got. */
module TenKbSite {
  import opened Common
  import opened Decimal

  const StatusOK: int := 200
  const StatusCreated: int := 201
  const StatusNotFound: int := 404

  /** What one request came back with: a response (its status code, the
      bytes ReadAll got from its body and ReadAll's error), or no response
      at all (http.Post/http.Get returned an error and a nil response). */
  datatype HttpReply = Reply(status: int, body: seq<byte>, bodyErr: Option<Error>) | Unreachable(err: Error)

  /** The text `Resp <status> 10kb.site error: <body>`. */
  function StatusError(status: int, body: seq<byte>): Error
  {
    Error(Bytes("Resp ") + Itoa(status) + (Bytes(" 10kb.site error: ") + body))
  }

  lemma StatusErrorNamesStatus(status: int, body: seq<byte>)
    ensures Contains(StatusError(status, body).text, Itoa(status))
  {
    ContainsMiddle(Bytes("Resp "), Itoa(status), Bytes(" 10kb.site error: ") + body);
  }

  /** create10kbFile: a transport error is returned; any status but 201
      Created is an error that quotes the status and the body. */
  function CreateFile(reply: HttpReply): (r: Option<Error>)
    ensures reply.Unreachable? ==> r == Some(reply.err)
    ensures reply.Reply? ==> (r.None? <==> reply.status == StatusCreated)
    ensures reply.Reply? && reply.status != StatusCreated ==> Contains(r.value.text, Itoa(reply.status))
  {
    match reply
    case Unreachable(e) => Some(e)
    case Reply(status, body, _) =>
      if status != StatusCreated then
        StatusErrorNamesStatus(status, body);
        Some(StatusError(status, body))
      else None
  }

  /** read10kbFile's results: the status, the body and the error. */
  datatype Fetch = Fetch(status: int, body: seq<byte>, err: Option<Error>)

  /** read10kbFile as written: on a transport error it reads the status code
      of the nil response, a nil pointer dereference. */
  datatype AsWritten = Returned(fetch: Fetch) | NilDereference

  function ReadFileAsWritten(reply: HttpReply): AsWritten
  {
    match reply
    case Unreachable(_) => NilDereference
    case Reply(status, body, bodyErr) =>
      if status != StatusNotFound && status != StatusOK then Returned(Fetch(status, [], Some(StatusError(status, body))))
      else if bodyErr.Some? then Returned(Fetch(status, [], bodyErr))
      else Returned(Fetch(status, body, None))
  }

  /** The request that shows it: any transport failure panics. */
  lemma UnreachablePanics(e: Error)
    ensures ReadFileAsWritten(Unreachable(e)) == NilDereference
  {
  }

  /** read10kbFile as evidently intended: a transport error is returned
      with status 0 and an empty body; otherwise as written.  A status other
      than 200 and 404 is an error naming the status; a body read error is
      returned; 200 and 404 return the body. */
  function ReadFile(reply: HttpReply): (r: Fetch)
    ensures reply.Unreachable? ==> r == Fetch(0, [], Some(reply.err))
    ensures reply.Reply? ==> r.status == reply.status
    ensures reply.Reply? && reply.status != StatusOK && reply.status != StatusNotFound ==>
      r.body == [] && r.err.Some? && Contains(r.err.value.text, Itoa(reply.status))
    ensures reply.Reply? && (reply.status == StatusOK || reply.status == StatusNotFound) ==>
      r == (if reply.bodyErr.Some? then Fetch(reply.status, [], reply.bodyErr) else Fetch(reply.status, reply.body, None))
    ensures r.err.None? ==> r.status == StatusOK || r.status == StatusNotFound
  {
    match reply
    case Unreachable(e) => Fetch(0, [], Some(e))
    case Reply(status, body, _) =>
      StatusErrorNamesStatus(status, body);
      ReadFileAsWritten(reply).fetch
  }

  /** Where a response exists, the correction returns what the source does. */
  lemma ReadFileAgrees(reply: HttpReply)
    requires reply.Reply?
    ensures ReadFileAsWritten(reply) == Returned(ReadFile(reply))
  {
  }

  // ------------------------------------------------------------ polling

  /** One answer makes polling go on: no error and status 404. */
  predicate Retries(reply: HttpReply)
  {
    ReadFile(reply).err.None? && ReadFile(reply).status != StatusOK
  }

  /** How polling over a finite script of replies ends: with the body and
      error of the first reply that is not a retry, after `requests`
      requests, or still polling when every scripted reply was a retry (the
      source would go on forever). */
  datatype Poll = Answered(body: seq<byte>, err: Option<Error>, requests: nat) | StillPolling

  function PollSpec(replies: seq<HttpReply>): Poll
  {
    if replies == [] then StillPolling
    else if !Retries(replies[0]) then Answered(ReadFile(replies[0]).body, ReadFile(replies[0]).err, 1)
    else match PollSpec(replies[1..])
      case StillPolling => StillPolling
      case Answered(b, e, n) => Answered(b, e, n + 1)
  }

  /** The first reply that is not a retry decides the outcome. */
  lemma {:induction false} PollAnswered(replies: seq<HttpReply>, i: nat)
    requires i < |replies| && !Retries(replies[i])
    requires forall k :: 0 <= k < i ==> Retries(replies[k])
    ensures PollSpec(replies) == Answered(ReadFile(replies[i]).body, ReadFile(replies[i]).err, i + 1)
  {
    if i > 0 {
      assert Retries(replies[0]);
      assert forall k :: 0 <= k < i - 1 ==> replies[1..][k] == replies[k + 1];
      PollAnswered(replies[1..], i - 1);
    }
  }

  /** Nothing but retries keeps polling. */
  lemma {:induction false} PollRetrying(replies: seq<HttpReply>)
    requires forall k :: 0 <= k < |replies| ==> Retries(replies[k])
    ensures PollSpec(replies) == StillPolling
  {
    if replies != [] {
      assert Retries(replies[0]);
      assert forall k :: 0 <= k < |replies| - 1 ==> replies[1..][k] == replies[k + 1];
      PollRetrying(replies[1..]);
    }
  }

  /** And conversely: an answer after n requests means n - 1 retries and then
      a reply that is an error or a 200, whose body and error are returned. */
  lemma {:induction false} PollAnsweredInverse(replies: seq<HttpReply>)
    requires PollSpec(replies).Answered?
    ensures var n := PollSpec(replies).requests;
      1 <= n <= |replies| && !Retries(replies[n - 1]) &&
      (forall k :: 0 <= k < n - 1 ==> Retries(replies[k])) &&
      PollSpec(replies).body == ReadFile(replies[n - 1]).body &&
      PollSpec(replies).err == ReadFile(replies[n - 1]).err
  {
    if Retries(replies[0]) {
      PollAnsweredInverse(replies[1..]);
      var n := PollSpec(replies).requests;
      assert PollSpec(replies[1..]).requests == n - 1;
      forall k | 0 <= k < n - 1 ensures Retries(replies[k]) {
        if k > 0 {
          assert replies[k] == replies[1..][k - 1];
        }
      }
      assert replies[n - 1] == replies[1..][n - 2];
    }
  }

  /** An answer carries an error, or has status 200: the body of a success. */
  lemma PollAnswerIsFinal(replies: seq<HttpReply>)
    requires PollSpec(replies).Answered?
    ensures var p := PollSpec(replies);
      p.err.Some? || (exists k | 0 <= k < |replies| :: ReadFile(replies[k]) == Fetch(StatusOK, p.body, None))
  {
    PollAnsweredInverse(replies);
    var n := PollSpec(replies).requests;
    if PollSpec(replies).err.None? {
      assert ReadFile(replies[n - 1]) == Fetch(StatusOK, PollSpec(replies).body, None);
    }
  }

  /** pollForResponse over the scripted replies. */
  method PollForResponse(replies: seq<HttpReply>) returns (outcome: Poll)
    ensures outcome == PollSpec(replies)
  {
    var i := 0;
    while i < |replies|
      invariant 0 <= i <= |replies|
      invariant forall k :: 0 <= k < i ==> Retries(replies[k])
    {
      var fetch := ReadFile(replies[i]);
      if fetch.err.Some? || fetch.status == StatusOK {
        PollAnswered(replies, i);
        return Answered(fetch.body, fetch.err, i + 1);
      }
      // a 404: the source sleeps 300 ms here and asks again
      i := i + 1;
    }
    PollRetrying(replies);
    return StillPolling;
  }

  /** Two 404 replies and then `body` give `body` with no error. */
  lemma NotFoundTwiceThenBody()
    ensures PollSpec([Reply(404, [], None), Reply(404, [], None), Reply(200, Bytes("body"), None)])
      == Answered(Bytes("body"), None, 3)
  {
    var replies := [Reply(404, [], None), Reply(404, [], None), Reply(200, Bytes("body"), None)];
    PollAnswered(replies, 2);
  }

  // ------------------------------------------------------------- randSeq

  /** The k-th character of `0-9a-zA-Z`. */
  function Letter(k: int): (c: byte)
    requires 0 <= k < 62
  {
    if k < 10 then 48 + k else if k < 36 then 97 + (k - 10) else 65 + (k - 36)
  }

  predicate IsAlphanumeric(c: byte)
  {
    (48 <= c <= 57) || (97 <= c <= 122) || (65 <= c <= 90)
  }

  /** randSeq(n), given the successive values `r.Intn(62)` returned:
      n characters, the i-th being letter picks[i]. */
  method RandSeq(n: nat, picks: seq<int>) returns (s: seq<byte>)
    requires |picks| == n
    requires forall i :: 0 <= i < n ==> 0 <= picks[i] < 62
    ensures |s| == n
    ensures forall i :: 0 <= i < n ==> s[i] == Letter(picks[i])
    ensures forall i :: 0 <= i < n ==> IsAlphanumeric(s[i])
  {
    var b := new byte[n];
    for i := 0 to n
      invariant forall k :: 0 <= k < i ==> b[k] == Letter(picks[k])
    {
      b[i] := Letter(picks[i]);
    }
    s := b[..];
  }
}
