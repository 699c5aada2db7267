/**
 * `sendWsExecRequest`: the token-bearing socket URL and the loop that relays frames. The
 * WebSocket is abstracted as the sequence of results its successive reads return.
 */
module Relay {
  import opened Wrappers
  import opened Base64
  import opened Errors
  import opened GoStrings

  const TokenQuery := "?token="

  /** The URL dialled: the WebSocket URL, "?token=", and the token, neither escaped. */
  function SocketTokenUrl(websocketUrl: string, token: string): string {
    websocketUrl + TokenQuery + token
  }

  /** The position of the last occurrence of `c` in `s`, if any. */
  function LastIndexOf(s: string, c: char): (r: Option<nat>)
    ensures r.None? ==> c !in s
    ensures r.Some? ==> r.value < |s| && s[r.value] == c
    ensures r.Some? ==> forall j :: r.value < j < |s| ==> s[j] != c
  {
    if s == [] then None
    else if s[|s| - 1] == c then Some(|s| - 1)
    else
      var r := LastIndexOf(s[..|s| - 1], c);
      assert s == s[..|s| - 1] + [s[|s| - 1]];
      r
  }

  /** Splits a socket URL at its last '?' into the WebSocket URL and the token query value. */
  function SplitTokenUrl(u: string): Option<(string, string)> {
    match LastIndexOf(u, '?')
    case None => None
    case Some(k) =>
      if |u| - k >= |TokenQuery| && u[k..k + |TokenQuery|] == TokenQuery
      then Some((u[..k], u[k + |TokenQuery|..]))
      else None
  }

  /**
   * For a token without '?' the socket URL determines both parts: splitting it gives back the
   * WebSocket URL (even one that already has a query) and the token.
   */
  lemma SocketTokenUrlRoundTrip(websocketUrl: string, token: string)
    requires '?' !in token
    ensures SplitTokenUrl(SocketTokenUrl(websocketUrl, token)) == Some((websocketUrl, token))
  {
    var u := SocketTokenUrl(websocketUrl, token);
    var k := |websocketUrl|;
    assert u[k] == '?';
    forall j | k < j < |u| ensures u[j] != '?' {
      if j < k + |TokenQuery| {
        assert u[j] == TokenQuery[j - k];
      } else {
        assert u[j] == token[j - k - |TokenQuery|];
      }
    }
    var r := LastIndexOf(u, '?');
    assert r == Some(k);
    assert u[..k] == websocketUrl;
    assert u[k..k + |TokenQuery|] == TokenQuery;
    assert u[k + |TokenQuery|..] == token;
  }

  // ---------------------------------------------------------------------------
  // The read loop

  /** What one `conn.ReadMessage()` returns: a frame's payload, or an error and its text. */
  datatype ReadResult = Message(payload: seq<byte>) | ReadError(text: seq<byte>)

  /**
   * How the loop ended: a read error (the normal end of a command's output), a frame that is
   * not valid base 64 (fatal), or still waiting because every available read has been taken.
   */
  datatype RelayEnd = Closed | Corrupt(frame: nat) | Waiting

  /** A read that the loop relays: a frame whose payload decodes. */
  predicate Relays(r: ReadResult) {
    r.Message? && Decode(r.payload).Some?
  }

  predicate AllRelay(frames: seq<ReadResult>) {
    forall i :: 0 <= i < |frames| ==> Relays(frames[i])
  }

  /** The bytes one frame contributes to the output: its decoded payload. */
  function FrameBytes(r: ReadResult): seq<byte> {
    match r
    case Message(payload) => if Decode(payload).Some? then Decode(payload).value else []
    case ReadError(_) => []
  }

  /**
   * The decoded payloads of `frames`, concatenated in arrival order. It is applied to runs of
   * relayed frames only (`AllRelay`), where every frame contributes its whole payload.
   */
  function Delivered(frames: seq<ReadResult>): seq<byte> {
    if frames == [] then [] else FrameBytes(frames[0]) + Delivered(frames[1..])
  }

  /** The index of the first read that stops the loop, or |stream| if none does. */
  function StopIndex(stream: seq<ReadResult>): (k: nat)
    ensures k <= |stream|
    ensures AllRelay(stream[..k])
    ensures k < |stream| ==> !Relays(stream[k])
  {
    if stream == [] || !Relays(stream[0]) then 0
    else
      var k := 1 + StopIndex(stream[1..]);
      assert forall j :: 1 <= j < k ==> stream[..k][j] == stream[1..][..k - 1][j - 1];
      k
  }

  /**
   * What the loop has written and how it ended, in closed form: with `k` the first read that
   * is not a decodable frame, the decoded frames before `k` are written; then a read error's
   * text and a newline, or nothing for a corrupt frame.
   */
  ghost predicate RelayedAs(stream: seq<ReadResult>, stdout: seq<byte>, end: RelayEnd) {
    var k := StopIndex(stream);
    && (k == |stream| ==> end == Waiting && stdout == Delivered(stream))
    && (k < |stream| && stream[k].ReadError? ==>
          end == Closed && stdout == Delivered(stream[..k]) + stream[k].text + [10])
    && (k < |stream| && stream[k].Message? ==> end == Corrupt(k) && stdout == Delivered(stream[..k]))
  }

  /**
   * The relay loop: reads frames one by one, writes each decoded payload to standard output
   * as soon as it arrives, and stops at the first read error (printing its text and a
   * newline) or at the first payload that does not decode (writing nothing for it).
   * The result is the bytes written to standard output and how the loop ended.
   */
  method RelayFrames(stream: seq<ReadResult>) returns (stdout: seq<byte>, end: RelayEnd)
    ensures RelayedAs(stream, stdout, end)
  {
    stdout := [];
    var i := 0;
    while i < |stream|
      invariant i <= |stream|
      invariant AllRelay(stream[..i])
      invariant stdout == Delivered(stream[..i])
    {
      match stream[i]
      case ReadError(text) =>
        StopIndexAt(stream, i);
        stdout := stdout + text + [10];
        return stdout, Closed;
      case Message(payload) =>
        var results := Decode(payload);
        if results.None? {
          StopIndexAt(stream, i);
          return stdout, Corrupt(i);
        }
        AllRelayAppend(stream[..i], [stream[i]]);
        DeliveredAppend(stream[..i], [stream[i]]);
        assert Delivered([stream[i]]) == results.value;
        assert stream[..i + 1] == stream[..i] + [stream[i]];
        stdout := stdout + results.value;
      i := i + 1;
    }
    assert stream[..i] == stream;
    StopIndexAt(stream, i);
    end := Waiting;
  }

  /** What dialling a socket URL gives: a refusal, or a connection and what its reads return. */
  datatype Connection = Refused | Connected(stream: seq<ReadResult>)

  /**
   * How a connection's session ends for the whole program: a payload that does not decode is
   * fatal (`log.Fatal`) after the frames before it have been written; otherwise the loop
   * returns normally, closed by a read error or still waiting, as `RelayedAs` describes.
   */
  ghost predicate SessionAs(stream: seq<ReadResult>, stdout: seq<byte>, outcome: Result<RelayEnd, Failure>) {
    var k := StopIndex(stream);
    if k < |stream| && stream[k].Message? then
      outcome == Err(DecodeError(k)) && stdout == Delivered(stream[..k])
    else
      outcome.Ok? && RelayedAs(stream, stdout, outcome.value)
  }

  /**
   * `sendWsExecRequest`: dials the token-bearing socket URL (`dial` stands for the network)
   * and relays the connection's frames. A refused connection is fatal before anything is
   * written; a corrupt frame is fatal after the frames before it.
   */
  method SendWsExecRequest(websocketUrl: string, token: string, dial: string -> Connection)
    returns (dialled: string, stdout: seq<byte>, outcome: Result<RelayEnd, Failure>)
    ensures dialled == SocketTokenUrl(websocketUrl, token)
    ensures dial(dialled).Refused? ==> outcome == Err(DialFailed) && stdout == []
    ensures dial(dialled).Connected? ==> SessionAs(dial(dialled).stream, stdout, outcome)
    ensures outcome.Ok? ==> !outcome.value.Corrupt?
  {
    dialled := SocketTokenUrl(websocketUrl, token);
    match dial(dialled)
    case Refused =>
      stdout, outcome := [], Err(DialFailed);
    case Connected(stream) =>
      var end;
      stdout, end := RelayFrames(stream);
      if end.Corrupt? {
        outcome := Err(DecodeError(end.frame));
      } else {
        outcome := Ok(end);
      }
  }

  /** The stop index is where the first non-relayed read is. */
  lemma StopIndexAt(stream: seq<ReadResult>, i: nat)
    requires i <= |stream| && AllRelay(stream[..i])
    requires i < |stream| ==> !Relays(stream[i])
    ensures StopIndex(stream) == i
  {
    var k := StopIndex(stream);
    forall j | 0 <= j < i ensures Relays(stream[j]) { assert stream[..i][j] == stream[j]; }
    forall j | 0 <= j < k ensures Relays(stream[j]) { assert stream[..k][j] == stream[j]; }
  }

  // ---------------------------------------------------------------------------
  // Properties

  /** No reassembly across frames: the output of two runs of frames is the two outputs in turn. */
  lemma {:induction false} DeliveredAppend(a: seq<ReadResult>, b: seq<ReadResult>)
    ensures Delivered(a + b) == Delivered(a) + Delivered(b)
    decreases |a|
  {
    if a == [] {
      assert a + b == b;
    } else {
      var c := a + b;
      assert c[0] == a[0] && c[1..] == a[1..] + b;
      DeliveredAppend(a[1..], b);
    }
  }

  lemma AllRelayAppend(a: seq<ReadResult>, b: seq<ReadResult>)
    requires AllRelay(a) && AllRelay(b)
    ensures AllRelay(a + b)
  {
    forall i | 0 <= i < |a + b| ensures Relays((a + b)[i]) {
      if i >= |a| { assert (a + b)[i] == b[i - |a|]; }
    }
  }

  /**
   * Reads after the stopping one are never looked at, and a run that has not stopped yet
   * goes on with what arrives next: the loop's stop is the first stop of the whole stream.
   */
  lemma StopIndexAppend(a: seq<ReadResult>, b: seq<ReadResult>)
    ensures StopIndex(a + b) == if StopIndex(a) < |a| then StopIndex(a) else |a| + StopIndex(b)
  {
    if StopIndex(a) < |a| {
      StopInFirst(a, b);
    } else {
      StopInSecond(a, b);
    }
  }

  lemma StopInFirst(a: seq<ReadResult>, b: seq<ReadResult>)
    requires StopIndex(a) < |a|
    ensures StopIndex(a + b) == StopIndex(a)
  {
    var k := StopIndex(a);
    assert (a + b)[..k] == a[..k];
    assert (a + b)[k] == a[k];
    StopIndexAt(a + b, k);
  }

  lemma StopInSecond(a: seq<ReadResult>, b: seq<ReadResult>)
    requires StopIndex(a) == |a|
    ensures StopIndex(a + b) == |a| + StopIndex(b)
  {
    var k := StopIndex(b);
    RelayedPrefix(a, b, k);
    if k < |b| {
      assert (a + b)[|a| + k] == b[k];
    }
    StopIndexAt(a + b, |a| + k);
  }

  /** A fully relayed run followed by a relayed prefix of `b` is relayed. */
  lemma RelayedPrefix(a: seq<ReadResult>, b: seq<ReadResult>, k: nat)
    requires StopIndex(a) == |a| && k <= |b| && AllRelay(b[..k])
    ensures |a| + k <= |a + b| && AllRelay((a + b)[..|a| + k])
  {
    assert a[..|a|] == a;
    assert (a + b)[..|a| + k] == a + b[..k];
    AllRelayAppend(a, b[..k]);
  }

  /** The frames a server sends for the command output `chunks`, one chunk per frame. */
  function EncodedFrames(chunks: seq<seq<byte>>): (frames: seq<ReadResult>)
    ensures |frames| == |chunks|
  {
    if chunks == [] then [] else [Message(Encode(chunks[0]))] + EncodedFrames(chunks[1..])
  }

  /**
   * Relaying base 64 frames reproduces the command's output exactly: every encoded frame is
   * relayed and the decoded bytes are the chunks in order.
   */
  lemma {:induction false} RelayEncoded(chunks: seq<seq<byte>>)
    ensures AllRelay(EncodedFrames(chunks))
    ensures Delivered(EncodedFrames(chunks)) == Concat(chunks)
    decreases |chunks|
  {
    if chunks != [] {
      var frames := EncodedFrames(chunks);
      RelayEncoded(chunks[1..]);
      DecodeEncode(chunks[0]);
      assert frames[1..] == EncodedFrames(chunks[1..]);
      assert AllRelay(frames) by {
        forall i | 0 <= i < |frames| ensures Relays(frames[i]) {
          if i > 0 { assert frames[i] == EncodedFrames(chunks[1..])[i - 1]; }
        }
      }
    }
  }

  /**
   * A session whose server sends the encoded output and then closes: the loop relays the
   * whole output, prints the close error's text, and ends normally.
   */
  lemma RelayThenClose(chunks: seq<seq<byte>>, text: seq<byte>)
    ensures var stream := EncodedFrames(chunks) + [ReadError(text)];
      && StopIndex(stream) == |chunks|
      && stream[..|chunks|] == EncodedFrames(chunks)
      && Delivered(stream[..|chunks|]) == Concat(chunks)
  {
    var frames := EncodedFrames(chunks);
    var stream := frames + [ReadError(text)];
    RelayEncoded(chunks);
    assert stream[..|chunks|] == frames;
    StopIndexAt(stream, |chunks|);
  }
}
