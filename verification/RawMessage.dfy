// server/rawmessage/rawmessage.go: one message off a TCP connection, line by line up to
// the stop symbol.

module RawMessage {
  import opened ByteStrings
  import opened Protocol

  const NEWLINE: byte := 10

  // How many bytes the first line has, with its newline.
  function LineLength(b: Bytes): (n: nat)
    requires NEWLINE in b
    ensures 0 < n <= |b| && b[n - 1] == NEWLINE
  {
    if b[0] == NEWLINE then 1 else 1 + LineLength(b[1..])
  }

  // There is no newline before it.
  lemma {:induction false} LineHasOneNewline(b: Bytes)
    requires NEWLINE in b
    ensures NEWLINE !in b[..LineLength(b) - 1]
  {
    if b[0] != NEWLINE {
      LineHasOneNewline(b[1..]);
      var n := LineLength(b[1..]);
      assert b[..n] == [b[0]] + b[1..][..n - 1];
    }
  }

  // The stop symbol stands at `i`.
  predicate StopAt(b: Bytes, i: nat) {
    i + 3 <= |b| && b[i] == STOP[0] && b[i + 1] == STOP[1] && b[i + 2] == STOP[2]
  }

  predicate EndsWithStop(message: Bytes) {
    |message| >= 3 && StopAt(message, |message| - 3)
  }

  datatype Gathered = Gathered(message: Bytes, rest: Bytes)

  // The loop: lines are appended until the stop symbol ends the message, or the stream
  // ends and what is left of it is dropped.
  function Gather(message: Bytes, rest: Bytes): Gathered
    decreases |rest|
  {
    if EndsWithStop(message) then Gathered(message, rest)
    else if NEWLINE !in rest then Gathered(message, [])
    else
      var n := LineLength(rest);
      Gather(message + rest[..n], rest[n..])
  }

  // What becomes of one call. The source slices three bytes off whatever it gathered, and
  // panics when there are fewer.
  datatype Outcome = EndOfStream | Panicked | Delivered(message: Bytes)

  function Received(stream: Bytes): Outcome {
    if NEWLINE !in stream then EndOfStream
    else
      var n := LineLength(stream);
      var gathered := Gather(TrimLeft(stream[..n]), stream[n..]);
      if |gathered.message| < 3 then Panicked
      else Delivered(Padded(TrimRight(gathered.message[..|gathered.message| - 3]), PACKET_SIZE))
  }

  // The buffered reader over one connection.
  class Reader {
    var rest: Bytes

    constructor (stream: Bytes)
      ensures rest == stream
    {
      rest := stream;
    }

    // `ReadBytes('\n')`.
    method ReadLine() returns (line: Bytes, ok: bool)
      modifies this
      ensures ok <==> NEWLINE in old(rest)
      ensures if ok then line == old(rest)[..LineLength(old(rest))] && rest == old(rest)[LineLength(old(rest))..]
              else line == old(rest) && rest == []
    {
      var i := 0;
      while i < |rest| && rest[i] != NEWLINE
        invariant i <= |rest| && NEWLINE !in rest[..i]
      {
        i := i + 1;
      }
      if i == |rest| {
        assert rest[..i] == rest;
        line, rest, ok := rest, [], false;
      } else {
        LineLengthIs(rest, i);
        line, rest, ok := rest[..i + 1], rest[i + 1..], true;
      }
    }
  }

  lemma {:induction false} LineLengthAtMost(b: Bytes, i: nat)
    requires i < |b| && b[i] == NEWLINE
    ensures NEWLINE in b && LineLength(b) <= i + 1
  {
    if b[0] != NEWLINE {
      LineLengthAtMost(b[1..], i - 1);
    }
  }

  lemma {:induction false} LineLengthIs(b: Bytes, i: nat)
    requires i < |b| && b[i] == NEWLINE && NEWLINE !in b[..i]
    ensures NEWLINE in b && LineLength(b) == i + 1
  {
    LineLengthAtMost(b, i);
    if i > 0 {
      assert b[..i][0] == b[0];
      assert forall x | x in b[1..][..i - 1] :: x in b[..i];
      LineLengthIs(b[1..], i - 1);
    }
  }

  method ReadOneTcpMessage(reader: Reader) returns (outcome: Outcome)
    modifies reader
    ensures outcome == Received(old(reader.rest))
  {
    var message, ok := reader.ReadLine();
    if !ok {
      return EndOfStream;
    }
    message := TrimLeft(message);
    ghost var target := Gather(message, reader.rest);
    while !EndsWithStop(message)
      invariant Gather(message, reader.rest) == target
      decreases |reader.rest|
    {
      var line, more := reader.ReadLine();
      if !more {
        break;
      }
      message := message + line;
    }
    assert message == target.message;
    if |message| < 3 {
      return Panicked;
    }
    message := message[..|message| - 3];
    message := TrimRight(message);
    message := PadRight(message, PACKET_SIZE);
    outcome := Delivered(message);
  }

  // ---- What survives the connection ----

  // No stop symbol ends before the end of `full`.
  ghost predicate NoStopBefore(full: Bytes, end: nat)
    requires end <= |full|
  {
    forall i | 0 <= i < end :: !EndsWithStop(full[..i])
  }

  lemma {:induction false} LineOfFront(b: Bytes, tail: Bytes)
    requires NEWLINE in b
    ensures LineLength(b + tail) == LineLength(b)
  {
    if b[0] != NEWLINE {
      assert (b + tail)[1..] == b[1..] + tail;
      LineOfFront(b[1..], tail);
    }
  }

  // No stop symbol ends between `done` and the end of `left`.
  ghost predicate Quiet(done: Bytes, left: Bytes) {
    forall k | 0 <= k < |left| :: !EndsWithStop(done + left[..k])
  }

  lemma QuietAfter(done: Bytes, left: Bytes, n: nat)
    requires Quiet(done, left) && n <= |left|
    ensures Quiet(done + left[..n], left[n..])
  {
    hide EndsWithStop;
    forall k | 0 <= k < |left[n..]|
      ensures !EndsWithStop(done + left[..n] + left[n..][..k])
    {
      assert left[..n] + left[n..][..k] == left[..n + k];
      assert done + left[..n] + left[n..][..k] == done + left[..n + k];
    }
  }

  lemma GatherStep(message: Bytes, left: Bytes, tail: Bytes)
    requires !EndsWithStop(message) && NEWLINE in left
    ensures var n := LineLength(left);
            Gather(message, left + tail) == Gather(message + left[..n], left[n..] + tail)
  {
    var n := LineLength(left);
    LineOfFront(left, tail);
    assert (left + tail)[..n] == left[..n] && (left + tail)[n..] == left[n..] + tail;
  }

  lemma {:induction false} GatherReachesStop(done: Bytes, left: Bytes, tail: Bytes)
    requires Quiet(done, left) && EndsWithStop(done + left)
    ensures Gather(done, left + tail) == Gathered(done + left, tail)
    decreases |left|
  {
    if left == [] {
      assert done + left == done && left + tail == tail;
    } else {
      assert left[|left| - 1] == (done + left)[|done + left| - 1] == NEWLINE;
      assert !EndsWithStop(done) by {
        assert done + left[..0] == done;
      }
      var n := LineLength(left);
      assert done + left[..n] + left[n..] == done + left;
      QuietAfter(done, left, n);
      GatherStep(done, left, tail);
      hide Gather, Quiet, EndsWithStop, LineLength;
      GatherReachesStop(done + left[..n], left[n..], tail);
    }
  }

  lemma TrimLeftOfNonSpace(b: Bytes)
    requires b != [] && !IsSpace(b[0])
    ensures TrimLeft(b) == b
  {
  }

  lemma ReceivedIs(stream: Bytes, n: nat, gathered: Gathered)
    requires NEWLINE in stream && LineLength(stream) == n
    requires Gather(TrimLeft(stream[..n]), stream[n..]) == gathered && |gathered.message| >= 3
    ensures Received(stream)
         == Delivered(Padded(TrimRight(gathered.message[..|gathered.message| - 3]), PACKET_SIZE))
  {
  }

  // The first line of a message that ends with the stop symbol.
  lemma LineOfMessage(message: Bytes, tail: Bytes) returns (n: nat)
    requires EndsWithStop(message)
    ensures 0 < n <= |message| && NEWLINE in message + tail && LineLength(message + tail) == n
    ensures (message + tail)[..n] == message[..n] && (message + tail)[n..] == message[n..] + tail
  {
    assert message[|message| - 1] == NEWLINE;
    LineOfFront(message, tail);
    n := LineLength(message);
  }

  lemma StopIsThreeLong(message: Bytes)
    requires EndsWithStop(message)
    ensures |message| >= 3
  {
  }

  lemma QuietHalves(message: Bytes, n: nat)
    requires Quiet([], message) && n <= |message|
    ensures Quiet(message[..n], message[n..]) && message[..n] + message[n..] == message
  {
    QuietAfter([], message, n);
    hide Quiet;
    assert [] + message[..n] == message[..n];
  }

  // Gathering a message from its first `n` bytes on.
  lemma GatherMessage(message: Bytes, tail: Bytes, n: nat)
    requires 0 < n <= |message| && !IsSpace(message[0]) && Quiet([], message) && EndsWithStop(message)
    ensures Gather(TrimLeft(message[..n]), message[n..] + tail) == Gathered(message, tail)
  {
    QuietHalves(message, n);
    TrimLeftOfNonSpace(message[..n]);
    hide *;
    GatherReachesStop(message[..n], message[n..], tail);
  }

  // The same of a stream whose first message is `message`.
  lemma ReceivedMessage(message: Bytes, tail: Bytes)
    requires message != [] && !IsSpace(message[0]) && Quiet([], message) && EndsWithStop(message)
    ensures Received(message + tail) == Delivered(Padded(TrimRight(message[..|message| - 3]), PACKET_SIZE))
  {
    StopIsThreeLong(message);
    hide *;
    var n := LineOfMessage(message, tail);
    GatherMessage(message, tail, n);
    ReceivedIs(message + tail, n, Gathered(message, tail));
  }

  lemma UpToStopIsQuiet(full: Bytes, end: nat)
    requires full != [] && !IsSpace(full[0])
    requires end <= |full| && NoStopBefore(full, end) && EndsWithStop(full[..end])
    ensures full[..end] != [] && !IsSpace(full[..end][0]) && Quiet([], full[..end])
  {
    var message := full[..end];
    forall k | 0 <= k < |message|
      ensures !EndsWithStop([] + message[..k])
    {
      assert [] + message[..k] == full[..k];
    }
    StopIsThreeLong(message);
  }

  // The message is gathered up to the first place where a stop symbol ends.
  lemma ReceivedUpToFirstStop(full: Bytes, tail: Bytes, end: nat)
    requires full != [] && !IsSpace(full[0])
    requires end <= |full| && NoStopBefore(full, end) && EndsWithStop(full[..end])
    ensures Received(full + tail) == Delivered(Padded(TrimRight(full[..end - 3]), PACKET_SIZE))
  {
    hide *;
    var message := full[..end];
    UpToStopIsQuiet(full, end);
    StopIsThreeLong(message);
    ReceivedMessage(message, full[end..] + tail);
    assert message + full[end..] == full;
    assert message + (full[end..] + tail) == (message + full[end..]) + tail;
    assert message[..|message| - 3] == full[..end - 3];
  }

  // A stream that ends, or breaks, with no stop symbol in it: the lines gathered so far are
  // delivered all the same, without their last three bytes.
  lemma UnterminatedLosesThree(body: Bytes, rest: Bytes)
    requires body != [] && !IsSpace(body[0]) && body[|body| - 1] == NEWLINE && NEWLINE !in rest
    requires NoStopBefore(body, |body|) && !EndsWithStop(body)
    ensures Received(body + rest)
         == if |body| < 3 then Panicked else Delivered(Padded(TrimRight(body[..|body| - 3]), PACKET_SIZE))
  {
    hide *;
    var n := FirstLine(body, rest);
    QuietFromStart(body);
    GatherReachesEndOf(body, n, rest);
    EndIsReceived(body + rest, n, body);
  }

  lemma FirstLine(body: Bytes, rest: Bytes) returns (n: nat)
    requires body != [] && !IsSpace(body[0]) && body[|body| - 1] == NEWLINE
    ensures n <= |body| && NEWLINE in body + rest && LineLength(body + rest) == n
    ensures TrimLeft((body + rest)[..n]) == body[..n] && (body + rest)[n..] == body[n..] + rest
  {
    n := LineLength(body);
    LineOfFront(body, rest);
    assert (body + rest)[..n] == body[..n];
    TrimLeftOfNonSpace(body[..n]);
  }

  lemma QuietFromStart(body: Bytes)
    requires NoStopBefore(body, |body|)
    ensures Quiet([], body)
  {
    hide EndsWithStop;
    forall k | 0 <= k < |body|
      ensures !EndsWithStop([] + body[..k])
    {
      assert [] + body[..k] == body[..k];
    }
  }

  lemma GatherReachesEndOf(body: Bytes, n: nat, rest: Bytes)
    requires n <= |body| && body != [] && body[|body| - 1] == NEWLINE && NEWLINE !in rest
    requires Quiet([], body) && !EndsWithStop(body)
    ensures Gather(body[..n], body[n..] + rest) == Gathered(body, [])
  {
    hide *;
    QuietAfter([], body, n);
    assert [] + body[..n] == body[..n];
    assert body[..n] + body[n..] == body;
    assert body[n..] == [] || body[n..][|body[n..]| - 1] == body[|body| - 1];
    GatherReachesEnd(body[..n], body[n..], rest);
  }

  lemma EndIsReceived(stream: Bytes, n: nat, message: Bytes)
    requires NEWLINE in stream && LineLength(stream) == n
    requires Gather(TrimLeft(stream[..n]), stream[n..]) == Gathered(message, [])
    ensures Received(stream)
         == if |message| < 3 then Panicked else Delivered(Padded(TrimRight(message[..|message| - 3]), PACKET_SIZE))
  {
  }

  lemma {:induction false} GatherReachesEnd(done: Bytes, left: Bytes, rest: Bytes)
    requires Quiet(done, left) && !EndsWithStop(done + left) && NEWLINE !in rest
    requires left == [] || left[|left| - 1] == NEWLINE
    ensures Gather(done, left + rest) == Gathered(done + left, [])
    decreases |left|
  {
    if left == [] {
      assert done + left == done && left + rest == rest;
    } else {
      assert !EndsWithStop(done) by {
        assert done + left[..0] == done;
      }
      var n := LineLength(left);
      assert done + left[..n] + left[n..] == done + left;
      QuietAfter(done, left, n);
      GatherStep(done, left, rest);
      assert left[n..] == [] || left[n..][|left[n..]| - 1] == left[|left| - 1];
      hide Gather, Quiet, EndsWithStop, LineLength;
      GatherReachesEnd(done + left[..n], left[n..], rest);
    }
  }

  // White space before the message is dropped as far as it is on the message's first line.
  lemma {:induction false} WhiteInFrontIsDropped(white: Bytes, body: Bytes)
    requires NEWLINE !in white && (forall i | 0 <= i < |white| :: IsSpace(white[i])) && NEWLINE in body
    ensures Received(white + body) == Received(body)
  {
    if white == [] {
      assert white + body == body;
    } else {
      hide Received;
      WhiteInFrontIsDropped(white[1..], body);
      assert white + body == [white[0]] + (white[1..] + body);
      WhiteByteIsDropped(white[0], white[1..] + body);
    }
  }

  lemma WhiteByteIsDropped(c: byte, b: Bytes)
    requires IsSpace(c) && c != NEWLINE && NEWLINE in b
    ensures Received([c] + b) == Received(b)
  {
    var stream, n := [c] + b, LineLength(b);
    assert stream[1..] == b && NEWLINE in stream && LineLength(stream) == n + 1;
    assert stream[n + 1..] == b[n..];
    assert stream[..n + 1][1..] == b[..n];
    assert TrimLeft(stream[..n + 1]) == TrimLeft(b[..n]);
    hide *;
    SameLineSameOutcome(stream, b);
  }

  lemma SameLineSameOutcome(a: Bytes, b: Bytes)
    requires NEWLINE in a && NEWLINE in b && a[LineLength(a)..] == b[LineLength(b)..]
    requires TrimLeft(a[..LineLength(a)]) == TrimLeft(b[..LineLength(b)])
    ensures Received(a) == Received(b)
  {
  }

  predicate EndsWithDotLine(b: Bytes) {
    |b| >= 2 && b[|b| - 2] == 10 && b[|b| - 1] == 46
  }

  lemma EndsWithStopIsStopAt(full: Bytes, i: nat)
    requires i <= |full|
    ensures EndsWithStop(full[..i]) <==> i >= 3 && StopAt(full, i - 3)
  {
  }

  // A body that can be told from what follows it and loses nothing to the trimming.
  ghost predicate Transportable(body: Bytes) {
    NoStopBefore(body + STOP, |body| + 3) && Padded(TrimRight(body), PACKET_SIZE) == body
  }

  lemma {:induction false} TrimRightIsPrefix(b: Bytes)
    ensures |TrimRight(b)| <= |b| && TrimRight(b) == b[..|TrimRight(b)|]
  {
    if b != [] && IsSpace(b[|b| - 1]) {
      TrimRightIsPrefix(b[..|b| - 1]);
    }
  }

  lemma {:induction false} TrimRightCuts(b: Bytes)
    ensures |TrimRight(b)| <= |b|
    ensures forall i | |TrimRight(b)| <= i < |b| :: IsSpace(b[i])
    ensures TrimRight(b) != [] ==> !IsSpace(b[|TrimRight(b)| - 1])
  {
    if b != [] && IsSpace(b[|b| - 1]) {
      TrimRightCuts(b[..|b| - 1]);
    }
  }

  ghost predicate AllSpace(b: Bytes) {
    forall i | 0 <= i < |b| :: IsSpace(b[i])
  }

  // The white space that ends `body` is padding.
  ghost predicate EndsInPadding(body: Bytes) {
    forall i | 0 <= i < |body| && AllSpace(body[i..]) :: body[i] == SPACE
  }

  lemma SpaceFrom(body: Bytes, i: nat)
    requires i < |body|
    ensures AllSpace(body[i..]) <==> |TrimRight(body)| <= i
  {
    var n := |TrimRight(body)|;
    TrimRightCuts(body);
    hide TrimRight;
    if i < n {
      assert body[i..][n - 1 - i] == body[n - 1];
    }
  }

  lemma RepadsIff(body: Bytes)
    requires |body| == PACKET_SIZE
    ensures Padded(TrimRight(body), PACKET_SIZE) == body <==> EndsInPadding(body)
  {
    var n := |TrimRight(body)|;
    TrimRightIsPrefix(body);
    hide TrimRight, AllSpace;
    var padded := Padded(TrimRight(body), PACKET_SIZE);
    assert padded == body[..n] + Spaces(PACKET_SIZE - n);
    if EndsInPadding(body) {
      forall i | n <= i < |body|
        ensures body[i] == SPACE
      {
        SpaceFrom(body, i);
      }
      assert padded == body;
    }
    if padded == body {
      forall i | 0 <= i < |body| && AllSpace(body[i..])
        ensures body[i] == SPACE
      {
        SpaceFrom(body, i);
        assert padded[i] == SPACE;
      }
    }
  }

  lemma StopBeforeEnd(body: Bytes, i: nat)
    requires i < |body|
    ensures EndsWithStop((body + STOP)[..i + 3]) <==> StopAt(body, i) || (i == |body| - 2 && EndsWithDotLine(body))
  {
    var full := body + STOP;
    EndsWithStopIsStopAt(full, i + 3);
    hide EndsWithStop;
    assert full[i] == body[i];
    assert full[i + 1] == if i + 1 < |body| then body[i + 1] else 10;
    assert i + 1 < |body| ==> full[i + 2] == if i + 2 < |body| then body[i + 2] else 10;
  }

  // With nothing early, there is no stop symbol at `i`, nor one formed with what follows.
  lemma StopsNearTheEnd(body: Bytes, i: nat)
    requires NoStopBefore(body + STOP, |body| + 3)
    ensures !StopAt(body, i) && !EndsWithDotLine(body)
  {
    var full := body + STOP;
    if i < |body| {
      StopBeforeEnd(body, i);
      assert !EndsWithStop(full[..i + 3]);
    }
    if |body| >= 2 {
      StopBeforeEnd(body, |body| - 2);
      assert !EndsWithStop(full[..|body| - 2 + 3]);
    }
  }

  lemma NoStopBeforeIff(body: Bytes)
    ensures NoStopBefore(body + STOP, |body| + 3) <==> (forall i: nat :: !StopAt(body, i)) && !EndsWithDotLine(body)
  {
    var full := body + STOP;
    hide EndsWithStop, StopAt, EndsWithDotLine;
    if NoStopBefore(full, |body| + 3) {
      forall i: nat
        ensures !StopAt(body, i)
      {
        StopsNearTheEnd(body, i);
      }
      StopsNearTheEnd(body, |body|);
    } else {
      var j :| 0 <= j < |body| + 3 && EndsWithStop(full[..j]);
      StopIsThreeLong(full[..j]);
      var i: nat := j - 3;
      StopBeforeEnd(body, i);
    }
  }

  // What to look at before sending: no stop symbol inside, none formed with the one that
  // follows, and no white space but padding at the end.
  lemma TransportableIff(body: Bytes)
    requires |body| == PACKET_SIZE
    ensures Transportable(body)
       <==> (forall i: nat :: !StopAt(body, i)) && !EndsWithDotLine(body) && EndsInPadding(body)
  {
    NoStopBeforeIff(body);
    RepadsIff(body);
  }

  // The first place where a stop symbol ends.
  lemma {:induction false} FirstStop(full: Bytes, from: nat) returns (end: nat)
    requires EndsWithStop(full) && from <= |full|
    requires NoStopBefore(full, from)
    ensures end <= |full| && NoStopBefore(full, end) && EndsWithStop(full[..end])
    decreases |full| - from
  {
    if from == |full| || EndsWithStop(full[..from]) {
      assert full[..|full|] == full;
      end := from;
    } else {
      end := FirstStop(full, from + 1);
    }
  }

  // Main result. A 1500-byte body that starts with a command byte arrives unchanged, with
  // anything after the stop symbol left for later, exactly when it is transportable.
  lemma ArrivesIffTransportable(body: Bytes, tail: Bytes)
    requires |body| == PACKET_SIZE && !IsSpace(body[0])
    ensures Received(body + STOP + tail) == Delivered(body) <==> Transportable(body)
  {
    var full := body + STOP;
    assert full[|full| - 3..] == STOP;
    var end := FirstStop(full, 0);
    ReceivedUpToFirstStop(full, tail, end);
    if end == |full| {
      assert full[..end - 3] == body;
    } else {
      // An early stop: the byte where it starts is a newline, and padding would be a space.
      var kept := TrimRight(full[..end - 3]);
      TrimRightIsPrefix(full[..end - 3]);
      assert full[..end][end - 3..] == STOP;
      assert full[end - 3] == STOP[0];
      assert Padded(kept, PACKET_SIZE)[end - 3] == SPACE;
    }
  }
}
