/**
 * Sending to a queue in chunks (src/ingestion/enqueue.js): the greedy cut keeps order and content, respects
 * both limits, and no other cut needs fewer chunks.
 */
module QueueChunks {

  datatype Message = Message(id: int, bytes: nat)

  function Bytes(chunk: seq<Message>): nat {
    if chunk == [] then 0 else Bytes(chunk[..|chunk| - 1]) + chunk[|chunk| - 1].bytes
  }

  /** Bytes add up over the messages. */
  lemma {:induction false} BytesAdd(a: seq<Message>, b: seq<Message>)
    ensures Bytes(a + b) == Bytes(a) + Bytes(b)
    ensures |b| == 1 ==> Bytes(b) == b[0].bytes
  {
    if b == [] {
      assert a + b == a;
    } else {
      assert (a + b)[..|a + b| - 1] == a + b[..|b| - 1];
      BytesAdd(a, b[..|b| - 1]);
      assert |b| == 1 ==> b[..0] == [];
    }
  }

  /** A chunk that may be sent: a single message, or within both limits. */
  predicate Sendable(chunk: seq<Message>, maxMessages: int, maxBytes: int) {
    |chunk| == 1 || (chunk != [] && |chunk| <= maxMessages && Bytes(chunk) <= maxBytes)
  }

  function Joined(chunks: seq<seq<Message>>): seq<Message> {
    if chunks == [] then [] else chunks[0] + Joined(chunks[1..])
  }

  /** A cut of the messages into consecutive sendable chunks. */
  ghost predicate IsCut(chunks: seq<seq<Message>>, messages: seq<Message>, maxMessages: int, maxBytes: int) {
    Joined(chunks) == messages && forall c :: c in chunks ==> Sendable(c, maxMessages, maxBytes)
  }

  /** A part that stops short of the last message is a part of the rest. */
  lemma PartOfRest(chunk: seq<Message>, i: nat, j: nat)
    requires i <= j < |chunk|
    ensures chunk[..|chunk| - 1][i..j] == chunk[i..j]
  {
  }

  lemma {:induction false} BytesOfPart(chunk: seq<Message>, i: nat, j: nat)
    requires i <= j <= |chunk|
    ensures Bytes(chunk[i..j]) <= Bytes(chunk)
  {
    if i < j {
      var n, part := |chunk| - 1, chunk[i..j];
      if j == |chunk| {
        BytesOfPart(chunk[..n], i, n);
        PartOfRest(chunk, i, n);
        assert part[..|part| - 1] == chunk[i..n];
      } else {
        BytesOfPart(chunk[..n], i, j);
        PartOfRest(chunk, i, j);
      }
    }
  }

  /** Any non-empty part of a sendable chunk is sendable. */
  lemma PartIsSendable(chunk: seq<Message>, i: nat, j: nat, maxMessages: int, maxBytes: int)
    requires Sendable(chunk, maxMessages, maxBytes) && i < j <= |chunk|
    ensures Sendable(chunk[i..j], maxMessages, maxBytes)
  {
    BytesOfPart(chunk, i, j);
  }

  lemma {:induction false} JoinedAppend(chunks: seq<seq<Message>>, c: seq<Message>)
    ensures Joined(chunks + [c]) == Joined(chunks) + c
  {
    if chunks != [] {
      assert (chunks + [c])[1..] == chunks[1..] + [c];
      JoinedAppend(chunks[1..], c);
    }
  }

  /** Dropping the first messages of a cut leaves a cut with no more chunks. */
  lemma {:induction false} DropFront(chunks: seq<seq<Message>>, messages: seq<Message>, d: nat, maxMessages: int,
                                     maxBytes: int)
    returns (rest: seq<seq<Message>>)
    requires IsCut(chunks, messages, maxMessages, maxBytes) && d <= |messages|
    ensures IsCut(rest, messages[d..], maxMessages, maxBytes) && |rest| <= |chunks|
    decreases |chunks|
  {
    if chunks == [] {
      rest := [];
    } else {
      var first, later := chunks[0], chunks[1..];
      assert messages == first + Joined(later);
      assert first in chunks && forall c :: c in later ==> c in chunks;
      if d < |first| {
        rest := [first[d..]] + later;
        assert first[d..] == first[d..|first|];
        PartIsSendable(first, d, |first|, maxMessages, maxBytes);
        assert rest[1..] == later;
        assert messages[d..] == first[d..] + Joined(later);
      } else {
        rest := DropFront(later, Joined(later), d - |first|, maxMessages, maxBytes);
        assert messages[d..] == Joined(later)[d - |first|..];
      }
    }
  }

  // ---- The greedy cut -----------------------------------------------------------------------------

  predicate Overflows(current: seq<Message>, m: Message, maxMessages: int, maxBytes: int) {
    current != [] && (|current| >= maxMessages || Bytes(current) + m.bytes > maxBytes)
  }

  /** The chunks still to come, with `current` being filled. */
  function Filling(current: seq<Message>, rest: seq<Message>, maxMessages: int, maxBytes: int): seq<seq<Message>>
    decreases |rest|
  {
    if rest == [] then (if current == [] then [] else [current])
    else if Overflows(current, rest[0], maxMessages, maxBytes) then
      [current] + Filling([rest[0]], rest[1..], maxMessages, maxBytes)
    else Filling(current + [rest[0]], rest[1..], maxMessages, maxBytes)
  }

  lemma {:induction false} FillingIsCut(current: seq<Message>, rest: seq<Message>, maxMessages: int, maxBytes: int)
    requires current == [] || Sendable(current, maxMessages, maxBytes)
    ensures IsCut(Filling(current, rest, maxMessages, maxBytes), current + rest, maxMessages, maxBytes)
    decreases |rest|
  {
    if rest == [] {
      assert current + rest == current;
    } else if Overflows(current, rest[0], maxMessages, maxBytes) {
      FillingIsCut([rest[0]], rest[1..], maxMessages, maxBytes);
      assert [rest[0]] + rest[1..] == rest;
    } else {
      assert (current + [rest[0]])[..|current|] == current;
      FillingIsCut(current + [rest[0]], rest[1..], maxMessages, maxBytes);
      assert current + [rest[0]] + rest[1..] == current + rest;
    }
  }

  /** The greedy cut stays ahead: no cut of the same messages has fewer chunks. */
  lemma {:induction false} FillingIsShortest(current: seq<Message>, rest: seq<Message>, other: seq<seq<Message>>,
                                             maxMessages: int, maxBytes: int)
    requires IsCut(other, current + rest, maxMessages, maxBytes)
    ensures |Filling(current, rest, maxMessages, maxBytes)| <= |other|
    decreases |rest|
  {
    if rest == [] {
      assert current != [] ==> other != [];
    } else if Overflows(current, rest[0], maxMessages, maxBytes) {
      assert other != [];
      FirstChunkEnds(current, rest, other, maxMessages, maxBytes);
      var later := other[1..];
      assert current + rest == other[0] + Joined(later);
      var trimmed := DropFront(later, Joined(later), |current| - |other[0]|, maxMessages, maxBytes);
      assert (current + rest)[|current|..] == rest;
      assert (other[0] + Joined(later))[|current|..] == Joined(later)[|current| - |other[0]|..];
      assert [rest[0]] + rest[1..] == rest;
      FillingIsShortest([rest[0]], rest[1..], trimmed, maxMessages, maxBytes);
    } else {
      assert current + [rest[0]] + rest[1..] == current + rest;
      FillingIsShortest(current + [rest[0]], rest[1..], other, maxMessages, maxBytes);
    }
  }

  /** Where the greedy cut must end a chunk, no cut's first chunk reaches further. */
  lemma FirstChunkEnds(current: seq<Message>, rest: seq<Message>, other: seq<seq<Message>>, maxMessages: int,
                       maxBytes: int)
    requires rest != [] && Overflows(current, rest[0], maxMessages, maxBytes)
    requires other != [] && IsCut(other, current + rest, maxMessages, maxBytes)
    ensures |other[0]| <= |current|
  {
    var first, n := other[0], |current| + 1;
    assert first in other;
    assert current + rest == first + Joined(other[1..]);
    assert (current + [rest[0]])[..|current|] == current;
    if |first| >= n {
      assert first[0..n] == (current + rest)[..n] == current + [rest[0]];
      BytesOfPart(first, 0, n);
    }
  }

  /** Cuts the messages into chunks, closing one as soon as the next message would exceed a limit. */
  method ChunkQueueMessages(messages: seq<Message>, maxMessages: int, maxBytes: int) returns (chunks: seq<seq<Message>>)
    ensures Joined(chunks) == messages
    ensures forall c :: c in chunks ==> Sendable(c, maxMessages, maxBytes)
    ensures forall c :: c in chunks ==> c != [] && (|c| > 1 ==> |c| <= maxMessages && Bytes(c) <= maxBytes)
    ensures forall other :: IsCut(other, messages, maxMessages, maxBytes) ==> |chunks| <= |other|
  {
    hide IsCut, Sendable, Overflows;
    chunks := [];
    var current: seq<Message>, currentBytes := [], 0;
    ghost var all := Filling([], messages, maxMessages, maxBytes);
    for i := 0 to |messages|
      invariant currentBytes == Bytes(current)
      invariant all == chunks + Filling(current, messages[i..], maxMessages, maxBytes)
    {
      var m := messages[i];
      assert messages[i..][0] == m && messages[i..][1..] == messages[i + 1..];
      OverflowIs(current, m, maxMessages, maxBytes);
      if |current| > 0 && (|current| >= maxMessages || currentBytes + m.bytes > maxBytes) {
        chunks := chunks + [current];
        current, currentBytes := [], 0;
      }
      assert (current + [m])[..|current|] == current;
      current := current + [m];
      currentBytes := currentBytes + m.bytes;
    }
    assert messages[|messages|..] == [];
    if |current| > 0 {
      chunks := chunks + [current];
    }
    assert chunks == all;
    assert [] + messages == messages;
    FillingIsCut([], messages, maxMessages, maxBytes);
    CutIs(chunks, messages, maxMessages, maxBytes);
    forall other | IsCut(other, messages, maxMessages, maxBytes) ensures |chunks| <= |other| {
      FillingIsShortest([], messages, other, maxMessages, maxBytes);
    }
  }

  lemma OverflowIs(current: seq<Message>, m: Message, maxMessages: int, maxBytes: int)
    ensures Overflows(current, m, maxMessages, maxBytes) <==>
            |current| > 0 && (|current| >= maxMessages || Bytes(current) + m.bytes > maxBytes)
  {
  }

  lemma CutIs(chunks: seq<seq<Message>>, messages: seq<Message>, maxMessages: int, maxBytes: int)
    requires IsCut(chunks, messages, maxMessages, maxBytes)
    ensures Joined(chunks) == messages && forall c :: c in chunks ==> Sendable(c, maxMessages, maxBytes)
    ensures forall c :: c in chunks ==> c != [] && (|c| > 1 ==> |c| <= maxMessages && Bytes(c) <= maxBytes)
  {
  }

  /** The messages of the chunks that a queue accepted, and of those it refused. */
  function Accepted(chunks: seq<seq<Message>>, accepts: seq<Message> -> bool): seq<Message> {
    if chunks == [] then [] else (if accepts(chunks[0]) then chunks[0] else []) + Accepted(chunks[1..], accepts)
  }

  /** The chunks the queue refused, in the order they were sent. */
  function Refused(chunks: seq<seq<Message>>, accepts: seq<Message> -> bool): seq<seq<Message>> {
    if chunks == [] then []
    else (if accepts(chunks[0]) then [] else [chunks[0]]) + Refused(chunks[1..], accepts)
  }

  lemma {:induction false} RefusedAppend(chunks: seq<seq<Message>>, c: seq<Message>, accepts: seq<Message> -> bool)
    ensures Refused(chunks + [c], accepts) == Refused(chunks, accepts) + (if accepts(c) then [] else [c])
  {
    if chunks != [] {
      assert (chunks + [c])[1..] == chunks[1..] + [c];
      RefusedAppend(chunks[1..], c, accepts);
    }
  }

  /** A chunk is either accepted or refused, and no message is lost between the two. */
  lemma {:induction false} RefusedMeans(chunks: seq<seq<Message>>, accepts: seq<Message> -> bool)
    ensures forall c :: c in Refused(chunks, accepts) <==> c in chunks && !accepts(c)
    ensures |Accepted(chunks, accepts)| + |Joined(Refused(chunks, accepts))| == |Joined(chunks)|
  {
    if chunks != [] {
      RefusedMeans(chunks[1..], accepts);
      assert chunks == [chunks[0]] + chunks[1..];
      if !accepts(chunks[0]) {
        assert Refused(chunks, accepts)[1..] == Refused(chunks[1..], accepts);
      } else {
        assert Refused(chunks, accepts) == Refused(chunks[1..], accepts);
      }
    }
  }

  /** Sends every chunk, whatever happened to the others. */
  method SendEach(chunks: seq<seq<Message>>, accepts: seq<Message> -> bool)
    returns (sent: nat, failures: seq<seq<Message>>)
    ensures sent == |Accepted(chunks, accepts)| && failures == Refused(chunks, accepts)
  {
    sent, failures := 0, [];
    assert chunks[..0] == [];
    for i := 0 to |chunks|
      invariant sent == |Accepted(chunks[..i], accepts)| && failures == Refused(chunks[..i], accepts)
    {
      var c := chunks[i];
      assert chunks[..i + 1] == chunks[..i] + [c];
      AcceptedAppend(chunks[..i], c, accepts);
      RefusedAppend(chunks[..i], c, accepts);
      if accepts(c) {
        sent := sent + |c|;
      } else {
        failures := failures + [c];
      }
    }
    assert chunks[..|chunks|] == chunks;
  }

  /** Cuts the messages into chunks and sends them all; every message is either sent or part of a recorded failure. */
  method SendInChunks(messages: seq<Message>, maxMessages: int, maxBytes: int, accepts: seq<Message> -> bool)
    returns (sent: nat, failures: seq<seq<Message>>, ghost chunks: seq<seq<Message>>)
    ensures Joined(chunks) == messages && forall c :: c in chunks ==> Sendable(c, maxMessages, maxBytes)
    ensures forall c :: c in chunks ==> c != [] && (|c| > 1 ==> |c| <= maxMessages && Bytes(c) <= maxBytes)
    ensures forall c :: c in failures <==> c in chunks && !accepts(c)
    ensures sent == |Accepted(chunks, accepts)| && sent + |Joined(failures)| == |messages|
  {
    hide Sendable, Bytes;
    var cut := ChunkQueueMessages(messages, maxMessages, maxBytes);
    chunks := cut;
    sent, failures := SendEach(cut, accepts);
    RefusedMeans(cut, accepts);
  }

  lemma {:induction false} AcceptedAppend(chunks: seq<seq<Message>>, c: seq<Message>, accepts: seq<Message> -> bool)
    ensures Accepted(chunks + [c], accepts) == Accepted(chunks, accepts) + (if accepts(c) then c else [])
  {
    if chunks != [] {
      assert (chunks + [c])[1..] == chunks[1..] + [c];
      AcceptedAppend(chunks[1..], c, accepts);
    }
  }
}
