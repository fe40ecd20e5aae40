/** The framed transfer over a pipe: p_snd cuts a file into frames with a three-byte header, p_rcv puts
    it together again. */
module FramedPipe {
  import opened Bytes

  const PCG_SZ := 256
  const BUF_SZ := 254 * 256 + 3
  const DATA_SZ := 254 * 256   // BUF_SZ - 3

  /** (char)x or (u_char)x, as the eight bits that are kept. */
  function Wrap(x: int): Byte {
    x % 256
  }

  // ---- The header ----

  /** The two length bytes: packages of 256 bytes, counting the last one, and the size of the last
      package plus one. */
  function LengthBytes(n: nat): (Byte, Byte) {
    (Wrap(n / PCG_SZ + 1), if n % PCG_SZ != 0 then Wrap(n % PCG_SZ + 1) else 1)
  }

  /** The length the receiver computes from them. */
  function DecodedLength(numPcg: Byte, numLast: Byte): nat {
    Wrap(numPcg - 1) * PCG_SZ + Wrap(numLast - 1)
  }

  /** Every length a frame can have survives the two wrapping bytes. */
  lemma LengthRoundTrip(n: nat)
    requires n <= DATA_SZ
    ensures DecodedLength(LengthBytes(n).0, LengthBytes(n).1) == n
  {
  }

  /** The header carries 256 * 256 lengths and no more: a length decodes to itself exactly below that. */
  lemma LengthRoundTripIff(n: nat)
    ensures DecodedLength(LengthBytes(n).0, LengthBytes(n).1) == n <==> n < 256 * PCG_SZ
  {
  }

  // ---- The sender ----

  function Frame(i: Byte, data: seq<Byte>): seq<Byte> {
    [i, LengthBytes(|data|).0, LengthBytes(|data|).1] + data
  }

  function NextNumber(i: nat): nat {
    (i + 1) % 128
  }

  /** The frames of a file, the first with number i. A frame that is not full is the last one. */
  function Frames(i: Byte, file: seq<Byte>): seq<seq<Byte>>
    decreases |file|
  {
    if |file| < DATA_SZ then
      [Frame(i, file)]
    else
      [Frame(i, file[..DATA_SZ])] + Frames(NextNumber(i), file[DATA_SZ..])
  }

  function Flatten(xs: seq<seq<Byte>>): seq<Byte> {
    if xs == [] then [] else xs[0] + Flatten(xs[1..])
  }

  /** A file makes one frame for each full load, and one more, perhaps empty. */
  lemma {:induction false} NumberOfFrames(i: Byte, file: seq<Byte>)
    ensures |Frames(i, file)| == |file| / DATA_SZ + 1
    decreases |file|
  {
    if |file| >= DATA_SZ {
      NumberOfFrames(NextNumber(i), file[DATA_SZ..]);
    }
  }

  /** The payload of frame k: the k-th full load, or what is left. */
  function Payload(file: seq<Byte>, k: nat): seq<Byte>
    requires k * DATA_SZ <= |file|
  {
    if |file| - k * DATA_SZ < DATA_SZ then file[k * DATA_SZ..] else file[k * DATA_SZ..(k + 1) * DATA_SZ]
  }

  /** The frame on the wire, byte by byte: its number, counted modulo 128; two bytes from which its length
      follows as packages of 256 bytes and a rest, the second wrapping where the rest is 255; and its data. */
  predicate IsFrame(frame: seq<Byte>, number: nat, data: seq<Byte>) {
    && |frame| == |data| + 3 && frame[0] == number % 128 && frame[1] > 0
    && 256 * frame[1] as int + (if frame[2] == 0 then 256 else frame[2]) == |data| + 257
    && frame[3..] == data
  }

  lemma FrameIs(i: Byte, data: seq<Byte>)
    requires i < 128 && |data| <= DATA_SZ
    ensures IsFrame(Frame(i, data), i, data)
  {
  }

  lemma FirstFrameIs(i: Byte, file: seq<Byte>)
    requires i < 128
    ensures IsFrame(Frames(i, file)[0], i, Payload(file, 0))
  {
    FrameIs(i, Payload(file, 0));
  }

  lemma PayloadOfRest(file: seq<Byte>, k: nat)
    requires |file| >= DATA_SZ && k * DATA_SZ <= |file| - DATA_SZ
    ensures (k + 1) * DATA_SZ <= |file| && Payload(file, k + 1) == Payload(file[DATA_SZ..], k)
  {
  }

  lemma NextNumberIs(i: nat, k: nat)
    ensures (NextNumber(i) + k) % 128 == (i + (k + 1)) % 128
  {
  }

  lemma SameFrame(frame: seq<Byte>, number: nat, same: nat, data: seq<Byte>)
    requires IsFrame(frame, number, data) && number % 128 == same % 128
    ensures IsFrame(frame, same, data)
  {
  }

  /** What is sent, frame by frame: number i + k modulo 128, and the k-th part of the file. */
  lemma {:induction false} FramesAreNumbered(i: Byte, file: seq<Byte>, k: nat)
    requires i < 128 && k < |Frames(i, file)|
    ensures k * DATA_SZ <= |file| && IsFrame(Frames(i, file)[k], i + k, Payload(file, k))
    decreases k
  {
    if k == 0 {
      FirstFrameIs(i, file);
    } else {
      LaterFrame(i, file, k);
      var rest := file[DATA_SZ..];
      FramesAreNumbered(NextNumber(i), rest, k - 1);
      PayloadOfRest(file, k - 1);
      NextNumberIs(i, k - 1);
      SameFrame(Frames(i, file)[k], NextNumber(i) + (k - 1), i + k, Payload(file, k));
    }
  }

  lemma LaterFrame(i: Byte, file: seq<Byte>, k: nat)
    requires 0 < k < |Frames(i, file)|
    ensures |file| >= DATA_SZ && k - 1 < |Frames(NextNumber(i), file[DATA_SZ..])|
    ensures Frames(i, file)[k] == Frames(NextNumber(i), file[DATA_SZ..])[k - 1]
  {
  }

  // ---- The receiver ----

  /** What p_rcv wrote, or that a decoded length made it read beyond its buffer. */
  datatype Outcome = Written(out: seq<Byte>) | Overrun

  function Prepend(data: seq<Byte>, o: Outcome): Outcome {
    match o
    case Written(out) => Written(data + out)
    case Overrun => Overrun
  }

  predicate Chunk(chunk: seq<Byte>) {
    0 < |chunk| <= BUF_SZ
  }

  predicate Chunks(chunks: seq<seq<Byte>>) {
    forall k :: 0 <= k < |chunks| ==> Chunk(chunks[k])
  }

  /** read into the start of the buffer; the rest of it stays. */
  function Loaded(buf: seq<Byte>, chunk: seq<Byte>): (r: seq<Byte>)
    requires |buf| == BUF_SZ && Chunk(chunk)
    ensures |r| == BUF_SZ
  {
    chunk + buf[|chunk|..]
  }

  /** p_rcv on the results of successive reads, with what the buffer holds and the number expected. */
  function Received(buf: seq<Byte>, i: nat, chunks: seq<seq<Byte>>): Outcome
    requires |buf| == BUF_SZ && Chunks(chunks)
    decreases |chunks|
  {
    if chunks == [] then
      Written([])
    else
      var b := Loaded(buf, chunks[0]);
      if b[0] != i then
        Received(b, i, chunks[1..])
      else
        var length := DecodedLength(b[1], b[2]);
        if 3 + length > BUF_SZ then
          Overrun
        else
          Prepend(b[3..3 + length], Received(b, NextNumber(i), chunks[1..]))
  }

  /** What read returns when the pipe is never short: BUF_SZ bytes, or what is left. */
  function FullReads(stream: seq<Byte>): (chunks: seq<seq<Byte>>)
    ensures Chunks(chunks)
    decreases |stream|
  {
    if stream == [] then
      []
    else if |stream| <= BUF_SZ then
      [stream]
    else
      [stream[..BUF_SZ]] + FullReads(stream[BUF_SZ..])
  }

  /** Together full reads return what was written. */
  lemma {:induction false} FullReadsLoseNothing(stream: seq<Byte>)
    ensures Flatten(FullReads(stream)) == stream
    decreases |stream|
  {
    if |stream| > BUF_SZ {
      FullReadsLoseNothing(stream[BUF_SZ..]);
      assert stream == stream[..BUF_SZ] + stream[BUF_SZ..];
    } else if stream != [] {
      assert [stream][1..] == [];
    }
  }

  /** Full reads fall on the frame boundaries. */
  lemma {:induction false} FullReadsAreFrames(i: Byte, file: seq<Byte>)
    ensures FullReads(Flatten(Frames(i, file))) == Frames(i, file)
    decreases |file|
  {
    var frames := Frames(i, file);
    if |file| < DATA_SZ {
      assert frames[1..] == [];
      assert Flatten(frames) == frames[0] + [] == frames[0];
    } else {
      var rest := Frames(NextNumber(i), file[DATA_SZ..]);
      assert frames[1..] == rest;
      var stream := Flatten(frames);
      FullReadsAreFrames(NextNumber(i), file[DATA_SZ..]);
      FramesNotEmpty(NextNumber(i), file[DATA_SZ..]);
      assert stream[..BUF_SZ] == frames[0] && stream[BUF_SZ..] == Flatten(rest);
    }
  }

  lemma FramesNotEmpty(i: Byte, file: seq<Byte>)
    ensures |Flatten(Frames(i, file))| > 0
  {
  }

  // ---- Round trip ----

  // A frame in the buffer is accepted and gives back its data.
  lemma OneFrame(buf: seq<Byte>, i: Byte, data: seq<Byte>)
    requires |buf| == BUF_SZ && |data| <= DATA_SZ
    ensures var b := Loaded(buf, Frame(i, data));
      && b[0] == i && DecodedLength(b[1], b[2]) == |data| && b[3..3 + |data|] == data
  {
    LengthRoundTrip(|data|);
  }

  lemma {:induction false} FramesAreReceived(buf: seq<Byte>, i: Byte, file: seq<Byte>)
    requires |buf| == BUF_SZ
    ensures Chunks(Frames(i, file)) && Received(buf, i, Frames(i, file)) == Written(file)
    decreases |file|
  {
    var frames := Frames(i, file);
    if |file| < DATA_SZ {
      OneFrame(buf, i, file);
      assert frames[1..] == [];
    } else {
      var b := Loaded(buf, frames[0]);
      OneFrame(buf, i, file[..DATA_SZ]);
      FramesAreReceived(b, NextNumber(i), file[DATA_SZ..]);
      assert frames[1..] == Frames(NextNumber(i), file[DATA_SZ..]);
      assert file == file[..DATA_SZ] + file[DATA_SZ..];
    }
  }

  /** Whatever the buffer holds, every file goes through the pipe unchanged when reads are full. */
  lemma RoundTrip(buf: seq<Byte>, file: seq<Byte>)
    requires |buf| == BUF_SZ
    ensures Received(buf, 1, FullReads(Flatten(Frames(1, file)))) == Written(file)
  {
    FullReadsAreFrames(1, file);
    FramesAreReceived(buf, 1, file);
  }

  /** The two pipes of main: what the child received it sends back, and the parent gets the file. */
  lemma Echo(childBuf: seq<Byte>, parentBuf: seq<Byte>, file: seq<Byte>)
    requires |childBuf| == |parentBuf| == BUF_SZ
    ensures var there := Received(childBuf, 1, FullReads(Flatten(Frames(1, file))));
      there.Written? && Received(parentBuf, 1, FullReads(Flatten(Frames(1, there.out)))) == Written(file)
  {
    RoundTrip(childBuf, file);
    RoundTrip(parentBuf, file);
  }

  // ---- Repeated and missing frames ----

  function Repeated(frame: seq<Byte>, k: nat): seq<seq<Byte>> {
    if k == 0 then [] else [frame] + Repeated(frame, k - 1)
  }

  /** Each frame as often as `copies` says. */
  function Copied(frames: seq<seq<Byte>>, copies: seq<nat>): seq<seq<Byte>>
    requires |copies| == |frames|
  {
    if frames == [] then [] else Repeated(frames[0], copies[0]) + Copied(frames[1..], copies[1..])
  }

  // A chunk with another number is dropped.
  lemma DroppedFirst(buf: seq<Byte>, i: nat, chunk: seq<Byte>, rest: seq<seq<Byte>>)
    requires |buf| == BUF_SZ && Chunk(chunk) && Chunks(rest) && chunk[0] != i
    ensures Chunks([chunk] + rest) && Received(buf, i, [chunk] + rest) == Received(Loaded(buf, chunk), i, rest)
  {
    assert ([chunk] + rest)[1..] == rest;
  }

  lemma {:induction false} RepeatsDropped(buf: seq<Byte>, i: nat, frame: seq<Byte>, k: nat, rest: seq<seq<Byte>>)
      returns (after: seq<Byte>)
    requires |buf| == BUF_SZ && Chunk(frame) && Chunks(rest) && frame[0] != i
    ensures |after| == BUF_SZ && Chunks(Repeated(frame, k) + rest)
    ensures Received(buf, i, Repeated(frame, k) + rest) == Received(after, i, rest)
    decreases k
  {
    if k == 0 {
      after := buf;
      assert Repeated(frame, 0) + rest == rest;
    } else {
      after := RepeatsDropped(Loaded(buf, frame), i, frame, k - 1, rest);
      DroppedFirst(buf, i, frame, Repeated(frame, k - 1) + rest);
      assert Repeated(frame, k) + rest == [frame] + (Repeated(frame, k - 1) + rest);
    }
  }

  // The expected frame is written, and the next is expected.
  lemma AcceptedFirst(buf: seq<Byte>, i: Byte, data: seq<Byte>, rest: seq<seq<Byte>>)
    requires |buf| == BUF_SZ && |data| <= DATA_SZ && Chunks(rest)
    ensures var frame := Frame(i, data);
      Chunks([frame] + rest)
      && Received(buf, i, [frame] + rest) == Prepend(data, Received(Loaded(buf, frame), NextNumber(i), rest))
  {
    var frame := Frame(i, data);
    OneFrame(buf, i, data);
    assert ([frame] + rest)[1..] == rest;
  }

  lemma CopiesAccepted(buf: seq<Byte>, i: Byte, data: seq<Byte>, k: nat, rest: seq<seq<Byte>>)
      returns (after: seq<Byte>)
    requires |buf| == BUF_SZ && |data| <= DATA_SZ && Chunks(rest) && k > 0 && i < 128
    ensures var frames := Repeated(Frame(i, data), k) + rest;
      Chunks(frames) && |after| == BUF_SZ
      && Received(buf, i, frames) == Prepend(data, Received(after, NextNumber(i), rest))
  {
    var frame := Frame(i, data);
    after := RepeatsDropped(Loaded(buf, frame), NextNumber(i), frame, k - 1, rest);
    AcceptedFirst(buf, i, data, Repeated(frame, k - 1) + rest);
    assert Repeated(frame, k) + rest == [frame] + (Repeated(frame, k - 1) + rest);
  }

  /** The numbers make repetitions harmless: each frame may come any number of times, at least once, in a row. */
  lemma {:induction false} RepeatedFramesAreDropped(buf: seq<Byte>, i: Byte, file: seq<Byte>, copies: seq<nat>)
    requires |buf| == BUF_SZ && i < 128 && |copies| == |Frames(i, file)|
    requires forall k :: 0 <= k < |copies| ==> copies[k] > 0
    ensures Chunks(Copied(Frames(i, file), copies))
    ensures Received(buf, i, Copied(Frames(i, file), copies)) == Written(file)
    decreases |file|
  {
    var frames := Frames(i, file);
    if |file| < DATA_SZ {
      assert frames[1..] == [] && Copied(frames[1..], copies[1..]) == [];
      var after := CopiesAccepted(buf, i, file, copies[0], []);
    } else {
      var later := Frames(NextNumber(i), file[DATA_SZ..]);
      assert frames[1..] == later;
      RepeatedFramesAreDropped(buf, NextNumber(i), file[DATA_SZ..], copies[1..]);
      var rest := Copied(later, copies[1..]);
      var after := CopiesAccepted(buf, i, file[..DATA_SZ], copies[0], rest);
      RepeatedFramesAreDropped(after, NextNumber(i), file[DATA_SZ..], copies[1..]);
      assert file == file[..DATA_SZ] + file[DATA_SZ..];
    }
  }

  lemma {:induction false} AllDropped(buf: seq<Byte>, i: nat, chunks: seq<seq<Byte>>)
    requires |buf| == BUF_SZ && Chunks(chunks) && forall k :: 0 <= k < |chunks| ==> chunks[k][0] != i
    ensures Received(buf, i, chunks) == Written([])
    decreases |chunks|
  {
    if chunks != [] {
      assert chunks == [chunks[0]] + chunks[1..];
      DroppedFirst(buf, i, chunks[0], chunks[1..]);
      AllDropped(Loaded(buf, chunks[0]), i, chunks[1..]);
    }
  }

  /** And a missing frame cuts the file off: when the frame that is expected does not come, fewer than 128
      later ones are all dropped. */
  lemma MissingFrameCutsOff(buf: seq<Byte>, i: Byte, later: seq<Byte>)
    requires |buf| == BUF_SZ && i < 128 && |Frames(NextNumber(i), later)| < 128
    ensures Chunks(Frames(NextNumber(i), later))
    ensures Received(buf, i, Frames(NextNumber(i), later)) == Written([])
  {
    FramesAreReceived(buf, NextNumber(i), later);
    NeverExpected(i, later);
    AllDropped(buf, i, Frames(NextNumber(i), later));
  }

  lemma NumberOfFrame(i: Byte, file: seq<Byte>, k: nat)
    requires i < 128 && k < |Frames(i, file)|
    ensures Frames(i, file)[k] != [] && Frames(i, file)[k][0] == (i + k) % 128
  {
    FramesAreNumbered(i, file, k);
  }

  lemma NeverExpected(i: Byte, later: seq<Byte>)
    requires i < 128 && |Frames(NextNumber(i), later)| < 128
    ensures var frames := Frames(NextNumber(i), later);
      forall k :: 0 <= k < |frames| ==> frames[k] != [] && frames[k][0] != i
  {
    var frames := Frames(NextNumber(i), later);
    forall k | 0 <= k < |frames|
      ensures frames[k] != [] && frames[k][0] != i
    {
      NumberOfFrame(NextNumber(i), later, k);
      OtherNumber(i, k);
    }
  }

  lemma OtherNumber(i: nat, k: nat)
    requires i < 128 && k < 127
    ensures (NextNumber(i) + k) % 128 != i
  {
  }

  // ---- The loops ----

  // The frames still to be written after one with n bytes.
  function FramesLeft(i: Byte, file: seq<Byte>, at: nat, n: nat): seq<seq<Byte>>
    requires at <= |file|
  {
    if n == DATA_SZ then Frames(i, file[at..]) else []
  }

  // The frame of the n bytes from `at` on goes from the frames that are left to those that are written.
  lemma NextFrame(i: Byte, file: seq<Byte>, at: nat, n: nat, frame: seq<Byte>,
                  writes: seq<seq<Byte>>, left: seq<seq<Byte>>)
      returns (rest: seq<seq<Byte>>)
    requires at <= |file| && n == if |file| - at < DATA_SZ then |file| - at else DATA_SZ
    requires frame == Frame(i, file[at..at + n]) && left == FramesLeft(i, file, at, DATA_SZ)
    ensures rest == FramesLeft(NextNumber(i), file, at + n, n)
    ensures (writes + [frame]) + rest == writes + left
  {
    var load := file[at..];
    assert load[..n] == file[at..at + n] && load[n..] == file[at + n..];
    assert n < DATA_SZ ==> load[..n] == load;
    rest := left[1..];
    assert left == [frame] + rest;
  }

  // One more chunk, with what was written before.
  lemma ReceiveRound(out: seq<Byte>, buf: seq<Byte>, i: nat, chunks: seq<seq<Byte>>)
    requires |buf| == BUF_SZ && Chunks(chunks) && chunks != []
    ensures var b := Loaded(buf, chunks[0]);
      var length := DecodedLength(b[1], b[2]);
      Prepend(out, Received(buf, i, chunks)) ==
        if b[0] != i then Prepend(out, Received(b, i, chunks[1..]))
        else if 3 + length > BUF_SZ then Overrun
        else Prepend(out + b[3..3 + length], Received(b, NextNumber(i), chunks[1..]))
  {
    var b := Loaded(buf, chunks[0]);
    var length := DecodedLength(b[1], b[2]);
    var after := Received(b, NextNumber(i), chunks[1..]);
    if b[0] == i && 3 + length <= BUF_SZ && after.Written? {
      assert out + (b[3..3 + length] + after.out) == (out + b[3..3 + length]) + after.out;
    }
  }

  /** The buffer of a pipe object; both ends work in it. */
  class PipeBuffer {
    const data: array<Byte>

    constructor ()
      ensures fresh(data) && data.Length == BUF_SZ
    {
      data := new Byte[BUF_SZ](_ => 0);
    }

    /** fread(data + 3, 1, BUF_SZ - 3, fin) */
    method ReadFile(file: seq<Byte>, at: nat) returns (n: nat)
      requires data.Length == BUF_SZ && at <= |file|
      modifies data
      ensures n == if |file| - at < DATA_SZ then |file| - at else DATA_SZ
      ensures data[3..3 + n] == file[at..at + n]
      ensures data[..3] == old(data[..3])
    {
      n := if |file| - at < DATA_SZ then |file| - at else DATA_SZ;
      forall k | 0 <= k < n {
        data[3 + k] := file[at + k];
      }
    }

    /** The length bytes of the header. */
    method SetLength(lastSym: nat)
      requires data.Length == BUF_SZ && lastSym <= DATA_SZ
      modifies data
      ensures data[..3] == [old(data[0]), LengthBytes(lastSym).0, LengthBytes(lastSym).1]
      ensures forall k :: 3 <= k < data.Length ==> data[k] == old(data[k])
    {
      var numPcg := lastSym / PCG_SZ + 1;
      data[1] := Wrap(numPcg);
      data[2] := 1;
      if lastSym % PCG_SZ != 0 {
        data[2] := Wrap(lastSym % PCG_SZ + 1);
      }
    }

    /** One round of p_snd, and what it writes: the next frame, from the buffer. */
    method WriteFrame(i: Byte, file: seq<Byte>, at: nat) returns (lastSym: nat, written: seq<Byte>)
      requires data.Length == BUF_SZ && at <= |file|
      modifies data
      ensures lastSym == if |file| - at < DATA_SZ then |file| - at else DATA_SZ
      ensures written == Frame(i, file[at..at + lastSym])
    {
      data[0] := i;
      data[1] := 48;
      data[2] := 48;
      lastSym := ReadFile(file, at);
      ghost var payload := file[at..at + lastSym];
      assert data[0] == data[..3][0] == i;
      assert forall k :: 0 <= k < lastSym ==> data[3 + k] == data[3..3 + lastSym][k] == payload[k];
      SetLength(lastSym);
      assert data[3..3 + lastSym] == payload;
      written := data[..lastSym + 3];
      assert written == data[..3] + data[3..3 + lastSym];
    }

    /** p_snd: what it writes, one element for each write. */
    method Send(file: seq<Byte>) returns (writes: seq<seq<Byte>>)
      requires data.Length == BUF_SZ
      modifies data
      ensures writes == Frames(1, file)
    {
      writes := [];
      var i := 1;
      var lastSym: nat := BUF_SZ - 3;
      var at := 0;
      ghost var all := Frames(1, file);
      ghost var left := all;
      assert file[0..] == file;
      while lastSym == BUF_SZ - 3
        invariant 0 <= i < 128 && at <= |file|
        invariant writes + left == all
        invariant left == FramesLeft(i, file, at, lastSym)
        decreases |file| - at, lastSym
      {
        var number := i;
        i := i + 1;
        i := i % 128;
        var written;
        lastSym, written := WriteFrame(Wrap(number), file, at);
        left := NextFrame(number, file, at, lastSym, written, writes, left);
        writes := writes + [written];
        at := at + lastSym;
      }
    }

    /** p_rcv on the results of successive reads. `overrun` says that a length led beyond the buffer,
        where the program's behaviour is undefined; the model stops there. */
    method Receive(chunks: seq<seq<Byte>>) returns (out: seq<Byte>, overrun: bool)
      requires data.Length == BUF_SZ && Chunks(chunks)
      modifies data
      ensures Received(old(data[..]), 1, chunks) == if overrun then Overrun else Written(out)
    {
      out, overrun := [], false;
      var i := 1;
      var k := 0;
      while k < |chunks|
        invariant k <= |chunks| && 0 <= i < 128
        invariant Received(old(data[..]), 1, chunks) == Prepend(out, Received(data[..], i, chunks[k..]))
      {
        var chunk := chunks[k];
        ghost var before := data[..];
        ghost var rest := chunks[k..];
        Load(chunk);
        ReceiveRound(out, before, i, rest);
        assert rest[1..] == chunks[k + 1..];
        k := k + 1;
        var j := data[0];
        if j == i {
          i := i + 1;
          i := i % 128;
          var numPcg, numLastPcg: int := data[1], data[2];
          numPcg, numLastPcg := Wrap(numPcg - 1), Wrap(numLastPcg - 1);
          var length := numPcg * PCG_SZ + numLastPcg;
          if 3 + length > BUF_SZ {
            overrun := true;
            return;
          }
          out := out + data[3..3 + length];
        }
      }
    }

    method Load(chunk: seq<Byte>)
      requires data.Length == BUF_SZ && Chunk(chunk)
      modifies data
      ensures data[..] == Loaded(old(data[..]), chunk)
    {
      forall k | 0 <= k < |chunk| {
        data[k] := chunk[k];
      }
    }
  }

  /** p_snd into one end and p_rcv out of the other. */
  method Transfer(file: seq<Byte>) returns (out: seq<Byte>, overrun: bool)
    ensures !overrun && out == file
  {
    var sender := new PipeBuffer();
    var writes := sender.Send(file);
    var receiver := new PipeBuffer();
    ghost var buf := receiver.data[..];
    out, overrun := receiver.Receive(FullReads(Flatten(writes)));
    RoundTrip(buf, file);
  }
}
