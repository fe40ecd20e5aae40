/** Which reads the framed transfer survives. A read from a pipe may return less than was asked for; the
    lengths of the reads cut the stream, and the receiver takes each piece for a frame. */
module FramedPipeReads {
  import opened Bytes
  import opened FramedPipe

  function Stream(i: Byte, file: seq<Byte>): seq<Byte> {
    Flatten(Frames(i, file))
  }

  lemma StreamUnfolds(i: Byte, file: seq<Byte>)
    ensures |file| < DATA_SZ ==> Stream(i, file) == Frame(i, file)
    ensures |file| >= DATA_SZ ==>
      Stream(i, file) == Frame(i, file[..DATA_SZ]) + Stream(NextNumber(i), file[DATA_SZ..])
  {
    var frames := Frames(i, file);
    if |file| < DATA_SZ {
      assert Flatten(frames) == frames[0] + Flatten(frames[1..]);
      assert frames[1..] == [];
    } else {
      assert frames[1..] == Frames(NextNumber(i), file[DATA_SZ..]);
    }
  }

  // ---- The lengths of the reads ----

  function Total(cuts: seq<nat>): nat {
    if cuts == [] then 0 else cuts[0] + Total(cuts[1..])
  }

  /** What reads of these lengths return. */
  function Cut(stream: seq<Byte>, cuts: seq<nat>): (chunks: seq<seq<Byte>>)
    requires Reads(cuts) && Total(cuts) <= |stream|
    ensures Chunks(chunks)
  {
    if cuts == [] then [] else [stream[..cuts[0]]] + Cut(stream[cuts[0]..], cuts[1..])
  }

  /** Together reads of these lengths return what was written. */
  lemma {:induction false} CutLosesNothing(stream: seq<Byte>, cuts: seq<nat>)
    requires Reads(cuts) && Total(cuts) == |stream|
    ensures Flatten(Cut(stream, cuts)) == stream
    decreases |cuts|
  {
    if cuts != [] {
      var chunks := Cut(stream, cuts);
      assert chunks[1..] == Cut(stream[cuts[0]..], cuts[1..]);
      CutLosesNothing(stream[cuts[0]..], cuts[1..]);
      assert stream == stream[..cuts[0]] + stream[cuts[0]..];
    }
  }

  predicate Reads(cuts: seq<nat>) {
    forall k :: 0 <= k < |cuts| ==> 0 < cuts[k] <= BUF_SZ
  }

  /** The lengths of the frames of a file of n bytes. */
  function FrameLengths(n: nat): (lengths: seq<nat>)
    ensures lengths != []
  {
    if n < DATA_SZ then [n + 3] else [BUF_SZ] + FrameLengths(n - DATA_SZ)
  }

  /** Reads that take the whole stream of a file of n bytes. */
  predicate ReadsOf(cuts: seq<nat>, n: nat) {
    Reads(cuts) && Total(cuts) == Total(FrameLengths(n))
  }

  lemma {:induction false} StreamLength(i: Byte, file: seq<Byte>)
    ensures |Stream(i, file)| == Total(FrameLengths(|file|))
    decreases |file|
  {
    StreamUnfolds(i, file);
    if |file| < DATA_SZ {
      assert Total([|file| + 3]) == |file| + 3 + Total([]);
    } else {
      StreamLength(NextNumber(i), file[DATA_SZ..]);
      var lengths := FrameLengths(|file|);
      assert lengths[1..] == FrameLengths(|file| - DATA_SZ);
    }
  }

  /** The outcome of reads of these lengths. */
  function Delivered(buf: seq<Byte>, i: Byte, file: seq<Byte>, cuts: seq<nat>): Outcome
    requires |buf| == BUF_SZ && ReadsOf(cuts, |file|)
  {
    StreamLength(i, file);
    Received(buf, i, Cut(Stream(i, file), cuts))
  }

  /** The reads fall on the frame boundaries; or a last frame without data, after one that was full, is cut
      before its last byte: what the buffer has in that place then is the same. */
  predicate SafeCuts(n: nat, cuts: seq<nat>) {
    || cuts == FrameLengths(n)
    || (n > 0 && n % DATA_SZ == 0 && cuts == FrameLengths(n)[..|FrameLengths(n)| - 1] + [2, 1])
  }

  // The same by recursion over the frames; `first` says that no frame came before.
  predicate Safe(first: bool, n: nat, cuts: seq<nat>)
    decreases n
  {
    if n < DATA_SZ then
      cuts == [n + 3] || (n == 0 && !first && cuts == [2, 1])
    else
      cuts != [] && cuts[0] == BUF_SZ && Safe(false, n - DATA_SZ, cuts[1..])
  }

  lemma {:induction false} SafeIsSafeCuts(first: bool, n: nat, cuts: seq<nat>)
    ensures Safe(first, n, cuts) <==>
      || cuts == FrameLengths(n)
      || ((n > 0 || !first) && n % DATA_SZ == 0 && cuts == FrameLengths(n)[..|FrameLengths(n)| - 1] + [2, 1])
    decreases n
  {
    if n >= DATA_SZ {
      var rest := FrameLengths(n - DATA_SZ);
      assert FrameLengths(n) == [BUF_SZ] + rest;
      assert FrameLengths(n)[..|FrameLengths(n)| - 1] + [2, 1] == [BUF_SZ] + (rest[..|rest| - 1] + [2, 1]);
      if cuts != [] && cuts[0] == BUF_SZ {
        assert cuts == [BUF_SZ] + cuts[1..];
        SafeIsSafeCuts(false, n - DATA_SZ, cuts[1..]);
      }
    }
  }

  // ---- One piece ----

  // The first piece is cut from the first frame.
  lemma FirstPiece(i: Byte, file: seq<Byte>, cuts: seq<nat>)
    requires ReadsOf(cuts, |file|)
    ensures cuts != [] && Total(cuts) == |Stream(i, file)|
    ensures Cut(Stream(i, file), cuts) == [Stream(i, file)[..cuts[0]]] + Cut(Stream(i, file)[cuts[0]..], cuts[1..])
  {
    StreamLength(i, file);
    StreamUnfolds(i, file);
  }

  lemma FirstReceived(buf: seq<Byte>, i: nat, chunk: seq<Byte>, rest: seq<seq<Byte>>)
    requires |buf| == BUF_SZ && Chunk(chunk) && Chunks(rest)
    ensures Chunks([chunk] + rest)
    ensures var b := Loaded(buf, chunk);
      var length := DecodedLength(b[1], b[2]);
      Received(buf, i, [chunk] + rest) ==
        if b[0] != i then Received(b, i, rest)
        else if 3 + length > BUF_SZ then Overrun
        else Prepend(b[3..3 + length], Received(b, NextNumber(i), rest))
  {
    assert ([chunk] + rest)[1..] == rest;
  }

  // A full frame read whole is passed on, and fills the buffer.
  lemma FullFrame(buf: seq<Byte>, i: Byte, file: seq<Byte>, cuts: seq<nat>)
    requires |buf| == BUF_SZ && |file| >= DATA_SZ && ReadsOf(cuts, |file|) && cuts[0] == BUF_SZ
    ensures ReadsOf(cuts[1..], |file| - DATA_SZ)
    ensures Delivered(buf, i, file, cuts) ==
      Prepend(file[..DATA_SZ], Delivered(Frame(i, file[..DATA_SZ]), NextNumber(i), file[DATA_SZ..], cuts[1..]))
  {
    var frame := Frame(i, file[..DATA_SZ]);
    var lengths := FrameLengths(|file|);
    assert lengths[1..] == FrameLengths(|file| - DATA_SZ);
    FirstPiece(i, file, cuts);
    StreamUnfolds(i, file);
    StreamLength(NextNumber(i), file[DATA_SZ..]);
    var stream := Stream(i, file);
    assert stream[..BUF_SZ] == frame && stream[BUF_SZ..] == Stream(NextNumber(i), file[DATA_SZ..]);
    OneFrame(buf, i, file[..DATA_SZ]);
    assert Loaded(buf, frame) == frame;
    FirstReceived(buf, i, frame, Cut(stream[BUF_SZ..], cuts[1..]));
  }

  // ---- Safe reads are safe ----

  lemma WholeLastFrame(buf: seq<Byte>, i: Byte, file: seq<Byte>)
    requires |buf| == BUF_SZ && |file| < DATA_SZ
    ensures ReadsOf([|file| + 3], |file|) && Delivered(buf, i, file, [|file| + 3]) == Written(file)
  {
    FirstPiece(i, file, [|file| + 3]);
    StreamUnfolds(i, file);
    OneFrame(buf, i, file);
    assert Frame(i, file)[..|file| + 3] == Frame(i, file);
    FirstReceived(buf, i, Frame(i, file), []);
  }

  // The byte that was cut off: dropped, or taken for another empty frame.
  lemma LastByteDropped(buf: seq<Byte>, i: nat, last: seq<Byte>)
    requires |buf| == BUF_SZ && buf[1] == 1 && buf[2] == 1 && last == [1]
    ensures Total([1]) == 1 && Received(buf, i, Cut(last, [1])) == Written([])
  {
    assert Total([1]) == 1 + Total([]) && [1][1..] == [];
    assert last[..1] == [1];
    assert Cut(last, [1]) == [last[..1]] + Cut(last[1..], []);
    var b := Loaded(buf, [1]);
    FirstReceived(buf, i, [1], []);
    assert b[1] == 1 && b[2] == 1;
  }

  lemma EmptyLastFrameCut(buf: seq<Byte>, i: Byte)
    requires |buf| == BUF_SZ && buf[2] == 1
    ensures ReadsOf([2, 1], 0) && Delivered(buf, i, [], [2, 1]) == Written([])
  {
    assert [2, 1][1..] == [1];
    var b := Loaded(buf, [i, 1]);
    assert b[0] == i && b[1] == 1 && b[2] == buf[2];
    LastByteDropped(b, NextNumber(i), [1]);
    FirstPiece(i, [], [2, 1]);
    StreamUnfolds(i, []);
    var stream := Stream(i, []);
    assert stream == [i, 1, 1] && stream[..2] == [i, 1] && stream[2..] == [1];
    FirstReceived(buf, i, [i, 1], Cut(stream[2..], [1]));
  }

  lemma PrependRest(file: seq<Byte>, n: nat)
    requires n <= |file|
    ensures Prepend(file[..n], Written(file[n..])) == Written(file)
  {
    assert file == file[..n] + file[n..];
  }

  lemma {:induction false} SafeReads(buf: seq<Byte>, i: Byte, first: bool, file: seq<Byte>, cuts: seq<nat>)
    requires |buf| == BUF_SZ && (!first ==> buf[2] == 1)
    requires ReadsOf(cuts, |file|) && Safe(first, |file|, cuts)
    ensures Delivered(buf, i, file, cuts) == Written(file)
    decreases |file|
  {
    if |file| >= DATA_SZ {
      FullFrame(buf, i, file, cuts);
      SafeReads(Frame(i, file[..DATA_SZ]), NextNumber(i), false, file[DATA_SZ..], cuts[1..]);
      PrependRest(file, DATA_SZ);
    } else if cuts == [|file| + 3] {
      WholeLastFrame(buf, i, file);
    } else {
      assert file == [];
      EmptyLastFrameCut(buf, i);
    }
  }

  // ---- Other reads are not ----

  /** A byte that is no frame number, and another for what went before. */
  const DATUM: Byte := 200
  const OLD_DATUM: Byte := 201

  function Full(b: Byte, n: nat): (data: seq<Byte>)
    ensures |data| == n && forall k :: 0 <= k < n ==> data[k] == b
  {
    seq(n, _ => b)
  }

  // The buffer as a short read finds it: the zeros it starts with, or a full frame without DATUM in it.
  predicate Stale(buf: seq<Byte>, first: bool) {
    && |buf| == BUF_SZ
    && (if first then buf[1] == buf[2] == 0 else buf[1] == 255 && buf[2] == 1)
    && forall k :: 3 <= k < BUF_SZ ==> buf[k] != DATUM
  }

  lemma NotWritten(data: seq<Byte>, o: Outcome, file: seq<Byte>, k: nat)
    requires k < |data| && (k >= |file| || data[k] != file[k])
    ensures Prepend(data, o) != Written(file)
  {
    if o.Written? {
      assert (data + o.out)[k] == data[k];
    }
  }

  lemma PrependDiffers(data: seq<Byte>, o: Outcome, rest: seq<Byte>)
    requires o != Written(rest)
    ensures Prepend(data, o) != Written(data + rest)
  {
    if o.Written? {
      assert (data + o.out)[|data|..] == o.out && (data + rest)[|data|..] == rest;
    }
  }

  // What is spoiled after a full frame is spoiled with it.
  lemma SpoiledAfter(buf: seq<Byte>, i: Byte, load: seq<Byte>, rest: seq<Byte>, cuts: seq<nat>)
    requires |buf| == BUF_SZ && |load| == DATA_SZ && ReadsOf(cuts, DATA_SZ + |rest|) && cuts[0] == BUF_SZ
    requires ReadsOf(cuts[1..], |rest|)
    requires Delivered(Frame(i, load), NextNumber(i), rest, cuts[1..]) != Written(rest)
    ensures Delivered(buf, i, load + rest, cuts) != Written(load + rest)
  {
    var file := load + rest;
    assert file[..DATA_SZ] == load && file[DATA_SZ..] == rest;
    FullFrame(buf, i, file, cuts);
    PrependDiffers(load, Delivered(Frame(i, load), NextNumber(i), rest, cuts[1..]), rest);
  }

  lemma ReadsAfter(cuts: seq<nat>, n: nat)
    requires ReadsOf(cuts, n) && n >= DATA_SZ && cuts[0] == BUF_SZ
    ensures ReadsOf(cuts[1..], n - DATA_SZ)
  {
    assert FrameLengths(n)[1..] == FrameLengths(n - DATA_SZ);
  }

  function FirstLoad(n: nat): nat {
    if n < DATA_SZ then n else DATA_SZ
  }

  lemma FirstFrame(i: Byte, file: seq<Byte>, c: nat)
    requires c <= FirstLoad(|file|) + 3
    ensures c <= |Stream(i, file)| && Stream(i, file)[..c] == Frame(i, file[..FirstLoad(|file|)])[..c]
  {
    StreamUnfolds(i, file);
    if |file| < DATA_SZ { assert file[..|file|] == file; }
  }

  // What the buffer holds after a first read of c bytes that ends before the first frame does.
  lemma ShortLoad(buf: seq<Byte>, i: Byte, file: seq<Byte>, c: nat) returns (b: seq<Byte>)
    requires |buf| == BUF_SZ && 0 < c < FirstLoad(|file|) + 3
    ensures c <= |Stream(i, file)| && b == Loaded(buf, Stream(i, file)[..c])
    ensures b[0] == i
    ensures b[1] == if c > 1 then LengthBytes(FirstLoad(|file|)).0 else buf[1]
    ensures b[2] == if c > 2 then LengthBytes(FirstLoad(|file|)).1 else buf[2]
    ensures forall k :: c <= k < BUF_SZ ==> b[k] == buf[k]
  {
    FirstFrame(i, file, c);
    b := Loaded(buf, Stream(i, file)[..c]);
  }

  // The outcome after such a read.
  lemma ShortFirstRead(buf: seq<Byte>, i: Byte, file: seq<Byte>, cuts: seq<nat>) returns (b: seq<Byte>, rest: Outcome)
    requires |buf| == BUF_SZ && ReadsOf(cuts, |file|)
    requires cuts[0] < FirstLoad(|file|) + 3
    ensures |b| == BUF_SZ
    ensures b[1] == if cuts[0] > 1 then LengthBytes(FirstLoad(|file|)).0 else buf[1]
    ensures b[2] == if cuts[0] > 2 then LengthBytes(FirstLoad(|file|)).1 else buf[2]
    ensures forall k :: cuts[0] <= k < BUF_SZ ==> b[k] == buf[k]
    ensures var length := DecodedLength(b[1], b[2]);
      Delivered(buf, i, file, cuts) == if 3 + length > BUF_SZ then Overrun else Prepend(b[3..3 + length], rest)
    ensures Total(cuts[1..]) <= |Stream(i, file)[cuts[0]..]|
    ensures rest == Received(b, NextNumber(i), Cut(Stream(i, file)[cuts[0]..], cuts[1..]))
  {
    var c := cuts[0];
    FirstPiece(i, file, cuts);
    b := ShortLoad(buf, i, file, c);
    FirstReceived(buf, i, Stream(i, file)[..c], Cut(Stream(i, file)[c..], cuts[1..]));
    rest := Received(b, NextNumber(i), Cut(Stream(i, file)[c..], cuts[1..]));
  }

  /** A cut within the data of a frame: what the buffer had in place of the rest is written. */
  lemma CutInData(buf: seq<Byte>, i: Byte, file: seq<Byte>, cuts: seq<nat>)
    requires |buf| == BUF_SZ && ReadsOf(cuts, |file|) && 3 <= cuts[0] < FirstLoad(|file|) + 3
    requires file[cuts[0] - 3] != buf[cuts[0]]
    ensures Delivered(buf, i, file, cuts) != Written(file)
  {
    var n, c := FirstLoad(|file|), cuts[0];
    var b, rest := ShortFirstRead(buf, i, file, cuts);
    LengthRoundTrip(n);
    NotWritten(b[3..3 + n], rest, file, c - 3);
  }

  // A cut in the header that makes a length out of old bytes: data is written that never came.
  lemma CutInHeader(buf: seq<Byte>, i: Byte, n: nat, cuts: seq<nat>, numPcg: Byte)
    requires |buf| == BUF_SZ && ReadsOf(cuts, n) && cuts[0] < 3 && buf[3] != DATUM
    requires numPcg == if cuts[0] > 1 then LengthBytes(FirstLoad(n)).0 else buf[1]
    requires DecodedLength(numPcg, buf[2]) > 0
    ensures Delivered(buf, i, Full(DATUM, n), cuts) != Written(Full(DATUM, n))
  {
    var b, rest := ShortFirstRead(buf, i, Full(DATUM, n), cuts);
    var length := DecodedLength(b[1], b[2]);
    if 3 + length <= BUF_SZ {
      NotWritten(b[3..3 + length], rest, Full(DATUM, n), 0);
    }
  }

  // A cut after the number: a length beyond the buffer, or that of the frame before.
  lemma CutAfterNumber(buf: seq<Byte>, first: bool, i: Byte, n: nat, cuts: seq<nat>)
    requires Stale(buf, first) && ReadsOf(cuts, n) && cuts[0] == 1
    ensures Delivered(buf, i, Full(DATUM, n), cuts) != Written(Full(DATUM, n))
  {
    assert DecodedLength(buf[1], buf[2]) > 0;
    CutInHeader(buf, i, n, cuts, buf[1]);
  }

  // A cut between the length bytes: a length of full packages, and 255 more at the beginning.
  lemma CutInLength(buf: seq<Byte>, first: bool, i: Byte, n: nat, cuts: seq<nat>)
    requires Stale(buf, first) && ReadsOf(cuts, n) && cuts[0] == 2 && (first || n >= PCG_SZ)
    ensures Delivered(buf, i, Full(DATUM, n), cuts) != Written(Full(DATUM, n))
  {
    MixedLength(FirstLoad(n), buf[2]);
    CutInHeader(buf, i, n, cuts, LengthBytes(FirstLoad(n)).0);
  }

  // The first length byte of this frame with the second of another.
  lemma MixedLength(n: nat, numLast: Byte)
    requires n <= DATA_SZ && (numLast == 0 || (numLast == 1 && n >= PCG_SZ))
    ensures DecodedLength(LengthBytes(n).0, numLast) > 0
  {
  }

  // Pieces of data alone are dropped.
  lemma {:induction false} DataDropped(buf: seq<Byte>, i: nat, stream: seq<Byte>, cuts: seq<nat>)
    requires |buf| == BUF_SZ && i < DATUM && Reads(cuts) && Total(cuts) <= |stream|
    requires forall k :: 0 <= k < |stream| ==> stream[k] == DATUM
    ensures Received(buf, i, Cut(stream, cuts)) == Written([])
    decreases |cuts|
  {
    if cuts != [] {
      var b := Loaded(buf, stream[..cuts[0]]);
      assert b[0] == stream[..cuts[0]][0] == DATUM;
      FirstReceived(buf, i, stream[..cuts[0]], Cut(stream[cuts[0]..], cuts[1..]));
      DataDropped(b, i, stream[cuts[0]..], cuts[1..]);
    }
  }

  // A small frame without the first two bytes of its header never gives its data.
  lemma HeadlessFrame(buf: seq<Byte>, i: nat, q: Byte, data: seq<Byte>, cuts: seq<nat>)
    requires |buf| == BUF_SZ && buf[1] == 1 && buf[2] == 1 && i < 128
    requires 0 < |data| < PCG_SZ && forall k :: 0 <= k < |data| ==> data[k] == DATUM
    requires Reads(cuts) && Total(cuts) <= |[q] + data| && cuts != []
    ensures Received(buf, i, Cut([q] + data, cuts)) != Written(data)
  {
    var stream := [q] + data;
    var c := cuts[0];
    var b := Loaded(buf, stream[..c]);
    assert b[0] == q;
    FirstReceived(buf, i, stream[..c], Cut(stream[c..], cuts[1..]));
    DataDropped(b, i, stream[c..], cuts[1..]);
    DataDropped(b, NextNumber(i), stream[c..], cuts[1..]);
    if c >= 2 && q == i {
      assert b[1] == stream[1] == DATUM;
      assert c >= 3 ==> b[2] == stream[2] == DATUM;
      assert c == 2 ==> b[2] == buf[2];
      var length := DecodedLength(b[1], b[2]);
      NotWritten(b[3..3 + length], Written([]), data, |data|);
    } else {
      assert c == 1 ==> b[1] == buf[1] && b[2] == buf[2];
    }
  }

  lemma SmallStream(i: Byte, file: seq<Byte>)
    requires |file| < PCG_SZ
    ensures LengthBytes(|file|).0 == 1 && Stream(i, file)[2..] == [LengthBytes(|file|).1] + file
  {
    StreamUnfolds(i, file);
  }

  lemma CutInSmallLength(buf: seq<Byte>, i: Byte, n: nat, cuts: seq<nat>)
    requires Stale(buf, false) && ReadsOf(cuts, n) && cuts[0] == 2 && 0 < n < PCG_SZ && i < 128
    ensures Delivered(buf, i, Full(DATUM, n), cuts) != Written(Full(DATUM, n))
  {
    var file := Full(DATUM, n);
    var b, rest := ShortFirstRead(buf, i, file, cuts);
    SmallStream(i, file);
    LastReads(cuts);
    assert Total([n + 3]) == n + 3 + Total([]);
    assert cuts[1..] != [];
    HeadlessFrame(b, NextNumber(i), LengthBytes(n).1, file, cuts[1..]);
    assert b[3..3] == [];
    assert Prepend([], rest) == rest;
  }

  lemma {:induction false} OtherReadsSpoil(buf: seq<Byte>, i: Byte, first: bool, n: nat, cuts: seq<nat>)
      returns (file: seq<Byte>)
    requires Stale(buf, first) && i < 128 && ReadsOf(cuts, n) && !Safe(first, n, cuts)
    ensures |file| == n && Delivered(buf, i, file, cuts) != Written(file)
    decreases n
  {
    FirstPiece(i, Full(DATUM, n), cuts);
    if cuts[0] == FirstLoad(n) + 3 {
      file := SpoilLater(buf, i, first, n, cuts);
    } else {
      file := Full(DATUM, n);
      FirstCutIsShort(n, cuts);
      if cuts[0] >= 3 {
        CutInData(buf, i, file, cuts);
      } else if cuts[0] == 1 {
        CutAfterNumber(buf, first, i, n, cuts);
      } else if first || n >= PCG_SZ {
        CutInLength(buf, first, i, n, cuts);
      } else {
        EmptyFrameCut(n, cuts);
        CutInSmallLength(buf, i, n, cuts);
      }
    }
  }

  lemma FirstCutIsShort(n: nat, cuts: seq<nat>)
    requires ReadsOf(cuts, n) && cuts != [] && cuts[0] != FirstLoad(n) + 3
    ensures cuts[0] < FirstLoad(n) + 3
  {
    if n < DATA_SZ { assert Total([n + 3]) == n + 3 + Total([]); }
  }

  lemma FewReads(cuts: seq<nat>)
    requires Reads(cuts)
    ensures Total(cuts) == 0 ==> cuts == []
    ensures Total(cuts) == 1 ==> cuts == [1]
  {
    if cuts != [] {
      FewReads(cuts[1..]);
      assert cuts == [cuts[0]] + cuts[1..];
    }
  }

  lemma LastReads(cuts: seq<nat>)
    requires Reads(cuts) && cuts != []
    ensures Total(cuts) == cuts[0] ==> cuts == [cuts[0]]
    ensures Total(cuts) == cuts[0] + 1 ==> cuts == [cuts[0], 1]
  {
    FewReads(cuts[1..]);
    assert cuts == [cuts[0]] + cuts[1..];
  }

  // Three bytes cut after two.
  lemma EmptyFrameCut(n: nat, cuts: seq<nat>)
    requires n < DATA_SZ && ReadsOf(cuts, n) && !Safe(false, n, cuts) && cuts != [] && cuts[0] == 2
    ensures n > 0
  {
    assert Total([n + 3]) == n + 3 + Total([]);
    LastReads(cuts);
  }

  // The first frame is read whole: it is not the last, and a later one is cut.
  lemma {:induction false} SpoilLater(buf: seq<Byte>, i: Byte, first: bool, n: nat, cuts: seq<nat>)
      returns (file: seq<Byte>)
    requires Stale(buf, first) && i < 128 && ReadsOf(cuts, n) && !Safe(first, n, cuts)
    requires cuts != [] && cuts[0] == FirstLoad(n) + 3
    ensures |file| == n && Delivered(buf, i, file, cuts) != Written(file)
    decreases n, 0
  {
    WholeFrameIsNotLast(first, n, cuts);
    var load := Full(OLD_DATUM, DATA_SZ);
    var frame := Frame(i, load);
    assert LengthBytes(DATA_SZ) == (255, 1);
    assert forall k :: 3 <= k < BUF_SZ ==> frame[k] == load[k - 3];
    ReadsAfter(cuts, n);
    var rest := OtherReadsSpoil(frame, NextNumber(i), false, n - DATA_SZ, cuts[1..]);
    file := load + rest;
    SpoiledAfter(buf, i, load, rest, cuts);
  }

  lemma WholeFrameIsNotLast(first: bool, n: nat, cuts: seq<nat>)
    requires ReadsOf(cuts, n) && !Safe(first, n, cuts) && cuts != [] && cuts[0] == FirstLoad(n) + 3
    ensures n >= DATA_SZ
  {
    assert Total([n + 3]) == n + 3 + Total([]);
    LastReads(cuts);
  }

  /** The buffer p_rcv starts with. */
  function Zeros(): seq<Byte> {
    Full(0, BUF_SZ)
  }

  /** Reads of given lengths bring every file of n bytes through unchanged if and only if they are safe; and
      then they do so whatever the buffer holds. */
  lemma SafeCutsIff(n: nat, cuts: seq<nat>)
    requires ReadsOf(cuts, n)
    ensures SafeCuts(n, cuts) <==>
      forall file: seq<Byte> :: |file| == n ==> Delivered(Zeros(), 1, file, cuts) == Written(file)
    ensures SafeCuts(n, cuts) <==>
      forall buf: seq<Byte>, file: seq<Byte> :: |buf| == BUF_SZ && |file| == n ==>
        Delivered(buf, 1, file, cuts) == Written(file)
  {
    SafeIsSafeCuts(true, n, cuts);
    if SafeCuts(n, cuts) {
      forall buf: seq<Byte>, file: seq<Byte> | |buf| == BUF_SZ && |file| == n
        ensures Delivered(buf, 1, file, cuts) == Written(file)
      {
        SafeReads(buf, 1, true, file, cuts);
      }
    } else {
      var file := OtherReadsSpoil(Zeros(), 1, true, n, cuts);
    }
  }

  /** A first read of one byte alone makes the receiver decode a length beyond its buffer, for every file. */
  lemma FirstByteAlone(file: seq<Byte>, cuts: seq<nat>)
    requires ReadsOf(cuts, |file|) && cuts[0] == 1
    ensures Delivered(Zeros(), 1, file, cuts) == Overrun
  {
    var b, rest := ShortFirstRead(Zeros(), 1, file, cuts);
    assert DecodedLength(0, 0) == 65535;
  }

  lemma OldFrameWritten(i: Byte, load: seq<Byte>, rest: seq<Byte>, cuts: seq<nat>)
    requires |load| == DATA_SZ && ReadsOf(cuts, |rest|) && 3 <= cuts[0] < FirstLoad(|rest|) + 3
    requires rest[cuts[0] - 3] != load[cuts[0] - 3]
    ensures Delivered(Frame(i, load), NextNumber(i), rest, cuts) != Written(rest)
  {
    assert Frame(i, load)[cuts[0]] == load[cuts[0] - 3];
    CutInData(Frame(i, load), NextNumber(i), rest, cuts);
  }

  /** And not only for some file: when the second frame is cut within its data, every file is spoiled whose
      byte at the cut is not the one a full load before it, whatever is read after that. */
  lemma SecondFrameCut(buf: seq<Byte>, file: seq<Byte>, cuts: seq<nat>)
    requires |buf| == BUF_SZ && |file| > DATA_SZ && ReadsOf(cuts, |file|)
    requires |cuts| >= 2 && cuts[0] == BUF_SZ && 3 <= cuts[1] < FirstLoad(|file| - DATA_SZ) + 3
    requires file[DATA_SZ + cuts[1] - 3] != file[cuts[1] - 3]
    ensures Delivered(buf, 1, file, cuts) != Written(file)
  {
    var load, rest := file[..DATA_SZ], file[DATA_SZ..];
    assert file == load + rest;
    ReadsAfter(cuts, |file|);
    OldFrameWritten(1, load, rest, cuts[1..]);
    SpoiledAfter(buf, 1, load, rest, cuts);
  }

  /** What a short read adds is the data of the chunk read last, also of one that was dropped: a header that
      comes alone after a dropped frame brings that frame's data into the file. */
  lemma DroppedDataComesBack(buf: seq<Byte>, i: Byte, j: Byte, data: seq<Byte>, n: nat)
    requires |buf| == BUF_SZ && i != j && n <= |data| <= DATA_SZ
    ensures var header := [i, LengthBytes(n).0, LengthBytes(n).1];
      Chunks([Frame(j, data), header]) && Received(buf, i, [Frame(j, data), header]) == Written(data[..n])
  {
    var frame, header := Frame(j, data), [i, LengthBytes(n).0, LengthBytes(n).1];
    var b := Loaded(buf, frame);
    var c := Loaded(b, header);
    LengthRoundTrip(n);
    DroppedFirst(buf, i, frame, [header]);
    assert [frame] + [header] == [frame, header];
    FirstReceived(b, i, header, []);
    assert [header] + [] == [header];
    assert c[3..3 + n] == data[..n];
  }
}
