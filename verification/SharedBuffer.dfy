/** The shared-memory transfer: one sender and one receiver, a ring buffer of `cap` bytes under three
    counting semaphores. One step is one semaphore operation, or one access to shared memory. */
module SharedBuffer {
  import opened Bytes

  /** The size of the program's buffer: SHM_SZ less three indices of eight bytes. Everything below is
      for any size from 1 on. */
  const BUF_SZ := 64 - 3 * 8

  /** Where the sender is (sm_main.c, line numbers on the right). */
  datatype SendPc =
    | LoopTest         // 85
    | WaitEmpty        // 87
    | WaitMutex        // 88
    | ReadByte         // 91
    | Update           // 93   read_sz is known; status or the position is set
    | PostMutex        // 101
    | PostFull         // 102
    | Drain            // 105  waits for status to change
    | Gone

  /** Where the receiver is; the End places are those of the branch that leaves the loop. */
  datatype RecvPc =
    | WaitFull         // 123
    | WaitMutex        // 124
    | EofTest          // 126
    | WriteByte        // 134
    | Update           // 140
    | PostMutex        // 142
    | PostEmpty        // 143
    | EndPostMutex     // 128
    | EndPostEmpty     // 129
    | SetStatus        // 146
    | Left

  datatype State = State(
    cap: nat,
    src: seq<Byte>,
    rd: nat,           // bytes read from the source
    readSz: nat,       // result of the sender's last read
    spc: SendPc,
    rpc: RecvPc,
    status: nat,       // 1 while sending, 0 at end of file
    sndPos: nat,
    rcvPos: nat,
    buf: seq<Byte>,
    empty: nat,
    full: nat,
    mutex: nat,
    dst: seq<Byte>)

  datatype Action = Send | Receive

  function Init(buf: seq<Byte>, src: seq<Byte>): State {
    State(|buf|, src, 0, 0, LoopTest, WaitFull, 1, 0, 0, buf, |buf|, 0, 1, [])
  }

  function Fill(buf: seq<Byte>, pos: nat, b: Byte): seq<Byte>
    requires pos < |buf|
  {
    buf[pos := b]
  }

  function Advance(pos: nat, cap: nat): nat
    requires cap > 0
  {
    (pos + 1) % cap
  }

  predicate WellFormed(s: State) {
    s.cap == |s.buf| > 0 && s.sndPos < s.cap && s.rcvPos < s.cap
  }

  predicate Enabled(s: State, a: Action) {
    WellFormed(s) &&
    match a
    case Send =>
      (match s.spc
       case WaitEmpty => s.empty > 0
       case WaitMutex => s.mutex > 0
       case Drain => s.status != 0
       case Gone => false
       case _ => true)
    case Receive =>
      (match s.rpc
       case WaitFull => s.full > 0
       case WaitMutex => s.mutex > 0
       case Left => false
       case _ => true)
  }

  /** The receiver's test for the end of the file. */
  predicate SeesEof(s: State) {
    (if (if s.status == 1 then 1 else 0) + s.full != 0 then 1 else 0) <= 0
  }

  function Apply(s: State, a: Action): State
    requires Enabled(s, a)
  {
    match a
    case Send =>
      (match s.spc
       case LoopTest => s.(spc := if s.status != 0 then WaitEmpty else Drain)
       case WaitEmpty => s.(empty := s.empty - 1, spc := SendPc.WaitMutex)
       case WaitMutex => s.(mutex := s.mutex - 1, spc := ReadByte)
       case ReadByte =>
         if s.rd < |s.src| then
           s.(buf := Fill(s.buf, s.sndPos, s.src[s.rd]), rd := s.rd + 1, readSz := 1, spc := SendPc.Update)
         else
           s.(readSz := 0, spc := SendPc.Update)
       case Update =>
         if s.readSz == 0 then
           s.(status := 0, spc := SendPc.PostMutex)
         else
           s.(sndPos := Advance(s.sndPos, s.cap), spc := SendPc.PostMutex)
       case PostMutex => s.(mutex := s.mutex + 1, spc := PostFull)
       case PostFull => s.(full := s.full + 1, spc := LoopTest)
       case Drain => s.(spc := Gone)
       case Gone => s)
    case Receive =>
      (match s.rpc
       case WaitFull => s.(full := s.full - 1, rpc := RecvPc.WaitMutex)
       case WaitMutex => s.(mutex := s.mutex - 1, rpc := EofTest)
       case EofTest => s.(rpc := if SeesEof(s) then EndPostMutex else WriteByte)
       case WriteByte => s.(dst := s.dst + [s.buf[s.rcvPos]], rpc := RecvPc.Update)
       case Update => s.(rcvPos := Advance(s.rcvPos, s.cap), rpc := RecvPc.PostMutex)
       case PostMutex => s.(mutex := s.mutex + 1, rpc := PostEmpty)
       case PostEmpty => s.(empty := s.empty + 1, rpc := WaitFull)
       case EndPostMutex => s.(mutex := s.mutex + 1, rpc := EndPostEmpty)
       case EndPostEmpty => s.(empty := s.empty + 1, rpc := SetStatus)
       case SetStatus => s.(status := 1, rpc := Left)
       case Left => s)
  }

  predicate Runs(s: State, actions: seq<Action>, t: State)
    decreases |actions|
  {
    if actions == [] then
      s == t
    else
      Enabled(s, actions[0]) && Runs(Apply(s, actions[0]), actions[1..], t)
  }

  /** A position at most twice round the ring. */
  function Wrapped(pos: nat, cap: nat): nat {
    if pos < cap then pos else pos - cap
  }

  /** The ring holds the bytes `unread`: they lie from position rInd on, and sInd is the place after them. */
  ghost predicate Holds(buf: seq<Byte>, sInd: nat, rInd: nat, unread: seq<Byte>) {
    && rInd < |buf| && |unread| <= |buf|
    && sInd == Wrapped(rInd + |unread|, |buf|)
    && forall k :: 0 <= k < |unread| ==> buf[Wrapped(rInd + k, |buf|)] == unread[k]
  }

  lemma HoldsOneMore(buf: seq<Byte>, sInd: nat, rInd: nat, unread: seq<Byte>, b: Byte)
    requires Holds(buf, sInd, rInd, unread) && |unread| < |buf|
    ensures sInd < |buf|
    ensures Holds(buf[sInd := b], (sInd + 1) % |buf|, rInd, unread + [b])
  {
  }

  lemma HoldsOneLess(buf: seq<Byte>, sInd: nat, rInd: nat, unread: seq<Byte>)
    requires Holds(buf, sInd, rInd, unread) && unread != []
    ensures buf[rInd] == unread[0]
    ensures Holds(buf, sInd, (rInd + 1) % |buf|, unread[1..])
  {
    var next, rest := (rInd + 1) % |buf|, unread[1..];
    assert next == Wrapped(rInd + 1, |buf|);
    assert buf[Wrapped(rInd + 0, |buf|)] == unread[0];
    forall k | 0 <= k < |rest|
      ensures buf[Wrapped(next + k, |buf|)] == rest[k]
    {
      NextWrapped(rInd, k, |buf|);
      assert rest[k] == unread[k + 1];
    }
    NextWrapped(rInd, |rest|, |buf|);
  }

  lemma NextWrapped(pos: nat, k: nat, cap: nat)
    requires pos < cap && k < cap
    ensures Wrapped(Wrapped(pos + 1, cap) + k, cap) == Wrapped(pos + (k + 1), cap)
  {
  }

  /** The shared memory block itself, with the bodies of the two critical sections. It stands for the
      sequence of bytes sent and not yet received. */
  class SharedMemory {
    ghost var unread: seq<Byte>
    var status: nat
    var sInd: nat
    var rInd: nat
    const buf: array<Byte>

    ghost predicate Valid()
      reads this, buf
    {
      Holds(buf[..], sInd, rInd, unread)
    }

    constructor (cap: nat)
      requires cap > 0
      ensures Valid() && fresh(buf) && buf.Length == cap && status == 1 && unread == []
    {
      status, sInd, rInd, unread := 1, 0, 0, [];
      buf := new Byte[cap];
    }

    /** The sender's critical section: the next byte of the file is added at the end, or its end is told. */
    method SendBody(src: seq<Byte>, rd: nat) returns (readSz: nat)
      requires Valid() && rd <= |src| && (rd < |src| ==> |unread| < buf.Length)
      modifies this`status, this`sInd, this`unread, buf
      ensures Valid()
      ensures readSz == if rd < |src| then 1 else 0
      ensures unread == old(unread) + src[rd..rd + readSz]
      ensures status == if readSz == 0 then 0 else old(status)
    {
      readSz := 0;
      ghost var before := buf[..];
      if rd < |src| {
        HoldsOneMore(buf[..], sInd, rInd, unread, src[rd]);
        buf[sInd] := src[rd];
        readSz := 1;
        assert buf[..] == before[sInd := src[rd]];
        unread := unread + [src[rd]];
      }
      if readSz == 0 {
        status := 0;
      } else {
        sInd := (sInd + readSz) % buf.Length;
      }
    }

    /** The receiver's critical section, when it is not at the end: the first byte is taken out. */
    method ReceiveBody() returns (b: Byte)
      requires Valid() && unread != []
      modifies this`rInd, this`unread
      ensures Valid()
      ensures [b] + unread == old(unread)
    {
      HoldsOneLess(buf[..], sInd, rInd, unread);
      b := buf[rInd];
      rInd := (rInd + 1) % buf.Length;
      unread := unread[1..];
    }
  }
}
