/** What every interleaving of the sender and the receiver keeps, where it ends, and exactly when the
    copy is complete. */
module SharedBufferProofs {
  import opened Bytes
  import opened SharedBuffer

  function SendHolds(s: State): nat {
    match s.spc
    case WaitMutex => 1
    case ReadByte => 1
    case Update => 1
    case PostMutex => 1
    case PostFull => 1
    case _ => 0
  }

  function RecvHolds(s: State): nat {
    match s.rpc
    case WaitFull => 0
    case SetStatus => 0
    case Left => 0
    case _ => 1
  }

  function SendInside(s: State): nat {
    if s.spc.ReadByte? || s.spc.Update? || s.spc.PostMutex? then 1 else 0
  }

  function RecvInside(s: State): nat {
    if s.rpc.EofTest? || s.rpc.WriteByte? || s.rpc.Update? || s.rpc.PostMutex? || s.rpc.EndPostMutex? then 1 else 0
  }

  predicate Ending(s: State) {
    s.rpc.EndPostMutex? || s.rpc.EndPostEmpty? || s.rpc.SetStatus?
  }

  // A byte or an end of file is in the sender's hands: read but not announced in `full`.
  predicate InHand(s: State) {
    s.spc.Update? || s.spc.PostMutex? || s.spc.PostFull?
  }

  // Data bytes announced so far.
  function Announced(s: State): int {
    s.rd - if InHand(s) then s.readSz else 0
  }

  function EofAnnounced(s: State): nat {
    if s.status == 0 && (s.spc.LoopTest? || s.spc.Drain?) then 1 else 0
  }

  // Announcements the receiver has taken.
  function Taken(s: State): nat {
    |s.dst| + if s.rpc.WaitMutex? || s.rpc.EofTest? || s.rpc.WriteByte? || Ending(s) then 1 else 0
  }

  // The semaphores: slots, mutual exclusion, announcements.
  ghost predicate Semaphores(s: State) {
    && s.empty + s.full + SendHolds(s) + RecvHolds(s) == s.cap
    && s.mutex + SendInside(s) + RecvInside(s) == 1
    && s.full + Taken(s) == Announced(s) + EofAnnounced(s)
  }

  // The end-of-file protocol, until the receiver touches `status`.
  ghost predicate EofProtocol(s: State) {
    && s.readSz <= 1
    && (InHand(s) ==> s.readSz <= s.rd && (s.readSz == 0 ==> s.rd == |s.src|))
    && s.status <= 1
    && (s.status == 0 ==>
          s.rd == |s.src| && (s.spc.LoopTest? || s.spc.Drain? || (InHand(s) && !s.spc.Update? && s.readSz == 0)))
    && (s.status == 1 ==> !s.spc.Drain? && ((s.spc.PostMutex? || s.spc.PostFull?) ==> s.readSz == 1))
    && !s.spc.Gone?
    && (s.rpc.WriteByte? ==> |s.dst| < Announced(s))
    && (Ending(s) ==> s.status == 0 && AlmostWhole(s))
  }

  // All of the source, or, with room for two, all but its last byte.
  predicate AlmostWhole(s: State) {
    |s.dst| == |s.src| || (s.cap >= 2 && |s.dst| + 1 == |s.src|)
  }

  // The slot of byte k: k mod cap (see SlotIsMod), by repeated subtraction.
  function Slot(k: nat, cap: nat): (slot: nat)
    requires cap > 0
    ensures slot < cap
  {
    if k < cap then k else Slot(k - cap, cap)
  }

  // The ring: positions, and the unread bytes in their slots.
  ghost predicate Ring(s: State) {
    && WellFormed(s)
    && |s.dst| <= s.rd <= |s.src|
    && s.dst == s.src[..|s.dst|]
    && (s.spc.Update? && s.readSz == 1 ==> s.rd >= 1)
    && s.sndPos == Slot(s.rd - if s.spc.Update? && s.readSz == 1 then 1 else 0, s.cap)
    && (s.rpc.Update? ==> |s.dst| >= 1)
    && s.rcvPos == Slot(|s.dst| - if s.rpc.Update? then 1 else 0, s.cap)
    && Unread(s.buf, s.src, |s.dst|, s.rd)
  }

  // Bytes lo..hi of the source lie in the slots given by their numbers.
  ghost predicate Unread(buf: seq<Byte>, src: seq<Byte>, lo: nat, hi: nat)
    requires |buf| > 0 && hi <= |src|
  {
    forall k {:trigger src[k]} :: lo <= k < hi ==> buf[Slot(k, |buf|)] == src[k]
  }

  // Until the receiver is done.
  ghost predicate Live(s: State) {
    !s.rpc.Left? && Semaphores(s) && EofProtocol(s) && Ring(s)
  }

  // After it.
  ghost predicate Closed(s: State) {
    s.rpc.Left? && WellFormed(s) && s.rd == |s.src| && |s.dst| <= |s.src| && s.dst == s.src[..|s.dst|] && AlmostWhole(s)
  }

  ghost predicate Inv(s: State) {
    if s.rpc.Left? then Closed(s) else Live(s)
  }

  lemma MulGap(a: int, b: int, d: nat)
    requires a < b
    ensures a * d + d <= b * d
  {
    assert b * d == a * d + d + (b - a - 1) * d;
  }

  lemma DivModUnique(q: int, r: nat, p: int, m: nat, d: nat)
    requires r < d && m < d && q * d + r == p * d + m
    ensures q == p && r == m
  {
    if q < p {
      MulGap(q, p, d);
    } else if p < q {
      MulGap(p, q, d);
    }
  }

  lemma MulMod(q: nat, r: nat, d: nat)
    requires r < d
    ensures (q * d + r) % d == r
  {
    var x := q * d + r;
    assert x == (x / d) * d + x % d;
    DivModUnique(q, r, x / d, x % d, d);
  }

  lemma {:induction false} SlotDecomposes(k: nat, cap: nat) returns (q: nat)
    requires cap > 0
    ensures k == q * cap + Slot(k, cap)
  {
    if k < cap {
      q := 0;
    } else {
      q := SlotDecomposes(k - cap, cap);
      assert (q + 1) * cap == q * cap + cap;
      q := q + 1;
    }
  }

  lemma SlotIsMod(k: nat, cap: nat)
    requires cap > 0
    ensures Slot(k, cap) == k % cap
  {
    var q := SlotDecomposes(k, cap);
    MulMod(q, Slot(k, cap), cap);
  }

  // Bytes less than cap apart lie in different slots.
  lemma {:induction false} SlotDistinct(a: nat, b: nat, cap: nat)
    requires a < b < a + cap
    ensures Slot(a, cap) != Slot(b, cap)
  {
    if a >= cap {
      SlotDistinct(a - cap, b - cap, cap);
    } else if b >= cap {
      assert Slot(b, cap) == b - cap;
    }
  }

  lemma {:induction false} SlotNext(a: nat, cap: nat)
    requires cap > 0
    ensures Slot(a + 1, cap) == Advance(Slot(a, cap), cap)
  {
    if a < cap {
      SlotIsMod(a + 1, cap);
    } else {
      SlotNext(a - cap, cap);
    }
  }

  lemma UnreadGrows(buf: seq<Byte>, src: seq<Byte>, lo: nat, hi: nat)
    requires |buf| > 0 && lo <= hi < |src| && hi < lo + |buf|
    requires Unread(buf, src, lo, hi)
    ensures Unread(Fill(buf, Slot(hi, |buf|), src[hi]), src, lo, hi + 1)
  {
    forall k | lo <= k < hi
      ensures Slot(k, |buf|) != Slot(hi, |buf|)
    {
      SlotDistinct(k, hi, |buf|);
    }
  }

  lemma SemaphoresKept(s: State, a: Action)
    requires Live(s) && Enabled(s, a)
    ensures !Apply(s, a).rpc.Left? ==> Semaphores(Apply(s, a))
  {
    match a
    case Send => SemaphoresKeptBySend(s);
    case Receive => SemaphoresKeptByReceive(s);
  }

  lemma SemaphoresKeptBySend(s: State)
    requires Live(s) && Enabled(s, Send)
    ensures Semaphores(Apply(s, Send))
  {
  }

  lemma SemaphoresKeptByReceive(s: State)
    requires Live(s) && Enabled(s, Receive)
    ensures !Apply(s, Receive).rpc.Left? ==> Semaphores(Apply(s, Receive))
  {
  }

  lemma EofProtocolKept(s: State, a: Action)
    requires Live(s) && Enabled(s, a)
    ensures !Apply(s, a).rpc.Left? ==> EofProtocol(Apply(s, a))
  {
    match a
    case Send => EofProtocolKeptBySend(s);
    case Receive => EofProtocolKeptByReceive(s);
  }

  lemma EofProtocolKeptBySend(s: State)
    requires Live(s) && Enabled(s, Send)
    ensures EofProtocol(Apply(s, Send))
  {
  }

  lemma EofProtocolKeptByReceive(s: State)
    requires Live(s) && Enabled(s, Receive)
    ensures !Apply(s, Receive).rpc.Left? ==> EofProtocol(Apply(s, Receive))
  {
  }

  // Before the sender reads there is a free slot.
  lemma RoomToRead(s: State)
    requires Live(s) && s.spc.ReadByte?
    ensures s.rd < |s.dst| + s.cap
  {
  }

  lemma RingKeptByRead(s: State)
    requires Live(s) && Enabled(s, Send) && s.spc.ReadByte?
    ensures Ring(Apply(s, Send))
  {
    if s.rd < |s.src| {
      RoomToRead(s);
      UnreadGrows(s.buf, s.src, |s.dst|, s.rd);
    }
  }

  lemma RingKeptByPosition(s: State)
    requires Live(s) && Enabled(s, Send) && s.spc.Update? && s.readSz != 0
    ensures Ring(Apply(s, Send))
  {
    SlotNext(s.rd - 1, s.cap);
  }

  lemma RingKeptByOtherSends(s: State)
    requires Live(s) && Enabled(s, Send) && !s.spc.ReadByte? && !(s.spc.Update? && s.readSz != 0)
    ensures Ring(Apply(s, Send))
  {
  }

  lemma RingKeptBySend(s: State)
    requires Live(s) && Enabled(s, Send)
    ensures Ring(Apply(s, Send))
  {
    if s.spc.ReadByte? {
      RingKeptByRead(s);
    } else if s.spc.Update? && s.readSz != 0 {
      RingKeptByPosition(s);
    } else {
      RingKeptByOtherSends(s);
    }
  }

  lemma RingKeptByWrite(s: State)
    requires Live(s) && Enabled(s, Receive) && s.rpc.WriteByte?
    ensures Ring(Apply(s, Receive))
  {
    assert s.src[|s.dst|] == s.buf[s.rcvPos];
    assert s.src[..|s.dst| + 1] == s.src[..|s.dst|] + [s.src[|s.dst|]];
  }

  lemma RingKeptByAdvance(s: State)
    requires Live(s) && Enabled(s, Receive) && s.rpc.Update?
    ensures Ring(Apply(s, Receive))
  {
    SlotNext(|s.dst| - 1, s.cap);
  }

  lemma RingKeptByOthers(s: State)
    requires Live(s) && Enabled(s, Receive) && !s.rpc.WriteByte? && !s.rpc.Update?
    ensures Ring(Apply(s, Receive))
  {
  }

  lemma RingKeptByReceive(s: State)
    requires Live(s) && Enabled(s, Receive)
    ensures Ring(Apply(s, Receive))
  {
    match s.rpc
    case WriteByte => RingKeptByWrite(s);
    case Update => RingKeptByAdvance(s);
    case _ => RingKeptByOthers(s);
  }

  lemma ClosedKept(s: State, a: Action)
    requires Closed(s) && Enabled(s, a)
    ensures Closed(Apply(s, a)) && Apply(s, a).dst == s.dst
  {
  }

  lemma InvKept(s: State, a: Action)
    requires Inv(s) && Enabled(s, a)
    ensures Inv(Apply(s, a))
  {
    if s.rpc.Left? {
      ClosedKept(s, a);
    } else {
      SemaphoresKept(s, a);
      EofProtocolKept(s, a);
      if a.Send? { RingKeptBySend(s); } else { RingKeptByReceive(s); }
    }
  }

  lemma {:induction false} InvAlong(s: State, actions: seq<Action>, t: State)
    requires Inv(s) && Runs(s, actions, t)
    ensures Inv(t) && t.src == s.src && t.cap == s.cap
    decreases |actions|
  {
    if actions != [] {
      InvKept(s, actions[0]);
      InvAlong(Apply(s, actions[0]), actions[1..], t);
    }
  }

  lemma InitInv(buf: seq<Byte>, src: seq<Byte>)
    requires |buf| > 0
    ensures Live(Init(buf, src))
  {
  }

  // ---- What this means ----

  /** At every reachable state of every interleaving what was written is the beginning of the source,
      the positions are the byte counts modulo the capacity, at most `cap` bytes are unread, and each
      unread byte is in its slot. */
  lemma TransferIsSafe(buf: seq<Byte>, src: seq<Byte>, actions: seq<Action>, s: State)
    requires |buf| > 0 && Runs(Init(buf, src), actions, s)
    ensures s.dst <= src && s.cap == |buf| > 0
    ensures !s.rpc.Left? ==> |s.dst| <= s.rd <= |s.dst| + s.cap
    ensures !s.rpc.Left? && !s.spc.Update? && !s.rpc.Update? ==>
      s.sndPos == s.rd % s.cap && s.rcvPos == |s.dst| % s.cap
    ensures !s.rpc.Left? ==>
      |s.buf| == s.cap > 0 && s.rd <= |src| && forall k :: |s.dst| <= k < s.rd ==> s.buf[k % s.cap] == src[k]
    ensures !s.rpc.Left? ==> s.mutex + SendInside(s) + RecvInside(s) == 1
    ensures !s.rpc.Left? ==> s.empty + s.full + SendHolds(s) + RecvHolds(s) == s.cap
  {
    InitInv(buf, src);
    InvAlong(Init(buf, src), actions, s);
    if !s.rpc.Left? {
      SlotIsMod(s.rd, s.cap);
      SlotIsMod(|s.dst|, s.cap);
      forall k | |s.dst| <= k < s.rd
        ensures s.buf[k % s.cap] == src[k]
      {
        SlotIsMod(k, s.cap);
      }
    }
  }

  /** Until the receiver has left its loop, one of the two can take a step; waiting for `status` to
      change is not a step. */
  lemma NeverBothBlocked(buf: seq<Byte>, src: seq<Byte>, actions: seq<Action>, s: State)
    requires |buf| > 0 && Runs(Init(buf, src), actions, s) && !s.rpc.Left?
    ensures Enabled(s, Send) || Enabled(s, Receive)
  {
    InitInv(buf, src);
    InvAlong(Init(buf, src), actions, s);
  }

  /** Exactly when the sender cannot take a step: at line 87 when every slot holds an unread byte, the one
      the receiver has not given back yet included; at line 88 when the receiver is in its critical section;
      after its loop until `status` is set. */
  lemma SenderBlocksIff(buf: seq<Byte>, src: seq<Byte>, actions: seq<Action>, s: State)
    requires |buf| > 0 && Runs(Init(buf, src), actions, s) && !s.rpc.Left?
    ensures !Enabled(s, Send) <==>
      || (s.spc.WaitEmpty? && s.rd - |s.dst| + GivingBack(s) == s.cap)
      || (s.spc.WaitMutex? && RecvInside(s) == 1)
      || (s.spc.Drain? && s.status == 0)
  {
    InitInv(buf, src);
    InvAlong(Init(buf, src), actions, s);
    assert s.spc.WaitEmpty? ==> s.empty + s.rd == s.cap + Taken(s) - RecvHolds(s);
  }

  // What the three semaphores keep to the end.
  ghost predicate Slots(s: State) {
    && s.empty + s.full + SendHolds(s) + RecvHolds(s) == s.cap
    && s.mutex + SendInside(s) + RecvInside(s) == 1
  }

  lemma SlotsKept(s: State, a: Action)
    requires Slots(s) && Enabled(s, a)
    ensures Slots(Apply(s, a))
  {
    match a
    case Send => SlotsKeptBySend(s);
    case Receive => SlotsKeptByReceive(s);
  }

  lemma SlotsKeptBySend(s: State)
    requires Slots(s) && Enabled(s, Send)
    ensures Slots(Apply(s, Send))
  {
  }

  lemma SlotsKeptByReceive(s: State)
    requires Slots(s) && Enabled(s, Receive)
    ensures Slots(Apply(s, Receive))
  {
  }

  lemma {:induction false} SlotsAlong(s: State, actions: seq<Action>, t: State)
    requires Slots(s) && Runs(s, actions, t)
    ensures Slots(t)
    decreases |actions|
  {
    if actions != [] {
      SlotsKept(s, actions[0]);
      SlotsAlong(Apply(s, actions[0]), actions[1..], t);
    }
  }

  /** When the receiver has left, the sender is blocked exactly where every slot is announced, or where it
      waits for `status`, or at its end. */
  lemma SenderAloneBlocksIff(buf: seq<Byte>, src: seq<Byte>, actions: seq<Action>, s: State)
    requires |buf| > 0 && Runs(Init(buf, src), actions, s) && s.rpc.Left?
    ensures !Enabled(s, Send) <==>
      (s.spc.WaitEmpty? && s.full == s.cap) || (s.spc.Drain? && s.status == 0) || s.spc.Gone?
    ensures !Enabled(s, Receive)
  {
    InitInv(buf, src);
    InvAlong(Init(buf, src), actions, s);
    SlotsAlong(Init(buf, src), actions, s);
  }

  // A slot whose byte is written and which is not counted as empty again.
  function GivingBack(s: State): nat {
    if s.rpc.Update? || s.rpc.PostMutex? || s.rpc.PostEmpty? then 1 else 0
  }

  /** And exactly when the receiver cannot, before it leaves: at line 123 when all that was announced is
      taken; at line 124 when the sender is in its critical section. */
  lemma ReceiverBlocksIff(buf: seq<Byte>, src: seq<Byte>, actions: seq<Action>, s: State)
    requires |buf| > 0 && Runs(Init(buf, src), actions, s) && !s.rpc.Left?
    ensures !Enabled(s, Receive) <==>
      || (s.rpc.WaitFull? && Announced(s) + EofAnnounced(s) == |s.dst|)
      || (s.rpc.WaitMutex? && SendInside(s) == 1)
  {
    InitInv(buf, src);
    InvAlong(Init(buf, src), actions, s);
  }

  function SendRank(s: State): nat {
    match s.spc
    case LoopTest => if s.status == 0 then 1 else 8
    case WaitEmpty => 7
    case WaitMutex => 6
    case ReadByte => 5
    case Update => if s.readSz == 0 then 4 else 11
    case PostMutex => if s.readSz == 0 then 3 else 10
    case PostFull => if s.readSz == 0 then 2 else 9
    case Drain => 0
    case Gone => 0
  }

  function RecvRank(s: State): nat {
    match s.rpc
    case WaitFull => 8
    case WaitMutex => 7
    case EofTest => 6
    case WriteByte => 5
    case Update => 12
    case PostMutex => 11
    case PostEmpty => 10
    case EndPostMutex => 3
    case EndPostEmpty => 2
    case SetStatus => 1
    case Left => 0
  }

  function StepsLeft(s: State): int {
    7 * (|s.src| - s.rd) + SendRank(s) + 8 * (|s.src| - |s.dst|) + RecvRank(s)
  }

  lemma StepsLeftDecreases(s: State, a: Action)
    requires Live(s) && Enabled(s, a)
    ensures !Apply(s, a).rpc.Left? ==> StepsLeft(Apply(s, a)) < StepsLeft(s)
  {
    match a
    case Send => SendDecreases(s);
    case Receive => ReceiveDecreases(s);
  }

  lemma SendDecreases(s: State)
    requires Live(s) && Enabled(s, Send)
    ensures StepsLeft(Apply(s, Send)) < StepsLeft(s)
  {
  }

  lemma ReceiveDecreases(s: State)
    requires Live(s) && Enabled(s, Receive)
    ensures !Apply(s, Receive).rpc.Left? ==> StepsLeft(Apply(s, Receive)) < StepsLeft(s)
  {
  }

  lemma {:induction false} LiveRunIsBounded(s: State, actions: seq<Action>, t: State)
    requires Live(s) && Runs(s, actions, t) && !t.rpc.Left?
    ensures Live(t) && |actions| + StepsLeft(t) <= StepsLeft(s)
    decreases |actions|
  {
    if actions != [] {
      InvKept(s, actions[0]);
      if Apply(s, actions[0]).rpc.Left? {
        LeftForGood(Apply(s, actions[0]), actions[1..], t);
      } else {
        StepsLeftDecreases(s, actions[0]);
        LiveRunIsBounded(Apply(s, actions[0]), actions[1..], t);
      }
    }
  }

  lemma {:induction false} LeftForGood(s: State, actions: seq<Action>, t: State)
    requires s.rpc.Left? && Runs(s, actions, t)
    ensures t.rpc.Left? && t.dst == s.dst
    decreases |actions|
  {
    if actions != [] {
      assert actions[0].Send?;
      LeftForGood(Apply(s, actions[0]), actions[1..], t);
    }
  }

  /** So the receiver leaves its loop in every run that goes on: a run in which it has not left yet
      has at most 15 * |src| + 16 steps, and can be continued. */
  lemma ReceiverLeaves(buf: seq<Byte>, src: seq<Byte>, actions: seq<Action>, s: State)
    requires |buf| > 0 && Runs(Init(buf, src), actions, s) && !s.rpc.Left?
    ensures |actions| <= 15 * |src| + 16
    ensures exists a :: Enabled(s, a)
  {
    InitInv(buf, src);
    LiveRunIsBounded(Init(buf, src), actions, s);
    NeverBothBlocked(buf, src, actions, s);
  }

  /** The end-of-file test, exactly: when the receiver is about to leave its loop, it has written the
      whole source if the sender has announced the end of file in `full`; otherwise it is exactly the
      last byte short, and the sender is between its two posts of the end-of-file round. */
  lemma EndOfFile(buf: seq<Byte>, src: seq<Byte>, actions: seq<Action>, s: State)
    requires |buf| > 0 && Runs(Init(buf, src), actions, s) && s.rpc.EofTest? && SeesEof(s)
    ensures s.status == 0 && s.rd == |src|
    ensures s.spc.LoopTest? || s.spc.Drain? || (s.spc.PostFull? && s.readSz == 0)
    ensures s.spc.PostFull? <==> |s.dst| + 1 == |src| && s.dst == src[..|src| - 1]
    ensures !s.spc.PostFull? <==> s.dst == src
  {
    InitInv(buf, src);
    InvAlong(Init(buf, src), actions, s);
  }

  /** And when it goes on, there is an announced byte to write. */
  lemma NoByteInvented(buf: seq<Byte>, src: seq<Byte>, actions: seq<Action>, s: State)
    requires |buf| > 0 && Runs(Init(buf, src), actions, s) && s.rpc.WriteByte?
    ensures |s.dst| < Announced(s) <= |src| && s.rcvPos < |s.buf| && s.buf[s.rcvPos] == src[|s.dst|]
  {
    InitInv(buf, src);
    InvAlong(Init(buf, src), actions, s);
    assert s.src[|s.dst|] == src[|s.dst|];
  }

  // ---- The memory block during a run ----

  /** The bytes sent and not yet received. */
  function InFlight(s: State): seq<Byte> {
    if |s.dst| <= s.rd <= |s.src| then s.src[|s.dst|..s.rd] else []
  }

  ghost predicate MemoryHolds(s: State, unread: seq<Byte>) {
    Holds(s.buf, s.sndPos, s.rcvPos, unread)
  }

  // Bytes in their slots are bytes in the ring.
  lemma {:induction false} UnreadHolds(buf: seq<Byte>, src: seq<Byte>, lo: nat, hi: nat)
    requires |buf| > 0 && lo <= hi <= |src| && hi <= lo + |buf| && Unread(buf, src, lo, hi)
    ensures Holds(buf, Slot(hi, |buf|), Slot(lo, |buf|), src[lo..hi])
    decreases hi
  {
    if lo < hi {
      var last := Slot(hi - 1, |buf|);
      UnreadHolds(buf, src, lo, hi - 1);
      assert buf[last] == src[hi - 1];
      assert buf[last := src[hi - 1]] == buf;
      assert src[lo..hi] == src[lo..hi - 1] + [src[hi - 1]];
      HoldsOneMore(buf, last, Slot(lo, |buf|), src[lo..hi - 1], src[hi - 1]);
      SlotNext(hi - 1, |buf|);
    }
  }

  lemma RingHolds(s: State)
    requires Ring(s) && s.rd <= |s.dst| + s.cap
    requires !(s.spc.Update? && s.readSz == 1) && !s.rpc.Update?
    ensures MemoryHolds(s, InFlight(s))
  {
    UnreadHolds(s.buf, s.src, |s.dst|, s.rd);
  }

  lemma LiveHolds(s: State)
    requires Live(s) && !s.spc.Update? && !s.rpc.Update?
    ensures |s.dst| <= s.rd <= |s.src| && MemoryHolds(s, InFlight(s))
  {
    assert s.rd <= |s.dst| + s.cap;
    RingHolds(s);
  }

  // The two steps of a critical section, back to back.
  function SendBodySteps(s: State): State
    requires WellFormed(s) && s.spc.ReadByte?
  {
    var u := Apply(s, Send);
    assert WellFormed(u);
    Apply(u, Send)
  }

  function ReceiveBodySteps(s: State): State
    requires WellFormed(s) && s.rpc.WriteByte?
  {
    Apply(Apply(s, Receive), Receive)
  }

  lemma SendBodyAfter(s: State)
    requires WellFormed(s) && s.spc.ReadByte?
    ensures var t := SendBodySteps(s);
      && t.readSz == (if s.rd < |s.src| then 1 else 0) && t.rd == s.rd + t.readSz
      && t.src == s.src && t.dst == s.dst && t.rpc == s.rpc && t.spc.PostMutex?
      && t.status == if t.readSz == 0 then 0 else s.status
  {
  }

  lemma ReceiveBodyAfter(s: State)
    requires WellFormed(s) && s.rpc.WriteByte?
    ensures var t := ReceiveBodySteps(s);
      && t.dst == s.dst + [s.buf[s.rcvPos]] && t.rd == s.rd && t.src == s.src
      && t.spc == s.spc && t.rpc.PostMutex? && t.status == s.status
  {
  }

  lemma SendBodyKeeps(s: State)
    requires Live(s) && s.spc.ReadByte?
    ensures Live(SendBodySteps(s))
  {
    InvKept(s, Send);
    InvKept(Apply(s, Send), Send);
  }

  lemma ReceiveBodyKeeps(s: State)
    requires Live(s) && s.rpc.WriteByte?
    ensures Live(ReceiveBodySteps(s))
  {
    InvKept(s, Receive);
    InvKept(Apply(s, Receive), Receive);
  }

  lemma ReachedLive(buf: seq<Byte>, src: seq<Byte>, actions: seq<Action>, s: State)
    requires |buf| > 0 && Runs(Init(buf, src), actions, s) && !s.rpc.Left?
    ensures Live(s) && s.src == src
  {
    InitInv(buf, src);
    InvAlong(Init(buf, src), actions, s);
  }

  lemma BytesAdded(s: State, t: State)
    requires |s.dst| <= s.rd <= t.rd <= |s.src| && t.src == s.src && t.dst == s.dst
    ensures InFlight(t) == InFlight(s) + s.src[s.rd..t.rd]
  {
  }

  lemma SendBodyInRun(s: State)
    requires Live(s) && s.spc.ReadByte?
    ensures WellFormed(s) && MemoryHolds(s, InFlight(s)) && (s.rd < |s.src| ==> |InFlight(s)| < |s.buf|)
    ensures var t := SendBodySteps(s);
      && t.readSz == (if s.rd < |s.src| then 1 else 0) && t.rd == s.rd + t.readSz <= |s.src|
      && InFlight(t) == InFlight(s) + s.src[s.rd..t.rd] && MemoryHolds(t, InFlight(t))
      && t.status == if t.readSz == 0 then 0 else s.status
  {
    var t := SendBodySteps(s);
    SendBodyAfter(s);
    SendBodyKeeps(s);
    BytesAdded(s, t);
    LiveHolds(s);
    LiveHolds(t);
    RoomToRead(s);
  }

  // What a step of the other process outside its own critical section leaves as it is.
  predicate SameMemory(s: State, t: State) {
    && t.cap == s.cap && t.src == s.src && t.rd == s.rd && t.readSz == s.readSz && t.dst == s.dst
    && t.buf == s.buf && t.sndPos == s.sndPos && t.rcvPos == s.rcvPos && t.status == s.status
  }

  predicate Only(actions: seq<Action>, a: Action) {
    forall i :: 0 <= i < |actions| ==> actions[i] == a
  }

  lemma ReceiverOutside(s: State)
    requires Live(s) && s.spc.Update? && Enabled(s, Receive)
    ensures var t := Apply(s, Receive); Live(t) && SameMemory(s, t) && t.spc == s.spc
  {
    InvKept(s, Receive);
  }

  lemma {:induction false} ReceiverMeanwhile(s: State, actions: seq<Action>, t: State)
    requires Live(s) && s.spc.Update? && Runs(s, actions, t) && Only(actions, Receive)
    ensures Live(t) && SameMemory(s, t) && t.spc == s.spc
    decreases |actions|
  {
    if actions != [] {
      assert actions[0] == Receive;
      ReceiverOutside(s);
      ReceiverMeanwhile(Apply(s, Receive), actions[1..], t);
    }
  }

  lemma SenderOutside(s: State)
    requires Live(s) && s.rpc.Update? && Enabled(s, Send)
    ensures var t := Apply(s, Send); Live(t) && SameMemory(s, t) && t.rpc == s.rpc
  {
    InvKept(s, Send);
  }

  lemma {:induction false} SenderMeanwhile(s: State, actions: seq<Action>, t: State)
    requires Live(s) && s.rpc.Update? && Runs(s, actions, t) && Only(actions, Send)
    ensures Live(t) && SameMemory(s, t) && t.rpc == s.rpc
    decreases |actions|
  {
    if actions != [] {
      assert actions[0] == Send;
      SenderOutside(s);
      SenderMeanwhile(Apply(s, Send), actions[1..], t);
    }
  }

  lemma UpdateAlike(s: State, t: State)
    requires WellFormed(s) && SameMemory(s, t)
    ensures s.spc.Update? && t.spc == s.spc ==> SameMemory(Apply(s, Send), Apply(t, Send))
    ensures s.rpc.Update? && t.rpc == s.rpc ==> SameMemory(Apply(s, Receive), Apply(t, Receive))
  {
  }

  /** In a run the sender's critical section is entered with room for a byte, and its two steps, whatever
      the receiver does in between, do to the memory what SharedMemory.SendBody promises. */
  lemma SendBodyInRuns(buf: seq<Byte>, src: seq<Byte>, before: seq<Action>, s: State, meanwhile: seq<Action>, u: State)
    requires |buf| > 0 && Runs(Init(buf, src), before, s) && !s.rpc.Left? && s.spc.ReadByte? && Enabled(s, Send)
    requires Runs(Apply(s, Send), meanwhile, u) && Only(meanwhile, Receive)
    ensures MemoryHolds(s, InFlight(s)) && (s.rd < |src| ==> |InFlight(s)| < |s.buf|)
    ensures Enabled(u, Send)
    ensures var t := Apply(u, Send);
      && t.readSz == (if s.rd < |src| then 1 else 0) && t.rd == s.rd + t.readSz <= |src|
      && InFlight(t) == InFlight(s) + src[s.rd..t.rd] && MemoryHolds(t, InFlight(t))
      && t.dst == s.dst && t.status == if t.readSz == 0 then 0 else s.status
  {
    ReachedLive(buf, src, before, s);
    SendBodyInRun(s);
    SendBodyAfter(s);
    InvKept(s, Send);
    ReceiverMeanwhile(Apply(s, Send), meanwhile, u);
    UpdateAlike(Apply(s, Send), u);
  }

  lemma ByteTaken(s: State, t: State)
    requires |s.dst| < s.rd <= |s.src| && MemoryHolds(s, InFlight(s))
    requires t.src == s.src && t.rd == s.rd && t.dst == s.dst + [s.buf[s.rcvPos]]
    ensures InFlight(s) != [] && t.dst == s.dst + [InFlight(s)[0]]
    ensures [InFlight(s)[0]] + InFlight(t) == InFlight(s)
  {
    HoldsOneLess(s.buf, s.sndPos, s.rcvPos, InFlight(s));
  }

  lemma ReceiveBodyInRun(s: State)
    requires Live(s) && s.rpc.WriteByte?
    ensures WellFormed(s) && MemoryHolds(s, InFlight(s)) && InFlight(s) != []
    ensures var t := ReceiveBodySteps(s);
      && [InFlight(s)[0]] + InFlight(t) == InFlight(s) && MemoryHolds(t, InFlight(t))
      && t.dst == s.dst + [InFlight(s)[0]] && t.status == s.status
  {
    var t := ReceiveBodySteps(s);
    ReceiveBodyAfter(s);
    LiveHolds(s);
    ByteTaken(s, t);
    ReceiveBodyKeeps(s);
    LiveHolds(t);
  }

  /** The receiver's is entered with a byte to take, and its two steps, whatever the sender does in between,
      do what SharedMemory.ReceiveBody promises; the byte taken is the byte written. */
  lemma ReceiveBodyInRuns(buf: seq<Byte>, src: seq<Byte>, before: seq<Action>, s: State,
                          meanwhile: seq<Action>, u: State)
    requires |buf| > 0 && Runs(Init(buf, src), before, s) && s.rpc.WriteByte? && Enabled(s, Receive)
    requires Runs(Apply(s, Receive), meanwhile, u) && Only(meanwhile, Send)
    ensures MemoryHolds(s, InFlight(s)) && InFlight(s) != []
    ensures Enabled(u, Receive)
    ensures var t := Apply(u, Receive);
      && [InFlight(s)[0]] + InFlight(t) == InFlight(s) && MemoryHolds(t, InFlight(t))
      && t.dst == s.dst + [InFlight(s)[0]] && t.status == s.status
  {
    ReachedLive(buf, src, before, s);
    ReceiveBodyInRun(s);
    ReceiveBodyAlike(s, meanwhile, u);
  }

  lemma ReceiveBodyAlike(s: State, meanwhile: seq<Action>, u: State)
    requires Live(s) && s.rpc.WriteByte? && Runs(Apply(s, Receive), meanwhile, u) && Only(meanwhile, Send)
    ensures Enabled(u, Receive) && SameMemory(ReceiveBodySteps(s), Apply(u, Receive))
  {
    InvKept(s, Receive);
    SenderMeanwhile(Apply(s, Receive), meanwhile, u);
    UpdateAlike(Apply(s, Receive), u);
  }
}
