/** Safety, progress and completeness of the transfer by signals, for every file and every interleaving. */
module SignalTransferProofs {
  import opened Bytes
  import opened SignalTransfer

  predicate BitPending(s: State) {
    s.pending.usr1 || s.pending.usr2
  }

  // The only bit signal that is pending says `one`.
  predicate OnlyBit(s: State, one: bool) {
    (s.pending.usr1 <==> one) && (s.pending.usr2 <==> !one)
  }

  /** The parent has all bits of the first b bytes, and of byte b those above weight i. A byte whose last
      bit came is written when the parent next tests `counter`. */
  predicate ParentAt(s: State, b: int, i: nat) {
    && 0 <= b <= |s.src|
    && if i == 128 then
         || (s.counter == 128 && s.outChar == 0 && s.dst == s.src[..b])
         || (b >= 1 && (s.ppc.Ack? || s.ppc.Test?) && s.counter == 0 && s.outChar == s.src[b - 1]
             && s.dst == s.src[..b - 1])
       else
         b < |s.src| && s.counter == i && s.outChar == TopBits(s.src[b], i) && s.dst == s.src[..b]
  }

  // Past the bit of weight i of byte b.
  predicate ParentPast(s: State, b: int, i: nat) {
    if i == 1 then ParentAt(s, b + 1, 128) else ParentAt(s, b, i / 2)
  }

  predicate ByteInHand(s: State) {
    1 <= s.rd <= |s.src| && s.c == s.src[s.rd - 1] && MaskOk(s.mask) && s.mask > 0
  }

  // Where the two are while the child lives.
  predicate InStep(s: State) {
    match s.cpc
    case Read => !BitPending(s) && !s.ackPending && !s.ppc.Ack? && ParentAt(s, s.rd, 128)
    case Kill =>
      ByteInHand(s) && !BitPending(s) && !s.ackPending && !s.ppc.Ack? && ParentAt(s, s.rd - 1, s.mask)
    case Suspend =>
      && ByteInHand(s)
      && if BitPending(s) then
           !s.ackPending && !s.ppc.Ack? && OnlyBit(s, BitSet(s.mask, s.c)) && ParentAt(s, s.rd - 1, s.mask)
         else
           (s.ackPending <==> !s.ppc.Ack?) && ParentPast(s, s.rd - 1, s.mask)
    case Dead => true
  }

  // After the child's end: when it ended by itself the parent has everything; after an alarm the parent
  // has at most one more bit to come, and what it would write next is right.
  predicate AtTheEnd(s: State) {
    s.cpc.Dead? ==>
      && (s.pending.chld || s.ppc.Done?)
      && (if !s.alarmed then
            s.rd == |s.src| && !BitPending(s) && !s.ppc.Ack? && ParentAt(s, s.rd, 128)
          else if BitPending(s) then
            ByteInHand(s) && !s.ppc.Ack? && OnlyBit(s, BitSet(s.mask, s.c)) && ParentAt(s, s.rd - 1, s.mask)
          else
            RightSoFar(s))
  }

  predicate RightSoFar(s: State) {
    && s.dst <= s.src
    && ((s.ppc.Ack? || s.ppc.Test?) && s.counter == 0 ==>
          |s.dst| < |s.src| && s.outChar == s.src[|s.dst|])
  }

  predicate Inv(s: State) {
    && s.rd <= |s.src|
    && !s.coalesced
    && (s.ppc.Suspended? ==> s.counter != 0)
    && (!s.cpc.Dead? ==> !s.pending.chld && !s.ppc.Done? && !s.alarmed)
    && (s.rd == 0 <==> !s.armed)
    && InStep(s)
    && AtTheEnd(s)
  }

  lemma InvIsRight(s: State)
    requires Inv(s)
    ensures RightSoFar(s)
  {
  }

  lemma ChildKeeps(s: State)
    requires Inv(s) && Enabled(s, Child)
    ensures Inv(Apply(s, Child))
  {
    if s.cpc.Suspend? {
      TopBitsNext(s.c, s.mask);
    }
  }

  lemma AlarmKeeps(s: State)
    requires Inv(s) && Enabled(s, Alarm)
    ensures Inv(Apply(s, Alarm))
  {
    InvIsRight(s);
  }

  lemma ChldDeliveryKeeps(s: State)
    requires Inv(s) && Enabled(s, Parent(Chld)) && s.ppc.Suspended?
    ensures Inv(Apply(s, Parent(Chld)))
  {
  }

  // A handler takes the parent past the bit it was sent.
  lemma HandlerAdvances(s: State, t: State, b: int, i: nat, one: bool)
    requires ParentAt(s, b, i) && MaskOk(i) && i > 0 && b < |s.src| && s.counter != 0
    requires one == BitSet(i, s.src[b])
    requires t.src == s.src && t.dst == s.dst && t.ppc.Ack?
    requires t.counter == s.counter / 2 && t.outChar == s.outChar + if one then s.counter else 0
    ensures ParentPast(t, b, i)
  {
    TopBitsNext(s.src[b], i);
    AllBits(s.src[b]);
  }

  lemma BitDeliveryKeeps(s: State, sig: Signal)
    requires Inv(s) && Enabled(s, Parent(sig)) && s.ppc.Suspended? && sig != Chld
    ensures Inv(Apply(s, Parent(sig)))
  {
    HandlerAdvances(s, Apply(s, Parent(sig)), s.rd - 1, s.mask, sig.Usr1?);
  }

  lemma AckKeeps(s: State, sig: Signal)
    requires Inv(s) && Enabled(s, Parent(sig)) && s.ppc.Ack?
    ensures Inv(Apply(s, Parent(sig)))
  {
  }

  // The parent writes the byte it has: one more byte of the source is in the destination.
  lemma WriteKeeps(s: State, sig: Signal)
    requires Inv(s) && Enabled(s, Parent(sig)) && s.ppc.Test? && s.counter == 0
    ensures Inv(Apply(s, Parent(sig)))
  {
    InvIsRight(s);
    var n := |s.dst|;
    assert s.src[..n + 1] == s.src[..n] + [s.src[n]];
    assert Apply(s, Parent(sig)).dst == s.src[..n + 1];
  }

  lemma NoWriteKeeps(s: State, sig: Signal)
    requires Inv(s) && Enabled(s, Parent(sig)) && s.ppc.Test? && s.counter != 0
    ensures Inv(Apply(s, Parent(sig)))
  {
  }

  lemma TestKeeps(s: State, sig: Signal)
    requires Inv(s) && Enabled(s, Parent(sig)) && s.ppc.Test?
    ensures Inv(Apply(s, Parent(sig)))
  {
    if s.counter == 0 {
      WriteKeeps(s, sig);
    } else {
      NoWriteKeeps(s, sig);
    }
  }

  lemma InvKept(s: State, a: Action)
    requires Inv(s) && Enabled(s, a)
    ensures Inv(Apply(s, a))
  {
    match a
    case Child => ChildKeeps(s);
    case Alarm => AlarmKeeps(s);
    case Parent(sig) =>
      match s.ppc
      case Suspended => if sig == Chld { ChldDeliveryKeeps(s); } else { BitDeliveryKeeps(s, sig); }
      case Ack => AckKeeps(s, sig);
      case Test => TestKeeps(s, sig);
  }

  lemma {:induction false} InvAlong(s: State, actions: seq<Action>, t: State)
    requires Inv(s) && Runs(s, actions, t)
    ensures Inv(t)
    decreases |actions|
  {
    if actions != [] {
      InvKept(s, actions[0]);
      InvAlong(Apply(s, actions[0]), actions[1..], t);
    }
  }

  lemma {:induction false} SourceKept(s: State, actions: seq<Action>, t: State)
    requires Runs(s, actions, t)
    ensures t.src == s.src
    decreases |actions|
  {
    if actions != [] {
      SourceKept(Apply(s, actions[0]), actions[1..], t);
    }
  }

  lemma Reached(src: seq<Byte>, actions: seq<Action>, s: State)
    requires Runs(Init(src), actions, s)
    ensures Inv(s) && s.src == src
  {
    InvAlong(Init(src), actions, s);
    SourceKept(Init(src), actions, s);
  }

  // ---- What this means ----

  /** When the child is about to send the bit of weight `mask`, the parent has all the higher ones: its
      counter is that weight and out_char the value of those bits. Before a first bit it may still have
      to write the byte before. */
  lemma CounterIsMask(src: seq<Byte>, actions: seq<Action>, s: State)
    requires Runs(Init(src), actions, s) && s.cpc.Kill?
    ensures 1 <= s.rd <= |src| && s.c == src[s.rd - 1] && MaskOk(s.mask) && s.mask > 0
    ensures s.mask < 128 || s.counter != 0 ==>
      s.counter == s.mask && s.outChar == TopBits(s.c, s.mask) && s.dst == src[..s.rd - 1]
    ensures s.counter == 0 ==>
      s.mask == 128 && s.ppc.Test? && s.rd >= 2 && s.outChar == src[s.rd - 2] && s.dst == src[..s.rd - 2]
  {
    Reached(src, actions, s);
  }

  /** A pending bit signal is that of the bit of weight `mask` of the byte in transfer, SIGUSR1 for a one and
      SIGUSR2 for a zero, also when the alarm has ended the child. */
  lemma PendingSignalIsTheBit(src: seq<Byte>, actions: seq<Action>, s: State)
    requires Runs(Init(src), actions, s) && BitPending(s)
    ensures 1 <= s.rd <= |src| && MaskOk(s.mask) && s.mask > 0
    ensures s.pending.usr1 <==> src[s.rd - 1] / s.mask % 2 == 1
    ensures s.pending.usr2 <==> src[s.rd - 1] / s.mask % 2 == 0
  {
    Reached(src, actions, s);
    BitIs(s.mask, s.c);
  }

  /** In every interleaving, an alarm included, the destination is the beginning of the source. */
  lemma DestinationIsPrefix(src: seq<Byte>, actions: seq<Action>, s: State)
    requires Runs(Init(src), actions, s)
    ensures s.dst <= src
  {
    Reached(src, actions, s);
    InvIsRight(s);
  }

  /** When childexit ends the parent and no alarm went off, the destination is the whole source. */
  lemma WholeFileArrives(src: seq<Byte>, actions: seq<Action>, s: State)
    requires Runs(Init(src), actions, s) && s.ppc.Done? && !s.alarmed
    ensures s.dst == src
  {
    Reached(src, actions, s);
  }

  /** No signal is raised while one of its kind is pending at its target: none is ever lost. And while
      the child lives at most one signal is on its way between the two. */
  lemma SignalsDoNotCoalesce(src: seq<Byte>, actions: seq<Action>, s: State)
    requires Runs(Init(src), actions, s)
    ensures !s.coalesced
    ensures !(s.pending.usr1 && s.pending.usr2)
    ensures !s.cpc.Dead? ==>
      !(BitPending(s) && s.ackPending) && !(BitPending(s) && s.ppc.Ack?) && !(s.ackPending && s.ppc.Ack?)
  {
    Reached(src, actions, s);
  }

  /** Until the parent has ended some step is possible. */
  lemma NeverStalls(src: seq<Byte>, actions: seq<Action>, s: State)
    requires Runs(Init(src), actions, s) && !s.ppc.Done?
    ensures Enabled(s, Child) || exists sig :: Enabled(s, Parent(sig))
  {
    Reached(src, actions, s);
    assert s.ppc.Suspended? ==>
      Enabled(s, Child) || Enabled(s, Parent(Usr1)) || Enabled(s, Parent(Usr2)) || Enabled(s, Parent(Chld));
    assert !s.ppc.Suspended? ==> Enabled(s, Parent(Chld));
  }

  /** How many bits have the weights i, i/2, ... 1. */
  function BitsFrom(i: nat): nat {
    if i == 0 then 0 else 1 + BitsFrom(i / 2)
  }

  function ChildLeft(pc: ChildPc, unread: int, mask: nat): int {
    match pc
    case Read => 81 * unread + 2
    case Kill => 81 * unread + 10 * BitsFrom(mask) + 2
    case Suspend => 81 * unread + 10 * BitsFrom(mask / 2) + 2
    case Dead => 0
  }

  function ParentLeft(pc: ParentPc): int {
    match pc
    case Test => 1
    case Ack => 3
    case _ => 0
  }

  function Weight(pending: bool, worth: int): int {
    if pending then worth else 0
  }

  /** A bound on the steps that are left; a pending bit is worth four of them. */
  function StepsLeft(s: State): int {
    ChildLeft(s.cpc, |s.src| - s.rd, s.mask) + ParentLeft(s.ppc)
    + Weight(BitPending(s), 4) + Weight(s.pending.chld, 1) + Weight(s.ackPending, 1)
  }

  lemma BitsFrom128()
    ensures BitsFrom(128) == 8
  {
    assert BitsFrom(1) == 1 && BitsFrom(2) == 2;
    assert BitsFrom(4) == 3 && BitsFrom(8) == 4;
    assert BitsFrom(16) == 5 && BitsFrom(32) == 6;
    assert BitsFrom(64) == 7;
  }

  lemma ReadDecreases(s: State)
    requires s.rd < |s.src| && Enabled(s, Child) && s.cpc.Read?
    ensures StepsLeft(Apply(s, Child)) < StepsLeft(s)
  {
    BitsFrom128();
  }

  lemma EndDecreases(s: State)
    requires s.rd == |s.src| && Enabled(s, Child) && s.cpc.Read?
    ensures StepsLeft(Apply(s, Child)) < StepsLeft(s)
  {
  }

  lemma KillDecreases(s: State)
    requires !BitPending(s) && Enabled(s, Child) && s.cpc.Kill?
    ensures StepsLeft(Apply(s, Child)) < StepsLeft(s)
  {
    assert BitsFrom(s.mask) == 1 + BitsFrom(s.mask / 2);
  }

  lemma WakeDecreases(s: State)
    requires Enabled(s, Child) && s.cpc.Suspend?
    ensures StepsLeft(Apply(s, Child)) < StepsLeft(s)
  {
  }

  // The bit that is delivered was worth four steps, and three are left of the handler and the test.
  lemma BitDeliveryDecreases(s: State, sig: Signal)
    requires !(s.pending.usr1 && s.pending.usr2) && Enabled(s, Parent(sig)) && s.ppc.Suspended? && sig != Chld
    ensures StepsLeft(Apply(s, Parent(sig))) < StepsLeft(s)
  {
    var t := Apply(s, Parent(sig));
    assert t.cpc == s.cpc && t.src == s.src && t.rd == s.rd && t.mask == s.mask && t.ackPending == s.ackPending;
    assert BitPending(s) && !BitPending(t) && t.pending.chld == s.pending.chld && t.ppc.Ack?;
  }

  lemma ChldDeliveryDecreases(s: State)
    requires Enabled(s, Parent(Chld)) && s.ppc.Suspended?
    ensures StepsLeft(Apply(s, Parent(Chld))) < StepsLeft(s)
  {
    var t := Apply(s, Parent(Chld));
    assert t.cpc == s.cpc && t.src == s.src && t.rd == s.rd && t.mask == s.mask && t.ackPending == s.ackPending;
  }

  lemma AckDecreases(s: State, sig: Signal)
    requires Enabled(s, Parent(sig)) && s.ppc.Ack?
    ensures StepsLeft(Apply(s, Parent(sig))) < StepsLeft(s)
  {
  }

  lemma TestDecreases(s: State, sig: Signal)
    requires Enabled(s, Parent(sig)) && s.ppc.Test?
    ensures StepsLeft(Apply(s, Parent(sig))) < StepsLeft(s)
  {
    var t := Apply(s, Parent(sig));
    assert t.cpc == s.cpc && t.src == s.src && t.rd == s.rd && t.mask == s.mask;
    assert t.pending == s.pending && t.ackPending == s.ackPending && t.ppc.Suspended?;
  }

  lemma StepsLeftDecreases(s: State, a: Action)
    requires Inv(s) && Enabled(s, a)
    ensures StepsLeft(Apply(s, a)) < StepsLeft(s)
  {
    match a
    case Child =>
      match s.cpc {
        case Read => if s.rd < |s.src| { ReadDecreases(s); } else { EndDecreases(s); }
        case Kill => KillDecreases(s);
        case Suspend => WakeDecreases(s);
      }
    case Alarm =>
    case Parent(sig) =>
      match s.ppc
      case Suspended => if sig == Chld { ChldDeliveryDecreases(s); } else { BitDeliveryDecreases(s, sig); }
      case Ack => AckDecreases(s, sig);
      case Test => TestDecreases(s, sig);
  }

  lemma {:induction false} RunIsBounded(s: State, actions: seq<Action>, t: State)
    requires Inv(s) && Runs(s, actions, t)
    ensures |actions| + StepsLeft(t) <= StepsLeft(s)
    decreases |actions|
  {
    if actions != [] {
      StepsLeftDecreases(s, actions[0]);
      InvKept(s, actions[0]);
      RunIsBounded(Apply(s, actions[0]), actions[1..], t);
    }
  }

  /** So every transfer ends: a run has at most 81 steps for each byte of the file, and 3. */
  lemma TransferEnds(src: seq<Byte>, actions: seq<Action>, s: State)
    requires Runs(Init(src), actions, s)
    ensures |actions| <= 81 * |src| + 3
  {
    RunIsBounded(Init(src), actions, s);
    Reached(src, actions, s);
    assert StepsLeft(s) >= 0;
  }

  // The alarm may go off before the first bit is sent.
  lemma AlarmCutsShort(src: seq<Byte>) returns (actions: seq<Action>, s: State)
    requires src != []
    ensures Runs(Init(src), actions, s) && s.ppc.Done? && s.dst == []
  {
    var s1 := Apply(Init(src), Child);
    var s2 := Apply(s1, Alarm);
    var s3 := Apply(s2, Parent(Chld));
    s := Apply(s3, Parent(Chld));
    var a1 := [Parent(Chld)];
    var a2 := [Parent(Chld)] + a1;
    var a3 := [Alarm] + a2;
    actions := [Child] + a3;
    assert Runs(s3, a1, s);
    assert a2[1..] == a1 && Runs(s2, a2, s);
    assert a3[1..] == a2 && Runs(s1, a3, s);
    assert actions[1..] == a3;
  }

  ghost predicate CertainToArrive(src: seq<Byte>) {
    forall actions, s :: Runs(Init(src), actions, s) && s.ppc.Done? ==> s.dst == src
  }

  /** With the alarm, the whole file is certain to arrive exactly when there is nothing to send. */
  lemma CertainDespiteAlarmIff(src: seq<Byte>)
    ensures CertainToArrive(src) <==> src == []
  {
    if src == [] {
      forall actions, s | Runs(Init(src), actions, s) && s.ppc.Done?
        ensures s.dst == src
      {
        DestinationIsPrefix(src, actions, s);
      }
    } else {
      var actions, s := AlarmCutsShort(src);
      assert s.dst != src;
    }
  }
}
