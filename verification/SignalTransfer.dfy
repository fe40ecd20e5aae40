/** The transfer by signals: the child sends the bits of a file as SIGUSR1 (one) and SIGUSR2 (zero), the
    parent answers each with SIGUSR1. Signals are not queued and are blocked except in sigsuspend. */
module SignalTransfer {
  import opened Bytes

  datatype Signal = Usr1 | Usr2 | Chld

  /** The set of signals pending at a process. */
  datatype Pending = Pending(usr1: bool, usr2: bool, chld: bool) {
    predicate Has(sig: Signal) {
      match sig
      case Usr1 => usr1
      case Usr2 => usr2
      case Chld => chld
    }

    function Set(sig: Signal, on: bool): Pending {
      match sig
      case Usr1 => this.(usr1 := on)
      case Usr2 => this.(usr2 := on)
      case Chld => this.(chld := on)
    }
  }

  /** Where the child is (st_main.c, line numbers on the right). */
  datatype ChildPc =
    | Read             // 100
    | Kill             // 105  about to send the bit of `mask`
    | Suspend          // 111
    | Dead

  /** Where the parent is. A handler runs with all signals blocked, and each sigsuspend lets one run. */
  datatype ParentPc =
    | Test             // 122
    | Suspended        // 129
    | Ack              // 24, 30  at the kill that ends a handler
    | Done

  datatype State = State(
    src: seq<Byte>,
    // the child
    cpc: ChildPc,
    rd: nat,              // bytes read from the source
    c: Byte,
    mask: nat,            // 128 down to 1; the loop variable i
    armed: bool,          // alarm(1) has been called
    ackPending: bool,     // SIGUSR1 is pending at the child
    // the parent
    ppc: ParentPc,
    counter: nat,
    outChar: int,
    pending: Pending,     // at the parent
    dst: seq<Byte>,
    // history: a signal was raised while it, or another of its kind, was pending at its target
    coalesced: bool,
    alarmed: bool)

  datatype Action =
    | Child
    | Alarm
    | Parent(sig: Signal)  // the signal sigsuspend delivers, where the parent is suspended

  function Init(src: seq<Byte>): State {
    State(src, Read, 0, 0, 0, false, false, Test, 128, 0, Pending(false, false, false), [], false, false)
  }

  /** i & c, for i a power of two: both are shifted right until i is 1. */
  predicate BitSet(i: nat, c: Byte) {
    if i <= 1 then c % 2 == 1 else BitSet(i / 2, c / 2)
  }

  /** Raises a signal at the parent; raising a pending one again leaves no trace. */
  function RaiseAtParent(s: State, sig: Signal): State {
    var lost := if sig.Chld? then s.pending.chld else s.pending.usr1 || s.pending.usr2;
    s.(pending := s.pending.Set(sig, true), coalesced := s.coalesced || lost)
  }

  function RaiseAtChild(s: State): State {
    if s.cpc.Dead? then s else s.(ackPending := true, coalesced := s.coalesced || s.ackPending)
  }

  function ChildExit(s: State): State {
    RaiseAtParent(s.(cpc := Dead), Chld)
  }

  predicate Enabled(s: State, a: Action) {
    match a
    case Child =>
      (match s.cpc
       case Dead => false
       case Suspend => s.ackPending
       case Kill => s.mask > 0
       case Read => true)
    case Alarm => s.armed && !s.cpc.Dead?
    case Parent(sig) =>
      (match s.ppc
       case Done => false
       case Suspended => s.pending.Has(sig)
       case _ => true)
  }

  /** GotOne and GotZero up to their kill. */
  function Got(s: State, one: bool): State {
    s.(outChar := if one then s.outChar + s.counter else s.outChar, counter := s.counter / 2, ppc := Ack)
  }

  function Apply(s: State, a: Action): State
    requires Enabled(s, a)
  {
    match a
    case Child =>
      (match s.cpc
       case Read =>
         if s.rd < |s.src| then
           s.(c := s.src[s.rd], rd := s.rd + 1, armed := true, mask := 128, cpc := Kill)
         else
           ChildExit(s)
       case Kill => RaiseAtParent(s.(cpc := Suspend), if BitSet(s.mask, s.c) then Usr1 else Usr2)
       case Suspend =>
         var i := s.mask / 2;
         s.(ackPending := false, mask := i, cpc := if i >= 1 then Kill else Read)
       case Dead => s)
    case Alarm => ChildExit(s.(alarmed := true))
    case Parent(sig) =>
      (match s.ppc
       case Test =>
         if s.counter == 0 then
           s.(dst := s.dst + [s.outChar % 256], counter := 128, outChar := 0, ppc := Suspended)
         else
           s.(ppc := Suspended)
       case Suspended =>
         var t := s.(pending := s.pending.Set(sig, false));
         (match sig
          case Usr1 => Got(t, true)
          case Usr2 => Got(t, false)
          case Chld => t.(ppc := Done))
       case Ack => RaiseAtChild(s.(ppc := Test))
       case Done => s)
  }

  predicate Runs(s: State, actions: seq<Action>, t: State)
    decreases |actions|
  {
    if actions == [] then
      s == t
    else
      Enabled(s, actions[0]) && Runs(Apply(s, actions[0]), actions[1..], t)
  }

  /** The program's globals and the handlers that change them. */
  class Receiver {
    var outChar: int
    var counter: nat

    constructor ()
      ensures outChar == 0 && counter == 128
    {
      outChar, counter := 0, 128;
    }

    method GotOne()
      modifies this
      ensures outChar == old(outChar) + old(counter) && counter == old(counter) / 2
    {
      outChar := outChar + counter;
      counter := counter / 2;
    }

    method GotZero()
      modifies this
      ensures outChar == old(outChar) && counter == old(counter) / 2
    {
      counter := counter / 2;
    }

    /** One byte, bit by bit: the sender's loop against the receiver's handlers. */
    method TransferByte(c: Byte)
      requires counter == 128 && outChar == 0
      modifies this
      ensures counter == 0 && outChar == c
    {
      var i := 128;
      AllBits(c);
      while i >= 1
        invariant counter == i && MaskOk(i)
        invariant outChar == TopBits(c, i)
        decreases i
      {
        TopBitsNext(c, i);
        if BitSet(i, c) {
          GotOne();
        } else {
          GotZero();
        }
        i := i / 2;
      }
    }
  }

  predicate MaskOk(i: nat) {
    i in {0, 1, 2, 4, 8, 16, 32, 64, 128}
  }

  /** The value of the bits of c whose weight is above i; 0 stands for no mask left. */
  function TopBits(c: Byte, i: nat): nat
    decreases 128 - i
  {
    if i >= 128 then
      0
    else
      var j := if i == 0 then 1 else 2 * i;
      TopBits(c, j) + Bit(j, c)
  }

  lemma TopBitsNext(c: Byte, i: nat)
    requires MaskOk(i) && i > 0
    ensures MaskOk(i / 2)
    ensures TopBits(c, i / 2) == TopBits(c, i) + Bit(i, c)
  {
    var h := i / 2;
    assert i == if h == 0 then 1 else 2 * h;
  }

  /** The bit of weight i. */
  lemma {:induction false} BitIs(i: nat, c: Byte)
    requires MaskOk(i) && i > 0
    ensures BitSet(i, c) <==> c / i % 2 == 1
  {
    if i > 1 {
      BitIs(i / 2, c / 2);
      if i == 2 { assert c / 2 / 1 == c / 2; }
      else if i == 4 { assert c / 2 / 2 == c / 4; }
      else if i == 8 { assert c / 2 / 4 == c / 8; }
      else if i == 16 { assert c / 2 / 8 == c / 16; }
      else if i == 32 { assert c / 2 / 16 == c / 32; }
      else if i == 64 { assert c / 2 / 32 == c / 64; }
      else { assert c / 2 / 64 == c / 128; }
    }
  }

  function Bit(i: nat, c: Byte): nat {
    if BitSet(i, c) then i else 0
  }

  lemma LowHalves(c: Byte)
    ensures c == 2 * (c / 2) + c % 2
    ensures c / 2 == 2 * (c / 4) + c / 2 % 2
    ensures c / 4 == 2 * (c / 8) + c / 4 % 2
    ensures c / 8 == 2 * (c / 16) + c / 8 % 2
  {
  }

  lemma HighHalves(c: Byte)
    ensures c / 16 == 2 * (c / 32) + c / 16 % 2
    ensures c / 32 == 2 * (c / 64) + c / 32 % 2
    ensures c / 64 == 2 * (c / 128) + c / 64 % 2
    ensures c / 128 == c / 128 % 2
  {
  }

  lemma LowDigits(c: Byte)
    ensures Bit(1, c) + Bit(2, c) + Bit(4, c) + Bit(8, c) == c - 16 * (c / 16)
  {
    LowHalves(c);
    BitIs(1, c);
    BitIs(2, c);
    BitIs(4, c);
    BitIs(8, c);
  }

  lemma HighDigits(c: Byte)
    ensures Bit(16, c) + Bit(32, c) + Bit(64, c) + Bit(128, c) == 16 * (c / 16)
  {
    HighHalves(c);
    BitIs(16, c);
    BitIs(32, c);
    BitIs(64, c);
    BitIs(128, c);
  }

  /** All eight bits of a byte make the byte. */
  lemma AllBits(c: Byte)
    ensures TopBits(c, 0) == c
  {
    LowDigits(c);
    HighDigits(c);
    assert TopBits(c, 64) == Bit(128, c);
    assert TopBits(c, 32) == TopBits(c, 64) + Bit(64, c);
    assert TopBits(c, 16) == TopBits(c, 32) + Bit(32, c);
    assert TopBits(c, 8) == TopBits(c, 16) + Bit(16, c);
    assert TopBits(c, 4) == TopBits(c, 8) + Bit(8, c);
    assert TopBits(c, 2) == TopBits(c, 4) + Bit(4, c);
    assert TopBits(c, 1) == TopBits(c, 2) + Bit(2, c);
    assert TopBits(c, 0) == TopBits(c, 1) + Bit(1, c);
  }
}
