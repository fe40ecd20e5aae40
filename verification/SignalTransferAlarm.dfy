/** What the alarm does to a transfer: which part of the file arrives, by where the child was. */
module SignalTransferAlarm {
  import opened Bytes
  import opened SignalTransfer
  import opened SignalTransferProofs

  /** The bytes of which the parent has had every bit: all that were read, when the child is about to read
      the next one or the parent has already taken the last bit; otherwise all but the one in transfer. */
  function Settled(s: State): int {
    if s.cpc.Read? || (s.cpc.Suspend? && !BitPending(s) && s.mask == 1) then s.rd else s.rd - 1
  }

  /** The last bit of a byte is sent, and its signal still pending at the parent. */
  predicate LastBitUnderway(s: State) {
    s.cpc.Suspend? && BitPending(s) && s.mask == 1
  }

  // What the parent of a dead child writes at least, and at most.
  function AtLeast(s: State): nat {
    |s.dst| + if s.counter == 0 && !s.ppc.Done? then 1 else 0
  }

  function AtMost(s: State): nat {
    AtLeast(s) + if BitPending(s) && s.counter == 1 then 1 else 0
  }

  lemma AfterAlarm(s: State)
    requires Inv(s) && Enabled(s, Alarm)
    ensures var t := Apply(s, Alarm);
      && Inv(t) && t.cpc.Dead? && !t.ppc.Done? && t.src == s.src
      && AtLeast(t) == Settled(s) && AtMost(t) == Settled(s) + if LastBitUnderway(s) then 1 else 0
  {
    AlarmKeeps(s);
  }

  lemma DeadStep(s: State, a: Action)
    requires Inv(s) && s.cpc.Dead? && Enabled(s, a)
    ensures var t := Apply(s, a);
      && t.cpc.Dead? && t.src == s.src
      && AtLeast(s) <= AtLeast(t) && AtMost(t) <= AtMost(s)
  {
  }

  lemma {:induction false} DeadRun(s: State, actions: seq<Action>, t: State)
    requires Inv(s) && s.cpc.Dead? && Runs(s, actions, t)
    ensures Inv(t) && t.src == s.src && AtLeast(s) <= AtLeast(t) && AtMost(t) <= AtMost(s)
    decreases |actions|
  {
    if actions != [] {
      InvKept(s, actions[0]);
      DeadStep(s, actions[0]);
      DeadRun(Apply(s, actions[0]), actions[1..], t);
    }
  }

  /** The child lives and has called alarm, which it does for every byte it reads. */
  predicate Alive(s: State) {
    s.rd >= 1 && !s.cpc.Dead?
  }

  /** From then on the alarm may go off at any time. */
  lemma AlarmAnyTime(src: seq<Byte>, before: seq<Action>, s: State)
    requires Runs(Init(src), before, s)
    ensures Enabled(s, Alarm) <==> Alive(s)
  {
    Reached(src, before, s);
  }

  /** After an alarm exactly the settled bytes arrive, or one more when its last bit was underway. */
  lemma AlarmOutcome(src: seq<Byte>, before: seq<Action>, s: State, actions: seq<Action>, t: State)
    requires Runs(Init(src), before, s) && Enabled(s, Alarm)
    requires Runs(Apply(s, Alarm), actions, t) && t.ppc.Done?
    ensures 0 <= Settled(s) <= |src|
    ensures t.dst == src[..Settled(s)] || (LastBitUnderway(s) && Settled(s) < |src| && t.dst == src[..Settled(s) + 1])
  {
    Reached(src, before, s);
    AfterAlarm(s);
    DeadRun(Apply(s, Alarm), actions, t);
    InvIsRight(t);
  }

  function ToSuspended(pc: ParentPc): nat {
    match pc
    case Ack => 2
    case Test => 1
    case _ => 0
  }

  // The end of the child reaches the parent when it is next suspended.
  lemma {:induction false} EndNow(s: State) returns (actions: seq<Action>, t: State)
    requires Inv(s) && s.cpc.Dead? && !s.ppc.Done?
    ensures Runs(s, actions, t) && t.ppc.Done? && |t.dst| == AtLeast(s)
    decreases ToSuspended(s.ppc)
  {
    var u := Apply(s, Parent(Chld));
    InvKept(s, Parent(Chld));
    if s.ppc.Suspended? {
      t, actions := u, [Parent(Chld)];
      assert Runs(u, actions[1..], t);
    } else {
      var rest;
      rest, t := EndNow(u);
      actions := [Parent(Chld)] + rest;
      assert actions[1..] == rest;
    }
  }

  // Or the pending last bit goes first.
  lemma {:induction false} EndAfterBit(s: State) returns (actions: seq<Action>, t: State)
    requires Inv(s) && s.cpc.Dead? && !s.ppc.Done? && BitPending(s) && s.counter == 1
    ensures Runs(s, actions, t) && t.ppc.Done? && |t.dst| == AtLeast(s) + 1
    decreases ToSuspended(s.ppc)
  {
    var sig := if s.pending.usr1 then Usr1 else Usr2;
    var u := Apply(s, Parent(sig));
    InvKept(s, Parent(sig));
    var rest;
    if s.ppc.Suspended? {
      rest, t := EndNow(u);
    } else {
      rest, t := EndAfterBit(u);
    }
    actions := [Parent(sig)] + rest;
    assert actions[1..] == rest;
  }

  /** Each of these outcomes has its run. */
  lemma AlarmOutcomeHappens(src: seq<Byte>, before: seq<Action>, s: State, oneMore: bool)
      returns (actions: seq<Action>, t: State)
    requires Runs(Init(src), before, s) && Enabled(s, Alarm) && (oneMore ==> LastBitUnderway(s))
    ensures Runs(Apply(s, Alarm), actions, t) && t.ppc.Done?
    ensures 0 <= Settled(s) <= |src| && (oneMore ==> Settled(s) < |src|)
    ensures t.dst == src[..Settled(s) + if oneMore then 1 else 0]
  {
    Reached(src, before, s);
    AfterAlarm(s);
    if oneMore {
      actions, t := EndAfterBit(Apply(s, Alarm));
    } else {
      actions, t := EndNow(Apply(s, Alarm));
    }
    AlarmOutcome(src, before, s, actions, t);
  }

  /** The parent takes a pending bit before the child's end, as an operating system does that delivers the
      signal with the lowest number first. */
  predicate BitsFirst(s: State, actions: seq<Action>)
    decreases |actions|
  {
    actions != [] ==>
      && !(s.ppc.Suspended? && BitPending(s) && actions[0] == Parent(Chld))
      && (Enabled(s, actions[0]) ==> BitsFirst(Apply(s, actions[0]), actions[1..]))
  }

  lemma BitFirstStep(s: State, a: Action)
    requires Inv(s) && s.cpc.Dead? && Enabled(s, a)
    requires !(s.ppc.Suspended? && BitPending(s) && a == Parent(Chld))
    ensures AtMost(Apply(s, a)) == AtMost(s)
    ensures Apply(s, a).ppc.Done? ==> !BitPending(Apply(s, a))
  {
  }

  lemma {:induction false} BitsFirstRun(s: State, actions: seq<Action>, t: State)
    requires Inv(s) && s.cpc.Dead? && Runs(s, actions, t) && BitsFirst(s, actions)
    requires s.ppc.Done? ==> !BitPending(s)
    ensures AtMost(t) == AtMost(s) && (t.ppc.Done? ==> !BitPending(t))
    decreases |actions|
  {
    if actions != [] {
      InvKept(s, actions[0]);
      BitFirstStep(s, actions[0]);
      DeadStep(s, actions[0]);
      BitsFirstRun(Apply(s, actions[0]), actions[1..], t);
    }
  }

  /** Then the bit that is underway always arrives, and the alarm has one outcome. */
  lemma AlarmOutcomeBitsFirst(src: seq<Byte>, before: seq<Action>, s: State, actions: seq<Action>, t: State)
    requires Runs(Init(src), before, s) && Enabled(s, Alarm)
    requires Runs(Apply(s, Alarm), actions, t) && BitsFirst(Apply(s, Alarm), actions) && t.ppc.Done?
    ensures 0 <= Settled(s) <= |src| && (LastBitUnderway(s) ==> Settled(s) < |src|)
    ensures t.dst == src[..Settled(s) + if LastBitUnderway(s) then 1 else 0]
  {
    Reached(src, before, s);
    AfterAlarm(s);
    BitsFirstRun(Apply(s, Alarm), actions, t);
    AlarmOutcome(src, before, s, actions, t);
  }

  ghost predicate ArrivesAfterAlarm(src: seq<Byte>, s: State)
    requires Enabled(s, Alarm)
  {
    forall actions, t :: Runs(Apply(s, Alarm), actions, t) && t.ppc.Done? ==> t.dst == src
  }

  /** So an alarm is harmless, whatever the scheduling after it, if and only if the parent has by then had
      every bit of the whole file. */
  lemma AlarmIsHarmlessIff(src: seq<Byte>, before: seq<Action>, s: State)
    requires Runs(Init(src), before, s) && Enabled(s, Alarm)
    ensures ArrivesAfterAlarm(src, s) <==> Settled(s) == |src|
  {
    if Settled(s) == |src| {
      forall actions, t | Runs(Apply(s, Alarm), actions, t) && t.ppc.Done?
        ensures t.dst == src
      {
        AlarmOutcome(src, before, s, actions, t);
      }
    } else {
      var actions, t := AlarmOutcomeHappens(src, before, s, false);
      assert t.dst != src;
    }
  }

  // ---- Every prefix ----

  lemma {:induction false} RunsJoin(s: State, xs: seq<Action>, t: State, ys: seq<Action>, u: State)
    requires Runs(s, xs, t) && Runs(t, ys, u)
    ensures Runs(s, xs + ys, u)
    decreases |xs|
  {
    if xs == [] {
      assert xs + ys == ys;
    } else {
      RunsJoin(Apply(s, xs[0]), xs[1..], t, ys, u);
      assert (xs + ys)[1..] == xs[1..] + ys;
    }
  }

  // Some step other than the alarm; the bytes read grow by one at most, and only there.
  lemma StepOn(s: State) returns (a: Action)
    requires Inv(s) && !s.cpc.Dead? && !(s.cpc.Read? && s.rd == |s.src|)
    ensures Enabled(s, a) && !a.Alarm?
    ensures var t := Apply(s, a);
      && Inv(t) && !t.cpc.Dead? && t.src == s.src && StepsLeft(t) < StepsLeft(s)
      && (t.rd == s.rd || (s.cpc.Read? && t.rd == s.rd + 1 && t.cpc.Kill?))
  {
    a := if Enabled(s, Child) then Child
         else if !s.ppc.Suspended? then Parent(Chld)
         else if s.pending.usr1 then Parent(Usr1) else Parent(Usr2);
    InvKept(s, a);
    StepsLeftDecreases(s, a);
  }

  // The child comes to the place where it has sent k bytes and is about to read.
  lemma {:induction false} ReadUpTo(s: State, k: nat) returns (actions: seq<Action>, t: State)
    requires Inv(s) && !s.cpc.Dead? && s.rd <= k <= |s.src| && (k == 0 ==> s.cpc.Read?)
    ensures Runs(s, actions, t) && Inv(t) && t.src == s.src && t.cpc.Read? && t.rd == k
    decreases StepsLeft(s)
  {
    if s.cpc.Read? && s.rd == k {
      actions, t := [], s;
    } else {
      var a := StepOn(s);
      var rest;
      rest, t := ReadUpTo(Apply(s, a), k);
      actions := [a] + rest;
      assert actions[1..] == rest;
    }
  }

  // With k bytes settled the alarm goes off: before the child reads, or just after it read the first byte.
  lemma AlarmAfter(src: seq<Byte>, k: nat) returns (actions: seq<Action>, s: State)
    requires k <= |src| && src != []
    ensures Runs(Init(src), actions, s) && Enabled(s, Alarm) && Settled(s) == k
  {
    var t: State;
    actions, t := ReadUpTo(Init(src), k);
    if k > 0 {
      s := t;
    } else {
      s := Apply(t, Child);
      assert Runs(s, [Child][1..], s);
      RunsJoin(Init(src), actions, t, [Child], s);
      actions := actions + [Child];
    }
  }

  /** For every prefix of a file with a byte in it, the whole file included, some transfer that the alarm ends
      leaves exactly that prefix. */
  lemma EveryPrefixHappens(src: seq<Byte>, k: nat) returns (actions: seq<Action>, s: State)
    requires k <= |src| && src != []
    ensures Runs(Init(src), actions, s) && s.alarmed && s.ppc.Done? && s.dst == src[..k]
  {
    var before, t := AlarmAfter(src, k);
    var after;
    after, s := AlarmOutcomeHappens(src, before, t, false);
    assert ([Alarm] + after)[1..] == after;
    RunsJoin(Init(src), before, t, [Alarm] + after, s);
    actions := before + ([Alarm] + after);
    AlarmedStays(Apply(t, Alarm), after, s);
  }

  lemma {:induction false} AlarmedStays(s: State, actions: seq<Action>, t: State)
    requires s.cpc.Dead? && Runs(s, actions, t)
    ensures t.cpc.Dead? && t.alarmed == s.alarmed
    decreases |actions|
  {
    if actions != [] {
      AlarmedStays(Apply(s, actions[0]), actions[1..], t);
    }
  }

  /** And without the alarm every file can arrive whole. */
  lemma WholeFileHappens(src: seq<Byte>) returns (actions: seq<Action>, s: State)
    ensures Runs(Init(src), actions, s) && !s.alarmed && s.ppc.Done? && s.dst == src
  {
    var before, t := ReadUpTo(Init(src), |src|);
    var u := Apply(t, Child);
    InvKept(t, Child);
    var after;
    after, s := EndNow(u);
    assert ([Child] + after)[1..] == after;
    RunsJoin(Init(src), before, t, [Child] + after, s);
    actions := before + ([Child] + after);
    SourceKept(u, after, s);
    AlarmedStays(u, after, s);
    InvAlong(u, after, s);
    InvIsRight(s);
  }
}
