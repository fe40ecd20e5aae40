/** Exactly when the copy is complete under every scheduling, and exactly when the sender ends. */
module SharedBufferOutcome {
  import opened Bytes
  import opened SharedBuffer
  import opened SharedBufferProofs

  /** The receiver has left, whatever the scheduling, only with the whole source in the destination. */
  ghost predicate AlwaysComplete(buf: seq<Byte>, src: seq<Byte>) {
    forall actions, s :: Runs(Init(buf, src), actions, s) && s.rpc.Left? ==> s.dst == src
  }

  lemma {:induction false} RunsJoin(s: State, xs: seq<Action>, t: State, ys: seq<Action>, u: State)
    requires Runs(s, xs, t) && Runs(t, ys, u)
    ensures Runs(s, xs + ys, u)
    decreases |xs|
  {
    if xs == [] {
      assert xs + ys == ys;
    } else {
      RunsJoin(Apply(s, xs[0]), xs[1..], t, ys, u);
      assert (xs + ys)[1..] == xs[1..] + ys;
    }
  }

  // One more step at the end of a run.
  lemma Then(s: State, xs: seq<Action>, t: State, a: Action) returns (ys: seq<Action>, u: State)
    requires Runs(s, xs, t) && Enabled(t, a)
    ensures u == Apply(t, a) && Runs(s, ys, u)
  {
    ys, u := xs + [a], Apply(t, a);
    assert Runs(u, [a][1..], u);
    RunsJoin(s, xs, t, [a], u);
  }

  // Both at the top of their loops, with `sent` bytes read and `taken` of them written.
  predicate Between(s: State, sent: nat, taken: nat) {
    && WellFormed(s) && s.spc.LoopTest? && s.rpc.WaitFull? && s.status == 1 && s.mutex == 1
    && taken <= sent <= |s.src| && s.rd == sent && |s.dst| == taken
    && s.full == sent - taken <= s.cap && s.empty == s.cap - s.full
  }

  // The sender sends one byte, undisturbed.
  lemma SendOne(s: State, sent: nat, taken: nat) returns (xs: seq<Action>, t: State)
    requires Between(s, sent, taken) && sent < |s.src| && sent - taken < s.cap
    ensures Runs(s, xs, t) && Between(t, sent + 1, taken) && t.src == s.src && t.cap == s.cap
  {
    xs, t := Then(s, [], s, Send);
    xs, t := Then(s, xs, t, Send);
    xs, t := Then(s, xs, t, Send);
    xs, t := Then(s, xs, t, Send);
    xs, t := Then(s, xs, t, Send);
    xs, t := Then(s, xs, t, Send);
    xs, t := Then(s, xs, t, Send);
  }

  // The receiver takes one, undisturbed.
  lemma ReceiveOne(s: State, sent: nat, taken: nat) returns (xs: seq<Action>, t: State)
    requires Between(s, sent, taken) && taken < sent
    ensures Runs(s, xs, t) && Between(t, sent, taken + 1) && t.src == s.src && t.cap == s.cap
  {
    xs, t := Then(s, [], s, Receive);
    xs, t := Then(s, xs, t, Receive);
    xs, t := Then(s, xs, t, Receive);
    xs, t := Then(s, xs, t, Receive);
    xs, t := Then(s, xs, t, Receive);
    xs, t := Then(s, xs, t, Receive);
    xs, t := Then(s, xs, t, Receive);
  }

  /** A sequence of whole rounds, each named by who makes it, in which the sender finds room and the receiver
      a byte, from `sent` bytes sent and `taken` received on. */
  predicate Possible(rounds: seq<Action>, sent: nat, taken: nat, cap: nat, size: nat)
    requires taken <= sent
  {
    rounds == [] ||
    match rounds[0]
    case Send => sent < size && sent - taken < cap && Possible(rounds[1..], sent + 1, taken, cap, size)
    case Receive => taken < sent && Possible(rounds[1..], sent, taken + 1, cap, size)
  }

  function Count(rounds: seq<Action>, a: Action): nat {
    if rounds == [] then 0 else (if rounds[0] == a then 1 else 0) + Count(rounds[1..], a)
  }

  lemma {:induction false} RoundsFrom(s: State, rounds: seq<Action>, sent: nat, taken: nat)
      returns (actions: seq<Action>, t: State)
    requires Between(s, sent, taken) && Possible(rounds, sent, taken, s.cap, |s.src|)
    ensures Runs(s, actions, t) && t.src == s.src && t.cap == s.cap
    ensures Between(t, sent + Count(rounds, Send), taken + Count(rounds, Receive))
    decreases |rounds|
  {
    if rounds == [] {
      actions, t := [], s;
    } else {
      var xs, u, ys;
      if rounds[0] == Send {
        xs, u := SendOne(s, sent, taken);
        ys, t := RoundsFrom(u, rounds[1..], sent + 1, taken);
      } else {
        xs, u := ReceiveOne(s, sent, taken);
        ys, t := RoundsFrom(u, rounds[1..], sent, taken + 1);
      }
      RunsJoin(s, xs, u, ys, t);
      actions := xs + ys;
    }
  }

  /** Every sequence of rounds is possible that neither overfills the ring nor takes from an empty one: the
      two may be any number of bytes apart, up to the size of the ring. */
  lemma EveryScheduleRuns(buf: seq<Byte>, src: seq<Byte>, rounds: seq<Action>)
      returns (actions: seq<Action>, s: State)
    requires |buf| > 0 && Possible(rounds, 0, 0, |buf|, |src|)
    ensures Runs(Init(buf, src), actions, s) && s.spc.LoopTest? && s.rpc.WaitFull?
    ensures s.rd == Count(rounds, Send) && |s.dst| == Count(rounds, Receive) <= |src|
    ensures s.dst == src[..Count(rounds, Receive)]
  {
    actions, s := RoundsFrom(Init(buf, src), rounds, 0, 0);
    TransferIsSafe(buf, src, actions, s);
  }

  // k rounds of the sender alone.
  function Sends(k: nat): seq<Action> {
    if k == 0 then [] else [Send] + Sends(k - 1)
  }

  lemma {:induction false} SendsArePossible(k: nat, sent: nat, cap: nat, size: nat)
    requires sent + k <= size && sent + k <= cap
    ensures Possible(Sends(k), sent, 0, cap, size) && Count(Sends(k), Send) == k && Count(Sends(k), Receive) == 0
    decreases k
  {
    if k > 0 {
      assert Sends(k)[1..] == Sends(k - 1);
      SendsArePossible(k - 1, sent + 1, cap, size);
    }
  }

  /** In particular the sender can fill the ring before the receiver takes anything. */
  lemma RingCanBeFilled(buf: seq<Byte>, src: seq<Byte>, k: nat) returns (actions: seq<Action>, s: State)
    requires 0 < |buf| && k <= |buf| && k <= |src|
    ensures Runs(Init(buf, src), actions, s) && s.rd == k && s.dst == []
  {
    SendsArePossible(k, 0, |buf|, |src|);
    actions, s := EveryScheduleRuns(buf, src, Sends(k));
  }

  // In lock step up to byte n.
  lemma {:induction false} LockStep(buf: seq<Byte>, src: seq<Byte>, n: nat) returns (xs: seq<Action>, t: State)
    requires |buf| > 0 && n <= |src|
    ensures Runs(Init(buf, src), xs, t) && Between(t, n, n) && t.src == src && t.cap == |buf|
  {
    if n == 0 {
      xs, t := [], Init(buf, src);
    } else {
      var s: State;
      xs, s := LockStep(buf, src, n - 1);
      var ys, u := SendOne(s, n - 1, n - 1);
      RunsJoin(Init(buf, src), xs, s, ys, u);
      var zs;
      zs, t := ReceiveOne(u, n, n - 1);
      RunsJoin(Init(buf, src), xs + ys, u, zs, t);
      xs := xs + ys + zs;
    }
  }

  // The sender meets the end of the file and stops between its two posts.
  lemma SendEof(s: State) returns (xs: seq<Action>, t: State)
    requires WellFormed(s) && s.spc.LoopTest? && s.status == 1 && s.empty >= 1 && s.mutex == 1 && s.rd == |s.src|
    ensures Runs(s, xs, t)
    ensures t == s.(spc := PostFull, status := 0, readSz := 0, empty := s.empty - 1)
  {
    xs, t := Then(s, [], s, Send);
    xs, t := Then(s, xs, t, Send);
    xs, t := Then(s, xs, t, Send);
    xs, t := Then(s, xs, t, Send);
    xs, t := Then(s, xs, t, Send);
    xs, t := Then(s, xs, t, Send);
  }

  // The receiver takes the announcement of the last byte for that of the end.
  lemma ReceiveEof(s: State) returns (xs: seq<Action>, t: State)
    requires WellFormed(s) && s.rpc.WaitFull? && s.status == 0 && s.full == 1 && s.mutex == 1
    ensures Runs(s, xs, t) && t.rpc.Left? && t.dst == s.dst && t.spc == s.spc
  {
    xs, t := Then(s, [], s, Receive);
    xs, t := Then(s, xs, t, Receive);
    xs, t := Then(s, xs, t, Receive);
    xs, t := Then(s, xs, t, Receive);
    xs, t := Then(s, xs, t, Receive);
    xs, t := Then(s, xs, t, Receive);
  }

  /** With room for two bytes, every non-empty source has a run in which its last byte is lost. */
  lemma LastByteCanBeLost(buf: seq<Byte>, src: seq<Byte>) returns (actions: seq<Action>, s: State)
    requires |buf| >= 2 && src != []
    ensures Runs(Init(buf, src), actions, s) && s.rpc.Left? && s.dst == src[..|src| - 1]
  {
    var i := Init(buf, src);
    var t: State;
    actions, t := LockStep(buf, src, |src| - 1);
    var ys, u := SendOne(t, |src| - 1, |src| - 1);
    RunsJoin(i, actions, t, ys, u);
    actions := actions + ys;
    var zs, v := SendEof(u);
    RunsJoin(i, actions, u, zs, v);
    actions := actions + zs;
    var ws;
    ws, s := ReceiveEof(v);
    RunsJoin(i, actions, v, ws, s);
    actions := actions + ws;
    TransferIsSafe(buf, src, actions, s);
  }

  /** The copy is complete under every scheduling exactly for a buffer of one byte or an empty source. */
  lemma CompleteIff(buf: seq<Byte>, src: seq<Byte>)
    requires |buf| > 0
    ensures AlwaysComplete(buf, src) <==> |buf| == 1 || src == []
  {
    if |buf| == 1 || src == [] {
      forall actions, s | Runs(Init(buf, src), actions, s) && s.rpc.Left?
        ensures s.dst == src
      {
        InitInv(buf, src);
        InvAlong(Init(buf, src), actions, s);
      }
    } else {
      var actions, s := LastByteCanBeLost(buf, src);
      assert s.dst != src;
    }
  }

  /** With the program's own buffer no file but the empty one is safe. */
  lemma ProgramCompleteIff(buf: seq<Byte>, src: seq<Byte>)
    requires |buf| == BUF_SZ
    ensures AlwaysComplete(buf, src) <==> src == []
  {
    CompleteIff(buf, src);
  }

  // ---- The sender's end ----

  // The receiver is done and the sender will see `status` at 1 where it waits for it, or has seen it.
  predicate WillEnd(s: State) {
    s.rpc.Left? && (s.spc.Gone? || (s.spc.Drain? && s.status == 1))
  }

  // The receiver is done and the sender is, or will be, where nobody sets `status` again.
  predicate WillNotEnd(s: State) {
    s.rpc.Left? && !s.spc.Gone? && (s.spc.Drain? ==> s.status == 0)
  }

  lemma {:induction false} EndAlong(s: State, actions: seq<Action>, t: State)
    requires Runs(s, actions, t)
    ensures WillEnd(s) ==> WillEnd(t)
    ensures WillNotEnd(s) ==> WillNotEnd(t)
    decreases |actions|
  {
    if actions != [] {
      EndAlong(Apply(s, actions[0]), actions[1..], t);
    }
  }

  /** When the receiver sets `status`, the sender's fate is settled: it ends, in its next step, exactly if
      it then already waits for that; otherwise no scheduling lets it end. */
  lemma SenderEndsIff(buf: seq<Byte>, src: seq<Byte>, before: seq<Action>, s: State, actions: seq<Action>, t: State)
    requires |buf| > 0 && Runs(Init(buf, src), before, s) && s.rpc.SetStatus?
    requires Enabled(s, Receive) && Runs(Apply(s, Receive), actions, t)
    ensures s.spc.Drain? <==> t.spc.Gone? || (Enabled(t, Send) && Apply(t, Send).spc.Gone?)
    ensures !s.spc.Drain? ==> !t.spc.Gone?
  {
    InitInv(buf, src);
    InvAlong(Init(buf, src), before, s);
    EndAlong(Apply(s, Receive), actions, t);
    InvKept(s, Receive);
    InvAlong(Apply(s, Receive), actions, t);
  }

  /** For every buffer and every source there is a run that copies everything and leaves the sender
      waiting for ever: the sender announces the end and is overtaken before it tests `status`. */
  lemma SenderMayNeverEnd(buf: seq<Byte>, src: seq<Byte>) returns (actions: seq<Action>, s: State)
    requires |buf| > 0
    ensures Runs(Init(buf, src), actions, s) && s.rpc.Left? && s.dst == src
    ensures forall more, t :: Runs(s, more, t) ==> !t.spc.Gone?
  {
    var i := Init(buf, src);
    var t: State;
    actions, t := LockStep(buf, src, |src|);
    var ys, u := SendEof(t);
    RunsJoin(i, actions, t, ys, u);
    actions := actions + ys;
    actions, u := Then(i, actions, u, Send);
    var zs;
    zs, s := ReceiveEof(u);
    RunsJoin(i, actions, u, zs, s);
    actions := actions + zs;
    TransferIsSafe(buf, src, actions, s);
    forall more, t | Runs(s, more, t)
      ensures !t.spc.Gone?
    {
      EndAlong(s, more, t);
    }
  }

  // ---- The good end ----

  // The receiver is in its end branch with the whole source written, and the sender waits for it.
  predicate WellEnded(s: State) {
    WellFormed(s) && s.spc.Drain? && s.status == 0 && s.dst == s.src && s.rpc.EndPostMutex?
  }

  lemma LastSteps(s: State) returns (actions: seq<Action>, t: State)
    requires WellEnded(s)
    ensures Runs(s, actions, t) && t.rpc.Left? && t.dst == s.src && t.spc.Gone?
  {
    actions, t := Then(s, [], s, Receive);
    actions, t := Then(s, actions, t, Receive);
    actions, t := Then(s, actions, t, Receive);
    actions, t := Then(s, actions, t, Send);
  }

  lemma ReceiveWhenSenderBlocked(s: State)
    requires Live(s) && !Ending(s) && !Enabled(s, Send) && Enabled(s, Receive)
    ensures var t := Apply(s, Receive); Live(t) && (Ending(t) ==> WellEnded(t)) && t.src == s.src
  {
    InvKept(s, Receive);
  }

  lemma SendMeanwhile(s: State)
    requires Live(s) && !Ending(s) && Enabled(s, Send)
    ensures var t := Apply(s, Send); Live(t) && !Ending(t) && t.src == s.src
  {
    InvKept(s, Send);
  }

  lemma {:induction false} EndWell(s: State) returns (actions: seq<Action>, t: State)
    requires Live(s) && !Ending(s)
    ensures Runs(s, actions, t) && t.rpc.Left? && t.dst == s.src && t.spc.Gone?
    decreases StepsLeft(s)
  {
    var a := if Enabled(s, Send) then Send else Receive;
    if a == Send { SendMeanwhile(s); } else { ReceiveWhenSenderBlocked(s); }
    StepsLeftDecreases(s, a);
    var u, rest := Apply(s, a), [];
    if Ending(u) {
      rest, t := LastSteps(u);
    } else {
      rest, t := EndWell(u);
    }
    actions := [a] + rest;
    assert actions[1..] == rest;
  }

  /** Until the receiver has taken its end branch the good end is possible, from every reachable state: the
      whole source copied, and both processes at their end. */
  lemma GoodEndIsPossible(buf: seq<Byte>, src: seq<Byte>, before: seq<Action>, s: State)
      returns (actions: seq<Action>, t: State)
    requires |buf| > 0 && Runs(Init(buf, src), before, s) && !s.rpc.Left? && !Ending(s)
    ensures Runs(s, actions, t) && t.rpc.Left? && t.dst == src && t.spc.Gone?
  {
    ReachedLive(buf, src, before, s);
    actions, t := EndWell(s);
  }
}
