/** The descriptors of a pipeline: run_cmd's loop of pipe, fork, dup2 and close. */
module Pipeline {

  /** What a descriptor refers to: an end of the pipe with a number, or something else. */
  datatype End = ReadEnd(id: nat) | WriteEnd(id: nat) | Other(id: nat)

  type Table = map<nat, End>

  /** The numbers the system picks for each pipe, by the table it finds; the pipe's own number makes every
      sequence of choices possible. */
  type Choice = (Table, nat) -> (nat, nat)

  ghost predicate PicksUnused(pick: Choice) {
    forall t, id :: NewPipe(t, pick(t, id).0, pick(t, id).1)
  }

  /** A process, as far as its descriptor table goes. */
  class Process {
    var fds: Table

    constructor (fds: Table)
      ensures this.fds == fds
    {
      this.fds := fds;
    }

    /** pipe: two unused numbers, as the system picks them. */
    method Pipe(id: nat, pick: Choice) returns (rd: nat, wr: nat)
      modifies this
      ensures (rd, wr) == pick(old(fds), id) && fds == WithPipe(old(fds), rd, wr, id)
    {
      var fd := pick(fds, id);
      rd, wr := fd.0, fd.1;
      fds := fds[rd := ReadEnd(id)][wr := WriteEnd(id)];
    }

    /** fork: the child has a copy of the table. */
    method Fork() returns (child: Process)
      ensures fresh(child) && child.fds == fds
    {
      child := new Process(fds);
    }

    /** dup2: nothing happens when `from` is not open. */
    method Dup2(from: nat, to: nat)
      modifies this
      ensures fds == Dup(old(fds), from, to)
    {
      if from in fds {
        fds := fds[to := fds[from]];
      }
    }

    method Close(fd: nat)
      modifies this
      ensures fds == old(fds) - {fd}
    {
      fds := fds - {fd};
    }
  }

  function WithPipe(t: Table, rd: nat, wr: nat, id: nat): Table {
    t[rd := ReadEnd(id)][wr := WriteEnd(id)]
  }

  function Dup(t: Table, from: nat, to: nat): Table {
    if from in t then t[to := t[from]] else t
  }

  /** The lowest number from i on that is not in use. */
  function Lowest(used: set<nat>, i: nat): (fd: nat)
    ensures fd >= i && fd !in used
    ensures forall j :: i <= j < fd ==> j in used
    decreases |used|
  {
    if i in used then
      var fd := Lowest(used - {i}, i + 1);
      assert used - {i} <= used;
      fd
    else
      i
  }

  /** The choice of an operating system that always takes the lowest numbers. */
  function LowestPair(t: Table, id: nat): (fd: (nat, nat))
    ensures NewPipe(t, fd.0, fd.1)
  {
    var rd := Lowest(t.Keys, 0);
    (rd, Lowest(t.Keys + {rd}, 0))
  }

  /** The child's branch, before it runs its command. */
  function ChildTable(t: Table, i: nat, n: nat, fdIn: nat, rd: nat, wr: nat): Table {
    var a := if i > 0 then Dup(t, fdIn, 0) else t;
    var b := if i + 1 != n then Dup(a, wr, 1) else a;
    b - {rd}
  }

  /** The parent's branch. */
  function ParentTable(t: Table, i: nat, fdIn: nat, wr: nat): Table {
    var a := t - {wr};
    if i > 0 then a - {fdIn} else a
  }

  /** No end of a pipe numbered `base` or higher: those pipes are still to be made. */
  ghost predicate NoPipesFrom(t: Table, base: nat) {
    forall f :: f in t ==> t[f].Other? || t[f].id < base
  }

  /** What child i may hold, for pipes numbered from `base`: of the new pipes at most the write end of
      pipe i and the read end of pipe i - 1, and above its stdout all that the shell had. */
  ghost predicate HoldsAtMost(c: Table, shell: Table, i: nat, base: nat) {
    && (forall f :: f in c && c[f].WriteEnd? && c[f].id >= base ==> c[f].id == base + i)
    && (forall f :: f in c && c[f].ReadEnd? && c[f].id >= base ==> i > 0 && c[f].id == base + i - 1)
    && (forall f :: f in shell && f > 1 ==> f in c && c[f] == shell[f])
  }

  /** Exactly what child i holds above its stdout: what the shell had, the write end of pipe i under `wr`, and
      unless it is the first the read end of pipe i - 1 under `prev`; dup2 leaves those open. */
  ghost predicate HoldsAbove(c: Table, shell: Table, i: nat, base: nat, prev: nat, wr: nat) {
    && wr !in shell && (i > 0 ==> prev !in shell && prev != wr)
    && forall f :: f > 1 ==>
      && (f in c <==> f in shell || f == wr || (i > 0 && f == prev))
      && (f in c ==>
            c[f] == if f == wr then WriteEnd(base + i)
                    else if i > 0 && f == prev then ReadEnd(base + i - 1) else shell[f])
  }

  /** And exactly what its stdin and stdout are, in every shell: the read end `rd` of its own pipe is closed
      even where it has one of those numbers, and a write end with number 0 is lost to the first dup2. */
  predicate HasStdio(c: Table, shell: Table, i: nat, n: nat, base: nat, prev: nat, rd: nat, wr: nat) {
    && (0 in c <==> rd != 0 && (i > 0 || wr == 0 || 0 in shell))
    && (0 in c ==> c[0] == if i > 0 then ReadEnd(base + i - 1) else if wr == 0 then WriteEnd(base + i) else shell[0])
    && (1 in c <==> rd != 1 && (i + 1 < n || wr == 1 || (i > 0 && prev == 1) || 1 in shell))
    && (1 in c && i + 1 < n ==> c[1] == if i > 0 && wr == 0 then ReadEnd(base + i - 1) else WriteEnd(base + i))
    && (1 in c && i + 1 >= n ==>
          c[1] == if wr == 1 then WriteEnd(base + i)
                  else if i > 0 && prev == 1 then ReadEnd(base + i - 1) else shell[1])
  }

  ghost predicate HoldsExactly(c: Table, shell: Table, i: nat, n: nat, base: nat) {
    exists prev, rd, wr ::
      && rd !in shell && rd != wr
      && HoldsAbove(c, shell, i, base, prev, wr) && HasStdio(c, shell, i, n, base, prev, rd, wr)
  }

  /** The shell has a stdin and a stdout. */
  predicate Open(shell: Table) {
    0 in shell && 1 in shell
  }

  /** Where child i of n has them: the write end on its stdout unless it is the last child, the read end
      on its stdin unless it is the first; those two keep the shell's stdin and stdout. */
  predicate IsAttached(c: Table, shell: Table, i: nat, n: nat, base: nat)
    requires Open(shell)
  {
    && Attached(c, 0, if i > 0 then ReadEnd(base + i - 1) else shell[0])
    && Attached(c, 1, if i + 1 < n then WriteEnd(base + i) else shell[1])
  }

  predicate Attached(c: Table, fd: nat, end: End) {
    fd in c && c[fd] == end
  }

  // The shell's table at the top of round i: what it had, and the read end of the pipe before.
  ghost predicate AtRound(t: Table, shell: Table, i: nat, base: nat, fdIn: nat) {
    if i == 0 then
      t == shell && fdIn == 0
    else
      fdIn !in shell && t == shell[fdIn := ReadEnd(base + i - 1)]
  }

  predicate NewPipe(t: Table, rd: nat, wr: nat) {
    rd !in t && wr !in t && rd != wr
  }

  lemma ChildHolds(t: Table, shell: Table, i: nat, n: nat, base: nat, fdIn: nat, rd: nat, wr: nat)
    requires NoPipesFrom(shell, base) && AtRound(t, shell, i, base, fdIn) && NewPipe(t, rd, wr)
    ensures HoldsAtMost(ChildTable(WithPipe(t, rd, wr, base + i), i, n, fdIn, rd, wr), shell, i, base)
  {
  }

  lemma ChildHoldsAbove(t: Table, shell: Table, i: nat, n: nat, base: nat, fdIn: nat, rd: nat, wr: nat)
    requires AtRound(t, shell, i, base, fdIn) && NewPipe(t, rd, wr)
    ensures HoldsAbove(ChildTable(WithPipe(t, rd, wr, base + i), i, n, fdIn, rd, wr), shell, i, base, fdIn, wr)
  {
  }

  lemma ChildHasStdio(t: Table, shell: Table, i: nat, n: nat, base: nat, fdIn: nat, rd: nat, wr: nat)
    requires AtRound(t, shell, i, base, fdIn) && NewPipe(t, rd, wr) && i < n
    ensures HasStdio(ChildTable(WithPipe(t, rd, wr, base + i), i, n, fdIn, rd, wr), shell, i, n, base, fdIn, rd, wr)
  {
  }

  lemma ChildIsAttached(t: Table, shell: Table, i: nat, n: nat, base: nat, fdIn: nat, rd: nat, wr: nat)
    requires Open(shell) && AtRound(t, shell, i, base, fdIn) && NewPipe(t, rd, wr) && i < n
    ensures IsAttached(ChildTable(WithPipe(t, rd, wr, base + i), i, n, fdIn, rd, wr), shell, i, n, base)
  {
  }

  lemma ParentGoesOn(t: Table, shell: Table, i: nat, base: nat, fdIn: nat, rd: nat, wr: nat)
    requires AtRound(t, shell, i, base, fdIn) && NewPipe(t, rd, wr)
    ensures AtRound(ParentTable(WithPipe(t, rd, wr, base + i), i, fdIn, wr), shell, i + 1, base, rd)
  {
    assert ParentTable(WithPipe(t, rd, wr, base + i), i, fdIn, wr) == shell[rd := ReadEnd(base + i)];
  }

  // One round makes one child, and wires it when 0 and 1 are open.
  lemma RoundWires(t: Table, u: Table, c: Table, p: Table, shell: Table, i: nat, n: nat, base: nat,
                   fdIn: nat, rd: nat, wr: nat)
    requires NoPipesFrom(shell, base) && AtRound(t, shell, i, base, fdIn) && i < n
    requires NewPipe(t, rd, wr) && u == WithPipe(t, rd, wr, base + i)
    requires c == ChildTable(u, i, n, fdIn, rd, wr) && p == ParentTable(u, i, fdIn, wr)
    ensures HoldsAtMost(c, shell, i, base) && HoldsExactly(c, shell, i, n, base) && AtRound(p, shell, i + 1, base, rd)
    ensures Open(shell) ==> IsAttached(c, shell, i, n, base)
  {
    ChildHoldsAbove(t, shell, i, n, base, fdIn, rd, wr);
    ChildHasStdio(t, shell, i, n, base, fdIn, rd, wr);
    ChildHolds(t, shell, i, n, base, fdIn, rd, wr);
    ParentGoesOn(t, shell, i, base, fdIn, rd, wr);
    if Open(shell) {
      ChildIsAttached(t, shell, i, n, base, fdIn, rd, wr);
    }
  }

  method ChildBranch(child: Process, i: nat, n: nat, fdIn: nat, rd: nat, wr: nat)
    modifies child
    ensures child.fds == ChildTable(old(child.fds), i, n, fdIn, rd, wr)
  {
    if i > 0 {
      child.Dup2(fdIn, 0);
    }
    if i + 1 != n {
      child.Dup2(wr, 1);
    }
    child.Close(rd);
  }

  method ParentBranch(shell: Process, i: nat, fdIn: nat, wr: nat)
    modifies shell
    ensures shell.fds == ParentTable(old(shell.fds), i, fdIn, wr)
  {
    shell.Close(wr);
    if i > 0 {
      shell.Close(fdIn);
    }
  }

  /** One round of run_cmd's loop: pipe, fork, and both branches. */
  method Round(shell: Process, i: nat, n: nat, base: nat, pick: Choice, fdIn: nat) returns (child: Process, rd: nat)
    modifies shell
    ensures fresh(child) && rd == pick(old(shell.fds), base + i).0
    ensures child.fds == Child(pick, old(shell.fds), i, n, fdIn, base)
    ensures shell.fds == Parent(pick, old(shell.fds), i, fdIn, base)
  {
    var wr;
    rd, wr := shell.Pipe(base + i, pick);
    child := shell.Fork();
    ChildBranch(child, i, n, fdIn, rd, wr);
    ParentBranch(shell, i, fdIn, wr);
  }

  /** Somebody could still write into a pipe: its reader does not see the end of the stream. */
  ghost predicate HasWriter(tables: seq<Table>, id: nat) {
    exists p, f :: 0 <= p < |tables| && f in tables[p] && tables[p][f] == WriteEnd(id)
  }

  ghost predicate HasReader(tables: seq<Table>, id: nat) {
    exists p, f :: 0 <= p < |tables| && f in tables[p] && tables[p][f] == ReadEnd(id)
  }

  /** The stdout of child i and the stdin of child i + 1 are the two ends of pipe i. */
  predicate Joined(cs: seq<Table>, base: nat, i: nat)
    requires i + 1 < |cs|
  {
    Attached(cs[i], 1, WriteEnd(base + i)) && Attached(cs[i + 1], 0, ReadEnd(base + i))
  }

  // The children and the shell after run_cmd.
  ghost predicate AfterRun(shell: Table, before: Table, cs: seq<Table>, base: nat) {
    && NoPipesFrom(before, base)
    && (forall k :: 0 <= k < |cs| ==> HoldsAtMost(cs[k], before, k, base) && HoldsExactly(cs[k], before, k, |cs|, base))
    && (Open(before) ==> forall k :: 0 <= k < |cs| ==> IsAttached(cs[k], before, k, |cs|, base))
    && |cs| > 0
    && exists fd: nat :: fd !in before && shell == before[fd := ReadEnd(base + |cs| - 1)]
  }

  lemma NoWriterLeft(shell: Table, before: Table, cs: seq<Table>, base: nat, i: nat)
    requires AfterRun(shell, before, cs, base) && i < |cs|
    ensures !HasWriter([shell] + cs[i := map[]], base + i)
  {
    var without := [shell] + cs[i := map[]];
    forall p, f | 0 <= p < |without| && f in without[p]
      ensures without[p][f] != WriteEnd(base + i)
    {
      assert without[p] == if p == 0 then shell else if p == i + 1 then map[] else cs[p - 1];
    }
  }

  lemma NoReaderLeft(shell: Table, before: Table, cs: seq<Table>, base: nat, i: nat)
    requires AfterRun(shell, before, cs, base) && i + 1 < |cs|
    ensures !HasReader([shell] + cs[i + 1 := map[]], base + i)
  {
    var unread := [shell] + cs[i + 1 := map[]];
    forall p, f | 0 <= p < |unread| && f in unread[p]
      ensures unread[p][f] != ReadEnd(base + i)
    {
      assert unread[p] == if p == 0 then shell else if p == i + 2 then map[] else cs[p - 1];
    }
  }

  /** Nobody but child i can write to pipe i, so its reader sees the end of the stream once that is gone;
      and nobody but child i + 1 can read it, so child i has no reader left once that is gone. If the shell
      has 0 and 1 open, child i + 1 does read what child i writes. */
  lemma EndOfStream(shell: Table, before: Table, cs: seq<Table>, base: nat, i: nat)
    requires AfterRun(shell, before, cs, base) && i + 1 < |cs|
    ensures !HasWriter([shell] + cs[i := map[]], base + i)
    ensures !HasReader([shell] + cs[i + 1 := map[]], base + i)
    ensures Open(before) ==>
      Joined(cs, base, i) && HasWriter([shell] + cs, base + i) && HasReader([shell] + cs, base + i)
  {
    NoWriterLeft(shell, before, cs, base, i);
    NoReaderLeft(shell, before, cs, base, i);
    if Open(before) {
      assert IsAttached(cs[i], before, i, |cs|, base) && IsAttached(cs[i + 1], before, i + 1, |cs|, base);
      assert ([shell] + cs)[i + 1][1] == WriteEnd(base + i);
      assert ([shell] + cs)[i + 2][0] == ReadEnd(base + i);
    }
  }

  /** The tables of child i and of the shell after round i. */
  function Child(pick: Choice, t: Table, i: nat, n: nat, fdIn: nat, base: nat): Table {
    var fd := pick(t, base + i);
    ChildTable(WithPipe(t, fd.0, fd.1, base + i), i, n, fdIn, fd.0, fd.1)
  }

  function Parent(pick: Choice, t: Table, i: nat, fdIn: nat, base: nat): Table {
    var fd := pick(t, base + i);
    ParentTable(WithPipe(t, fd.0, fd.1, base + i), i, fdIn, fd.1)
  }

  /** The children's tables from round i on, and the shell's after the last. */
  function ChildTables(pick: Choice, t: Table, i: nat, n: nat, fdIn: nat, base: nat): seq<Table>
    decreases n - i
  {
    if i >= n then
      []
    else
      [Child(pick, t, i, n, fdIn, base)]
      + ChildTables(pick, Parent(pick, t, i, fdIn, base), i + 1, n, pick(t, base + i).0, base)
  }

  function ShellTable(pick: Choice, t: Table, i: nat, n: nat, fdIn: nat, base: nat): Table
    decreases n - i
  {
    if i >= n then
      t
    else
      ShellTable(pick, Parent(pick, t, i, fdIn, base), i + 1, n, pick(t, base + i).0, base)
  }

  // One round, after those that are done.
  lemma TablesGoOn(done: seq<Table>, pick: Choice, t: Table, i: nat, n: nat, fdIn: nat, base: nat)
      returns (c: Table, p: Table)
    requires i < n
    ensures c == Child(pick, t, i, n, fdIn, base) && p == Parent(pick, t, i, fdIn, base)
    ensures var rd := pick(t, base + i).0;
      && (done + [c]) + ChildTables(pick, p, i + 1, n, rd, base) == done + ChildTables(pick, t, i, n, fdIn, base)
      && ShellTable(pick, p, i + 1, n, rd, base) == ShellTable(pick, t, i, n, fdIn, base)
  {
    c, p := Child(pick, t, i, n, fdIn, base), Parent(pick, t, i, fdIn, base);
  }

  function Tables(ps: seq<Process>): (ts: seq<Table>)
    reads ps
    ensures |ts| == |ps| && forall i :: 0 <= i < |ps| ==> ts[i] == ps[i].fds
  {
    if ps == [] then [] else [ps[0].fds] + Tables(ps[1..])
  }

  // Children i to n - 1.
  ghost predicate WiredFrom(cs: seq<Table>, shell: Table, i: nat, n: nat, base: nat) {
    && i + |cs| == n
    && (forall k :: 0 <= k < |cs| ==>
          HoldsAtMost(cs[k], shell, i + k, base) && HoldsExactly(cs[k], shell, i + k, n, base))
    && (Open(shell) ==> forall k :: 0 <= k < |cs| ==> IsAttached(cs[k], shell, i + k, n, base))
  }

  lemma WiredFromCons(c: Table, cs: seq<Table>, shell: Table, i: nat, n: nat, base: nat)
    requires WiredFrom(cs, shell, i + 1, n, base)
    requires HoldsAtMost(c, shell, i, base) && HoldsExactly(c, shell, i, n, base)
    requires Open(shell) ==> IsAttached(c, shell, i, n, base)
    ensures WiredFrom([c] + cs, shell, i, n, base)
  {
    forall k | 0 <= k < |[c] + cs|
      ensures HoldsAtMost(([c] + cs)[k], shell, i + k, base) && HoldsExactly(([c] + cs)[k], shell, i + k, n, base)
      ensures Open(shell) ==> IsAttached(([c] + cs)[k], shell, i + k, n, base)
    {
      assert k > 0 ==> ([c] + cs)[k] == cs[k - 1] && i + k == (i + 1) + (k - 1);
    }
  }

  lemma {:induction false} RunWires(pick: Choice, t: Table, shell: Table, i: nat, n: nat, fdIn: nat, base: nat)
      returns (last: nat)
    requires NoPipesFrom(shell, base) && PicksUnused(pick)
    requires AtRound(t, shell, i, base, fdIn) && i <= n
    ensures WiredFrom(ChildTables(pick, t, i, n, fdIn, base), shell, i, n, base)
    ensures AtRound(ShellTable(pick, t, i, n, fdIn, base), shell, n, base, last)
    decreases n - i
  {
    if i < n {
      var fd := pick(t, base + i);
      var c, p := Child(pick, t, i, n, fdIn, base), Parent(pick, t, i, fdIn, base);
      RoundWires(t, WithPipe(t, fd.0, fd.1, base + i), c, p, shell, i, n, base, fdIn, fd.0, fd.1);
      last := RunWires(pick, p, shell, i + 1, n, fd.0, base);
      WiredFromCons(c, ChildTables(pick, p, i + 1, n, fd.0, base), shell, i, n, base);
    } else {
      last := fdIn;
    }
  }

  lemma WiredAfterRun(shell: Table, before: Table, cs: seq<Table>, base: nat, fd: nat)
    requires NoPipesFrom(before, base) && WiredFrom(cs, before, 0, |cs|, base)
    requires AtRound(shell, before, |cs|, base, fd)
    ensures |cs| > 0 ==> AfterRun(shell, before, cs, base)
    ensures NoPipesFrom(shell, base + |cs|)
  {
    assert forall k :: 0 <= k < |cs| ==>
      HoldsAtMost(cs[k], before, 0 + k, base) && HoldsExactly(cs[k], before, 0 + k, |cs|, base);
    if Open(before) {
      assert forall k :: 0 <= k < |cs| ==> IsAttached(cs[k], before, 0 + k, |cs|, base);
    }
  }

  lemma RunIsWired(pick: Choice, before: Table, n: nat, base: nat)
    requires NoPipesFrom(before, base) && PicksUnused(pick)
    ensures var cs, shell := ChildTables(pick, before, 0, n, 0, base), ShellTable(pick, before, 0, n, 0, base);
      && |cs| == n && NoPipesFrom(shell, base + n)
      && (if n == 0 then shell == before else AfterRun(shell, before, cs, base))
  {
    var last := RunWires(pick, before, before, 0, n, 0, base);
    var cs := ChildTables(pick, before, 0, n, 0, base);
    WiredAfterRun(ShellTable(pick, before, 0, n, 0, base), before, cs, base, last);
  }

  /** The loop of run_cmd for n commands. */
  method MakeChildren(shell: Process, n: nat, base: nat, pick: Choice) returns (children: seq<Process>)
    modifies shell
    ensures |children| == n && shell !in children && forall i :: 0 <= i < n ==> fresh(children[i])
    ensures Tables(children) == ChildTables(pick, old(shell.fds), 0, n, 0, base)
    ensures shell.fds == ShellTable(pick, old(shell.fds), 0, n, 0, base)
  {
    children := [];
    var fdIn := 0;
    ghost var all := ChildTables(pick, shell.fds, 0, n, 0, base);
    ghost var end := ShellTable(pick, shell.fds, 0, n, 0, base);
    ghost var tables: seq<Table> := [];
    for i := 0 to n
      invariant |children| == |tables| == i && shell !in children
      invariant forall k :: 0 <= k < i ==> fresh(children[k]) && children[k].fds == tables[k]
      invariant all == tables + ChildTables(pick, shell.fds, i, n, fdIn, base)
      invariant end == ShellTable(pick, shell.fds, i, n, fdIn, base)
    {
      ghost var c, p := TablesGoOn(tables, pick, shell.fds, i, n, fdIn, base);
      var child, rd := Round(shell, i, n, base, pick, fdIn);
      fdIn := rd;
      children := children + [child];
      tables := tables + [c];
    }
    assert Tables(children) == tables;
  }

  /** run_cmd for n commands. */
  method RunCmd(shell: Process, n: nat, base: nat, pick: Choice) returns (children: seq<Process>)
    requires NoPipesFrom(shell.fds, base) && PicksUnused(pick)
    modifies shell
    ensures |children| == n && shell !in children && forall i :: 0 <= i < n ==> fresh(children[i])
    ensures Tables(children) == ChildTables(pick, old(shell.fds), 0, n, 0, base)
    ensures n == 0 ==> shell.fds == old(shell.fds)
    ensures n > 0 ==> AfterRun(shell.fds, old(shell.fds), Tables(children), base)
    ensures NoPipesFrom(shell.fds, base + n)
  {
    RunIsWired(pick, shell.fds, n, base);
    children := MakeChildren(shell, n, base, pick);
  }

  lemma KeysAdded(c: Table, shell: Table, added: set<nat>)
    requires c.Keys == shell.Keys + added && shell.Keys !! added
    ensures |c| == |shell| + |added|
  {
    assert |c.Keys| == |shell.Keys| + |added|;
  }

  lemma OpenChildKeys(c: Table, shell: Table, i: nat, n: nat, base: nat) returns (prev: nat, wr: nat)
    requires Open(shell) && IsAttached(c, shell, i, n, base) && HoldsExactly(c, shell, i, n, base)
    ensures HoldsAbove(c, shell, i, base, prev, wr) && wr > 1 && (i > 0 ==> prev > 1)
    ensures c.Keys == shell.Keys + (if i > 0 then {prev, wr} else {wr})
  {
    var rd: nat;
    prev, rd, wr :| rd != wr && HoldsAbove(c, shell, i, base, prev, wr) && HasStdio(c, shell, i, n, base, prev, rd, wr);
    var added := if i > 0 then {prev, wr} else {wr};
    forall f: nat
      ensures f in c.Keys <==> f in shell.Keys + added
    {
      if f <= 1 { assert f == 0 || f == 1; }
    }
  }

  /** Each child of a shell with stdin and stdout has one descriptor more than the shell had, and each but
      the first one more: the ends that dup2 copied are not closed. So a child that closes its stdin is still
      a reader of the pipe before it, and one that closes its stdout a writer of the pipe after it. */
  lemma CopiedEndsStayOpen(shell: Table, before: Table, cs: seq<Table>, base: nat, i: nat)
    requires AfterRun(shell, before, cs, base) && Open(before) && i < |cs|
    ensures |cs[i]| == |before| + if i > 0 then 2 else 1
    ensures HasWriter([cs[i] - {1}], base + i)
    ensures i > 0 ==> HasReader([cs[i] - {0}], base + i - 1)
  {
    var prev, wr := OpenChildKeys(cs[i], before, i, |cs|, base);
    KeysAdded(cs[i], before, if i > 0 then {prev, wr} else {wr});
    assert wr in cs[i] && [cs[i] - {1}][0][wr] == WriteEnd(base + i);
    if i > 0 {
      assert prev in cs[i] && [cs[i] - {0}][0][prev] == ReadEnd(base + i - 1);
    }
  }

  /** A table with k entries more than another, all read ends, and otherwise the same. */
  ghost predicate Grown(t: Table, before: Table, k: nat) {
    && |t| == |before| + k
    && (forall f :: f in before ==> f in t && t[f] == before[f])
    && (forall f :: f in t && f !in before ==> t[f].ReadEnd?)
  }

  lemma ShellGrew(shell: Table, mid: Table, before: Table, k: nat, cs: seq<Table>, base: nat)
    requires Grown(mid, before, k) && AfterRun(shell, mid, cs, base)
    ensures Grown(shell, before, k + 1)
  {
  }

  /** How many command lines have a command. */
  function NonEmpty(lines: seq<nat>): nat {
    if lines == [] then 0 else NonEmpty(lines[..|lines| - 1]) + if lines[|lines| - 1] > 0 then 1 else 0
  }

  /** The shell's loop, with the number of commands of each line: each line with a command leaves exactly
      one more descriptor open, the read end of its last pipe, and nothing else changes. */
  method Session(shell: Process, lines: seq<nat>, base: nat, pick: Choice)
    requires NoPipesFrom(shell.fds, base) && PicksUnused(pick)
    modifies shell
    ensures Grown(shell.fds, old(shell.fds), NonEmpty(lines))
  {
    var next := base;
    ghost var before := shell.fds;
    for k := 0 to |lines|
      invariant NoPipesFrom(shell.fds, next)
      invariant Grown(shell.fds, before, NonEmpty(lines[..k]))
    {
      ghost var was := shell.fds;
      var children := RunCmd(shell, lines[k], next, pick);
      if lines[k] > 0 {
        ShellGrew(shell.fds, was, before, NonEmpty(lines[..k]), Tables(children), next);
      }
      next := next + lines[k];
      assert lines[..k + 1][..k] == lines[..k];
    }
    assert lines[..|lines|] == lines;
  }

  // ---- When 0 or 1 is closed ----

  /** Every child but the last writes to its pipe, every child but the first reads from the one before. */
  ghost predicate Connected(cs: seq<Table>, base: nat) {
    forall i: nat :: i + 1 < |cs| ==> Joined(cs, base, i)
  }

  lemma WiredIsConnected(cs: seq<Table>, shell: Table, base: nat)
    requires WiredFrom(cs, shell, 0, |cs|, base) && Open(shell)
    ensures Connected(cs, base)
  {
    forall i: nat | i + 1 < |cs|
      ensures Joined(cs, base, i)
    {
      assert IsAttached(cs[i], shell, 0 + i, |cs|, base) && IsAttached(cs[i + 1], shell, 0 + (i + 1), |cs|, base);
    }
  }

  lemma OpenIsConnected(pick: Choice, t: Table, n: nat, base: nat)
    requires NoPipesFrom(t, base) && Open(t) && PicksUnused(pick)
    ensures Connected(ChildTables(pick, t, 0, n, 0, base), base)
  {
    var last := RunWires(pick, t, t, 0, n, 0, base);
    WiredIsConnected(ChildTables(pick, t, 0, n, 0, base), t, base);
  }

  // The first rounds, spelled out.
  lemma OneRound(t: Table, i: nat, n: nat, fdIn: nat, base: nat) returns (rd: nat, wr: nat, c: Table, p: Table)
    requires i < n
    ensures NewPipe(t, rd, wr)
    ensures 0 !in t ==> rd == 0
    ensures 0 in t && 1 !in t ==> rd == 1
    ensures 0 in t && 1 in t ==> rd > 1
    ensures var u := WithPipe(t, rd, wr, base + i);
      c == ChildTable(u, i, n, fdIn, rd, wr) && p == ParentTable(u, i, fdIn, wr)
    ensures ChildTables(LowestPair, t, i, n, fdIn, base) == [c] + ChildTables(LowestPair, p, i + 1, n, rd, base)
  {
    var fd := LowestPair(t, base + i);
    rd, wr := fd.0, fd.1;
    var u := WithPipe(t, rd, wr, base + i);
    c := ChildTable(u, i, n, fdIn, rd, wr);
    p := ParentTable(u, i, fdIn, wr);
  }

  lemma {:induction false} RunLength(pick: Choice, t: Table, i: nat, n: nat, fdIn: nat, base: nat)
    requires i <= n
    ensures |ChildTables(pick, t, i, n, fdIn, base)| == n - i
    decreases n - i
  {
    if i < n {
      RunLength(pick, Parent(pick, t, i, fdIn, base), i + 1, n, pick(t, base + i).0, base);
    }
  }

  // With 0 open and 1 closed the first child loses its stdout.
  lemma StdoutClosed(t: Table, n: nat, base: nat)
    requires 0 in t && 1 !in t && n >= 2
    ensures !Connected(ChildTables(LowestPair, t, 0, n, 0, base), base)
  {
    var rd, wr, c, p := OneRound(t, 0, n, 0, base);
    RunLength(LowestPair, t, 0, n, 0, base);
    assert !Joined(ChildTables(LowestPair, t, 0, n, 0, base), base, 0);
  }

  // With 0 closed the first round still connects the first child, and the shell's 0 is then the pipe.
  lemma StdinClosedFirst(t: Table, n: nat, base: nat, wr: nat, c: Table, p: Table)
    requires 0 !in t && wr !in t && wr != 0 && n >= 2
    requires c == ChildTable(WithPipe(t, 0, wr, base), 0, n, 0, 0, wr)
    requires p == ParentTable(WithPipe(t, 0, wr, base), 0, 0, wr)
    ensures Attached(c, 1, WriteEnd(base)) && Attached(p, 0, ReadEnd(base)) && (1 in p <==> 1 in t)
  {
  }

  // The second round reads it from there; and either 1 is taken for the next pipe, or 0 is free again.
  lemma StdinClosedSecond(t: Table, n: nat, base: nat, rd: nat, wr: nat, c: Table, p: Table)
    requires Attached(t, 0, ReadEnd(base)) && n >= 2
    requires NewPipe(t, rd, wr) && (1 !in t ==> rd == 1)
    requires c == ChildTable(WithPipe(t, rd, wr, base + 1), 1, n, 0, rd, wr)
    requires p == ParentTable(WithPipe(t, rd, wr, base + 1), 1, 0, wr)
    ensures Attached(c, 0, ReadEnd(base)) && (if 1 in t then 0 !in p else 1 !in c)
  {
  }

  // What is known of the first three children, whatever follows.
  lemma FirstThree(cs: seq<Table>, c0: Table, c1: Table, rest: seq<Table>, base: nat)
    requires cs == [c0] + ([c1] + rest)
    requires Attached(c0, 1, WriteEnd(base)) && Attached(c1, 0, ReadEnd(base))
    requires rest != [] ==> 1 !in c1 || 0 !in rest[0]
    ensures Connected(cs, base) <==> rest == []
  {
    assert cs[0] == c0 && cs[1] == c1;
    if rest != [] {
      assert cs[2] == rest[0];
      assert !Joined(cs, base, 1);
    } else {
      forall i: nat | i + 1 < |cs|
        ensures Joined(cs, base, i)
      {
        assert i == 0;
      }
    }
  }

  lemma StdinClosedThird(t: Table, n: nat, fdIn: nat, base: nat)
    requires 0 !in t && n > 2
    ensures ChildTables(LowestPair, t, 2, n, fdIn, base) != [] && 0 !in ChildTables(LowestPair, t, 2, n, fdIn, base)[0]
  {
    var rd, wr, c, p := OneRound(t, 2, n, fdIn, base);
  }

  // With 0 closed two commands are connected, more are not.
  lemma StdinClosed(t: Table, n: nat, base: nat)
    requires 0 !in t && n >= 2
    ensures Connected(ChildTables(LowestPair, t, 0, n, 0, base), base) <==> n == 2
  {
    var rd0, wr0, c0, p0 := OneRound(t, 0, n, 0, base);
    StdinClosedFirst(t, n, base, wr0, c0, p0);
    var rd1, wr1, c1, p1 := OneRound(p0, 1, n, 0, base);
    StdinClosedSecond(p0, n, base, rd1, wr1, c1, p1);
    var rest := ChildTables(LowestPair, p1, 2, n, rd1, base);
    RunLength(LowestPair, p1, 2, n, rd1, base);
    if n > 2 && 1 in p0 {
      StdinClosedThird(p1, n, rd1, base);
    }
    FirstThree(ChildTables(LowestPair, t, 0, n, 0, base), c0, c1, rest, base);
  }

  /** When pipe picks the lowest unused numbers, the commands are connected exactly if there are fewer than
      two, or the shell has 0 and 1 open, or there are two and the shell has 0 closed. */
  lemma ConnectedIff(t: Table, n: nat, base: nat)
    requires NoPipesFrom(t, base)
    ensures Connected(ChildTables(LowestPair, t, 0, n, 0, base), base) <==>
      n <= 1 || (0 in t && 1 in t) || (n == 2 && 0 !in t)
  {
    RunLength(LowestPair, t, 0, n, 0, base);
    if n >= 2 {
      if 0 !in t {
        StdinClosed(t, n, base);
      } else if 1 !in t {
        StdoutClosed(t, n, base);
      } else {
        OpenIsConnected(LowestPair, t, n, base);
      }
    }
  }
}
