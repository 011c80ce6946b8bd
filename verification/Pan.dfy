/** pan/ltp-pan.c: the scheduler, its slots, its start budget, its orphan list, and the zoo
    file that mirrors them.

    `fork`, `wait`, `kill`, `lrand48`, the stop file and the arrival of signals are the
    environment's: their answers are parameters, and nothing is assumed of them beyond their
    types unless a contract says so.  The zoo file has no other writer. */
module Pan {
  import opened Ratchet
  import Z = Zoo
  import opened Arith
  import opened PanSlots
  import opened PanStory

  /** The set-up of the zoo in `main`, whatever lines the file has already: pan's own line, then
      keep_active lines marked and cleared again so that there is room for them. */
  method OpenZoo(g: Config, zoo: Z.ZooFile) returns (missing: nat)
    requires ConfigOk(g) && zoo.Valid()
    modifies zoo
    ensures zoo.Valid() && missing == 0
    ensures Z.Live(Z.Lines(zoo.file)) == old(Z.Live(Z.Lines(zoo.file))) + multiset{g.panPid}
  {
    hide Z.Lines, Z.Live, Z.Tidy, Range;
    zoo.MarkCmdline(g.panPid, g.panName, g.panArgs);
    ghost var lines := Z.Live(Z.Lines(zoo.file));
    RangeEnds(0, 0);
    for n := 0 to g.keepActive
      invariant zoo.Valid() && Z.Live(Z.Lines(zoo.file)) == lines + Range(0, n)
    {
      zoo.MarkCmdline(n, g.panName, "");
      RangeEnds(0, n);
    }
    missing := 0;
    for n := 0 to g.keepActive
      invariant zoo.Valid() && Z.Live(Z.Lines(zoo.file)) == lines + Range(n, g.keepActive)
      invariant missing == 0
    {
      RangeEnds(n, g.keepActive);
      DropOne(lines, Range(n, g.keepActive), n);
      var r := zoo.Clear(n);
      missing := missing + r;
    }
    RangeEnds(g.keepActive, g.keepActive);
  }

  class Scheduler {
    const g: Config
    const running: array<Slot>
    const zoo: Z.ZooFile
    var orphans: seq<Z.pid_t>  // the head of the list is always there
    var numActive: int
    var starts: int
    var c: nat
    var stop: nat
    var goIdle: nat
    var forkInRoad: bool
    var exitStat: nat
    var sig: Ratchet
    var notFound: nat       // how often zoo_clear did not find its pid
    var aborts: nat         // how often no free slot was found
    ghost var sent: seq<(int, int)>  // every signal sent to a group on or about to go on the orphan list
    ghost const budget: int
    ghost var attempts: seq<nat>     // the commands run_child was called for
    ghost var started: nat           // the children it started
    ghost var story: seq<Happening>     // what fork and wait have answered
    ghost var at: seq<multiset<int>>    // the groups tracked when each answer came
    ghost const others: multiset<int>   // the live lines that were in the zoo before

    constructor (g: Config, timed: bool, starts: int, forkInRoad: bool, zoo: Z.ZooFile)
      requires ConfigOk(g) && zoo.Valid()
      modifies zoo
      ensures Inv() && fresh(running) && this.zoo == zoo && this.g == g && others == old(Z.Live(Z.Lines(zoo.file)))
      ensures budget == InitialStarts(timed, starts, g.sequential, |g.commands|, g.keepActive)
      ensures attempts == [] && story == [] && numActive == 0 && this.starts == budget
      ensures this.forkInRoad == forkInRoad && sig == INITIAL && goIdle == 0 && stop == 0
    {
      hide Z.Lines, Z.Live, Z.Tidy, Nonzero, Groups;
      this.g := g;
      this.starts := InitialStarts(timed, starts, g.sequential, |g.commands|, g.keepActive);
      budget := InitialStarts(timed, starts, g.sequential, |g.commands|, g.keepActive);
      this.forkInRoad := forkInRoad;
      orphans, numActive, c, stop, goIdle, exitStat, aborts := [0], 0, 0, 0, 0, 0, 0;
      sig, sent, attempts, started, story, at := INITIAL, [], [], 0, [], [];
      running := new Slot[g.keepActive](_ => Slot(0, false, 0));
      others := Z.Live(Z.Lines(zoo.file));
      var missing := OpenZoo(g, zoo);
      this.zoo, notFound := zoo, missing;
      new;
      JustPan(g.panPid);
      AllFree(running[..]);
      AllZero(orphans);
      assert Shape() && Budgeted();
      assert Mirror() && Counted() && Unique();
    }

    ghost predicate Shape()
      reads this`orphans, this`c, this`sig, running, zoo
    {
      && ConfigOk(g) && running.Length == g.keepActive && |orphans| > 0 && c < |g.commands| && zoo.Valid() && Sound(sig)
      && forall i :: 0 <= i < running.Length ==> running[i].cmd < |g.commands|
    }

    /** Every process group pan keeps track of, and pan itself. */
    ghost function Tracked(): multiset<int>
      reads this`orphans, running
    {
      multiset{g.panPid} + Groups(running[..]) + Nonzero(orphans)
    }

    /** The live lines of the zoo are those that were there before and one for each tracked
        group, so no clear ever fails. */
    ghost predicate Mirror()
      reads this`orphans, this`notFound, running, zoo
    {
      Z.Live(Z.Lines(zoo.file)) == others + Tracked() && notFound == 0
    }

    /** The slots hold the children forked and not reported since; while wait is orderly,
        num_active counts them and a free slot is found whenever one is looked for. */
    ghost predicate Counted()
      reads this`story, this`numActive, this`aborts, running
    {
      Groups(running[..]) == Occupied(story) &&
      (OrderlyRun(story) ==> numActive == |Groups(running[..])| && aborts == 0)
    }

    /** Every tracked group was forked; while fork gives fresh pids each is tracked once. */
    ghost predicate Unique()
      reads this`story, this`at, this`orphans, running
    {
      UniqueIn(story, at, g.panPid, Tracked())
    }

    /** What was started, and the budget it was charged to. */
    ghost predicate Budgeted()
      reads this`starts, this`attempts, this`started, this`c
    {
      && |g.commands| > 0
      && (budget == -1 || budget >= 0)
      && (budget == -1 ==> starts == -1)
      && (budget >= 0 ==> starts >= 0 && starts + (if g.sequential then |attempts| else started) == budget)
      && (g.sequential ==> InOrder(attempts, |g.commands|) && c == |attempts| % |g.commands|)
    }

    /** Attempts and children are those of the story. */
    ghost predicate Tallied()
      reads this`story, this`attempts, this`started
    {
      |attempts| == Tried(story) && started == Born(story)
    }

    ghost predicate Inv()
      reads this, running, zoo
    {
      Shape() && Mirror() && Counted() && Unique() && Budgeted() && Tallied()
    }

    /** No signal is pending, pan does not idle, and stops only for want of budget. */
    ghost predicate Calm()
      reads this`sig, this`goIdle, this`stop, this`starts
    {
      sig.rec == 0 && goIdle == 0 && (stop > 0 ==> starts == 0)
    }

    /** An orphaned group turns out to be empty: its line is cleared and its entry freed. */
    method ForgetOrphan(i: nat)
      requires Mirror() && zoo.Valid() && i < |orphans| && orphans[i] != 0
      modifies this`orphans, this`notFound, zoo
      ensures Mirror() && zoo.Valid() && orphans == old(orphans)[i := 0]
      ensures Nonzero(orphans) <= old(Nonzero(orphans))
    {
      hide Z.Lines, Z.Live, Z.Tidy, Nonzero, Groups;
      NonzeroUpdate(orphans, i, 0);
      DropOne(multiset{g.panPid} + Groups(running[..]), Nonzero(orphans), orphans[i]);
      DropOne(others, Tracked(), orphans[i]);
      var r := zoo.Clear(orphans[i]);
      notFound := notFound + r;
      orphans := orphans[i := 0];
    }

    lemma UniqueKept(was: multiset<int>, held: bool)
      requires Tracked() <= was && (held ==> UniqueIn(story, at, g.panPid, was))
      ensures held ==> Unique()
    {
      FewerUnique(story, at, g.panPid, was, Tracked());
    }

    lemma InTracked(i: nat)
      requires i < running.Length && running[i].pgrp != 0
      ensures running[i].pgrp in Tracked()
    {
      GroupsUpdate(running[..], i, running[i]);
    }

    /** `check_orphans`: every group on the list is sent the signal; those that are empty are
        taken off the list and off the zoo. */
    method CheckOrphans(signal: int, gone: set<nat>)
      requires Shape() && Mirror()
      modifies this`orphans, this`notFound, this`sent, zoo
      ensures Shape() && Mirror()
      ensures orphans == Reap(old(orphans), gone) && sent == old(sent) + KillLog(old(orphans), signal)
      ensures Nonzero(orphans) <= old(Nonzero(orphans)) && (old(Unique()) ==> Unique())
    {
      hide Reap, KillLog, Z.Tidy, Z.Lines, Z.Live, Nonzero, Groups;
      ghost var was, log := orphans, sent;
      ReapNone(was, gone);
      for i := 0 to |orphans|
        invariant zoo.Valid() && Mirror() && |orphans| == |was| && Nonzero(orphans) <= Nonzero(was)
        invariant orphans == Reap(was[..i], gone) + was[i..]
        invariant sent == log + KillLog(was[..i], signal)
      {
        KillLogStep(was, i, signal);
        ReapStep(was, i, gone);
        if orphans[i] != 0 {
          sent := sent + [(orphans[i], signal)];
          if i in gone {
            ForgetOrphan(i);
          }
        }
      }
      assert was[..|was|] == was;
      StillBelow(multiset{g.panPid} + Groups(running[..]), Nonzero(orphans), Nonzero(was));
      UniqueKept(old(Tracked()), old(Unique()));
    }

    /** `mark_orphan`. */
    method MarkOrphan(p: Z.pid_t)
      requires |orphans| > 0
      modifies this`orphans
      ensures orphans == Adopt(old(orphans), p)
    {
      var k := 0;
      while k < |orphans| && orphans[k] != 0
        invariant k <= |orphans| && forall i :: 0 <= i < k ==> orphans[i] != 0
      {
        k := k + 1;
      }
      FirstZeroIs(orphans, k);
      if k < |orphans| {
        orphans := orphans[k := p];
      } else {
        orphans := orphans[..1] + [p] + orphans[1..];
      }
    }

    /** Signals arriving: `wait_handler` for each. */
    method Deliver(signals: seq<int>)
      requires Sound(sig) && AllCaught(signals)
      modifies this`sig
      ensures Sound(sig) && sig == Delivered(old(sig), signals)
    {
      hide Sound, Handle;
      for i := 0 to |signals|
        invariant Sound(sig) && sig == Delivered(old(sig), signals[..i])
      {
        assert signals[..i + 1][..i] == signals[..i];
        SoundStep(sig, Caught(signals[i]));
        sig := Handle(sig, signals[i]);
      }
      assert signals[..|signals|] == signals;
    }

    /** `propagate_signal`: every occupied slot is marked as stopping, every orphaned group is
        sent the pending signal, and the ratchet is flushed. */
    method PropagateSignal(gone: set<nat>)
      requires Shape() && Mirror()
      modifies this`orphans, this`notFound, this`sent, this`sig, running, zoo
      ensures Shape() && Mirror() && Groups(running[..]) == old(Groups(running[..]))
      ensures orphans == Reap(old(orphans), gone) && sent == old(sent) + KillLog(old(orphans), old(sig.send))
      ensures (old(Unique()) ==> Unique()) && sig == Flush(old(sig))
      ensures forall i :: 0 <= i < running.Length ==> running[i] == Flagged(old(running[i]))
    {
      hide Z.Tidy, Z.Lines, Z.Live, Nonzero, Groups, KillLog, Reap, Sound, UniqueIn, ConfigOk;
      ghost var was := running[..];
      SoundStep(sig, AlarmIsTerm);
      sig := Apply(sig, AlarmIsTerm);
      for i := 0 to running.Length
        modifies running
        invariant forall j :: 0 <= j < running.Length ==> running[j] == if j < i then Flagged(was[j]) else was[j]
      {
        if running[i].pgrp != 0 {
          running[i] := running[i].(stopping := true);
        }
      }
      SameGroups(running[..], was);
      CheckOrphans(sig.send, gone);
      SoundStep(sig, Flushed([]));
      sig := Flush(sig);
    }

    /** The slot of a reaped child is freed and its line cleared. */
    method FreeSlot(i: nat)
      requires Shape() && Mirror() && i < running.Length && running[i].pgrp != 0
      modifies this`notFound, running, zoo
      ensures Shape() && Mirror()
      ensures Groups(running[..]) == old(Groups(running[..])) - multiset{old(running[i].pgrp)}
      ensures Tracked() == old(Tracked()) - multiset{old(running[i].pgrp)}
      ensures running[..] == old(running[..])[i := old(running[i]).(pgrp := 0)]
    {
      hide Z.Tidy, Z.Lines, Z.Live, Nonzero, Groups;
      var cpid := running[i].pgrp;
      GroupsUpdate(running[..], i, running[i].(pgrp := 0));
      MoveOne(multiset{g.panPid}, Groups(running[..]), Nonzero(orphans), cpid);
      DropOne(others, Tracked(), cpid);
      running[i] := running[i].(pgrp := 0);
      var r := zoo.Clear(cpid);
      notFound := notFound + r;
    }

    /** A group that outlives its leader becomes an orphan with a line of its own. */
    method AddOrphan(cpid: Z.pid_t, cmdline: string)
      requires Shape() && Mirror() && cpid != 0 && Z.NewlineFree(cmdline)
      modifies this`orphans, zoo
      ensures Shape() && Mirror() && orphans == Adopt(old(orphans), cpid)
      ensures Tracked() == old(Tracked()) + multiset{cpid}
    {
      hide Z.Tidy, Z.Lines, Z.Live, Nonzero, Groups, Adopt;
      AdoptAdds(orphans, cpid);
      JoinOne(others, Tracked(), cpid);
      zoo.MarkCmdline(cpid, "panorphan", cmdline);
      MarkOrphan(cpid);
    }

    /** The part of `check_pids` after the child's slot was found. */
    method ReleaseSlot(i: nat, groupLeft: bool)
      requires Shape() && Mirror() && i < running.Length && running[i].pgrp != 0
      modifies this`orphans, this`notFound, this`sent, running, zoo
      ensures Shape() && Mirror()
      ensures old(Unique()) ==> Unique()
      ensures Groups(running[..]) == old(Groups(running[..])) - multiset{old(running[i].pgrp)}
      ensures old(running[i].pgrp) in old(Groups(running[..]))
      ensures running[..] == old(running[..])[i := old(running[i]).(pgrp := 0)]
      ensures orphans == if groupLeft then Adopt(old(orphans), old(running[i].pgrp)) else old(orphans)
      ensures sent == old(sent) + if groupLeft then [(old(running[i].pgrp), SIGTERM)] else []
    {
      hide Z.Tidy, Z.Lines, Z.Live, Nonzero, Groups, Adopt, Mirror, Tracked, UniqueIn;
      var cpid := running[i].pgrp;
      GroupsUpdate(running[..], i, running[i].(pgrp := 0));
      ghost var t := Tracked();
      InTracked(i);
      FreeSlot(i);
      if groupLeft {
        AddOrphan(cpid, g.commands[running[i].cmd].cmdline);
        sent := sent + [(cpid, SIGTERM)];
      }
      PutBack(t, cpid);
      UniqueKept(t, old(Unique()));
    }

    /** The slot loops: the first slot holding p, or keep_active. */
    method FindSlot(p: Z.pid_t) returns (i: nat)
      ensures i == SlotOf(running[..], p)
    {
      i := 0;
      while i < running.Length && running[i].pgrp != p
        invariant i <= running.Length && forall j :: 0 <= j < i ==> running[j].pgrp != p
      {
        i := i + 1;
      }
      SlotOfIs(running[..], p, i);
    }

    /** The answer of wait goes into the story. */
    ghost method Hear(w: WaitResult)
      requires Unique() && Tallied()
      modifies this`story, this`at
      ensures Unique() && Tallied() && story == old(story) + [Waited(w)]
      ensures Occupied(story) ==
        if w.Reaped? && w.pid != 0 then Occupied(old(story)) - multiset{w.pid} else Occupied(old(story))
      ensures OrderlyRun(story) <==> OrderlyRun(old(story)) && Orderly(w, Occupied(old(story)))
    {
      hide Tracked, UniqueIn, Occupied, OrderlyRun;
      ToldWait(story, at, g.panPid, Tracked(), w);
      OneMoreTold(story, Waited(w));
      story, at := story + [Waited(w)], at + [Tracked()];
    }

    /** `check_pids` once wait has returned a pid. */
    method HandleReaped(w: WaitResult, groupLeft: bool) returns (ret: int)
      requires Inv() && w.Reaped? && w.pid != 0
      modifies this`orphans, this`notFound, this`sent, this`numActive, this`story, this`at, running, zoo
      ensures Inv() && story == old(story) + [Waited(w)]
      ensures numActive == old(numActive) - (if w.Reaped? && w.pid != 0 && Ended(w.status) then 1 else 0)
      ensures old(numActive == |Groups(running[..])|) ==>
        (numActive == |Groups(running[..])| <==> Orderly(w, old(Groups(running[..]))))
      ensures ret == Result(w, old(running[..]))
    {
      hide Z.Tidy, Z.Lines, Z.Live, Nonzero, Groups, Adopt, Mirror, Shape, Tracked, SlotOf, InOrder, Unique,
        Occupied, OrderlyRun, Tallied;
      SlotOfFound(running[..], w.pid);
      Hear(w);
      if Ended(w.status) {
        numActive := numActive - 1;
      }
      var i := FindSlot(w.pid);
      if i < running.Length {
        assert running[..][i] == running[i];
        ret := Verdict(w.status, true, running[i].stopping);
        ReleaseSlot(i, groupLeft);
      } else {
        NotThere(Groups(running[..]), w.pid);
        ret := Verdict(w.status, false, false);
      }
    }

    /** `check_pids`: num_active keeps counting the occupied slots exactly when wait reports no
        child, the end of a known one, or something else of an unknown one. */
    method CheckPids(w: WaitResult, probed: set<nat>, groupLeft: bool) returns (ret: int)
      requires Inv()
      modifies this`orphans, this`notFound, this`sent, this`numActive, this`story, this`at, running, zoo
      ensures Inv() && story == old(story) + [Waited(w)]
      ensures numActive == old(numActive) - (if w.Reaped? && w.pid != 0 && Ended(w.status) then 1 else 0)
      ensures old(numActive == |Groups(running[..])|) ==>
        (numActive == |Groups(running[..])| <==> Orderly(w, old(Groups(running[..]))))
      ensures ret == Result(w, old(running[..]))
    {
      hide Z.Tidy, Z.Lines, Z.Live, Nonzero, Groups, Mirror, Shape, Reap, KillLog, InOrder, Tracked, Unique,
        Occupied, OrderlyRun, Tallied;
      CheckOrphans(0, probed);
      if w.NoChild? || w.pid == 0 {
        Hear(w);
        return 0;
      }
      ret := HandleReaped(w, groupLeft);
    }

    /** The slot effects of `run_child` when the child was started ... */
    method OccupySlot(i: nat, pid: Z.pid_t)
      requires Shape() && Mirror() && i < running.Length && running[i].pgrp == 0 && pid != 0
      modifies running, zoo
      ensures Shape() && Mirror() && Tracked() == old(Tracked()) + One(pid)
      ensures Groups(running[..]) == old(Groups(running[..])) + One(pid)
      ensures running[..] == old(running[..])[i := Slot(pid, false, c)]
    {
      hide Z.Tidy, Z.Lines, Z.Live, Nonzero, Groups;
      ghost var groups := Groups(running[..]);
      GroupsUpdate(running[..], i, Slot(pid, false, c));
      AddOne(multiset{g.panPid}, groups, Nonzero(orphans), pid);
      JoinOne(others, Tracked(), pid);
      running[i] := Slot(pid, false, c);
      zoo.MarkCmdline(pid, g.commands[c].name, g.commands[c].cmdline);
    }

    /** ... and when it was not. */
    method LeaveSlot(i: nat)
      requires Shape() && Mirror() && i < running.Length
      modifies running
      ensures Shape() && Mirror() && Tracked() == old(Tracked()) && Groups(running[..]) == old(Groups(running[..]))
      ensures running[..] == old(running[..])[i := old(running[i]).(cmd := c)]
    {
      hide Z.Tidy, Z.Lines, Z.Live, Nonzero, Groups;
      ghost var was := running[..];
      running[i] := running[i].(cmd := c);
      SameGroups(was, running[..]);
    }

    /** `run_child` in slot i: a pid of 0 means the child could not be started. */
    method RunChild(i: nat, pid: Z.pid_t)
      requires Shape() && Mirror() && Unique() && Tallied() && i < running.Length && running[i].pgrp == 0
      modifies this`attempts, this`started, this`story, this`at, running, zoo
      ensures Shape() && Mirror() && Unique() && Tallied()
      ensures attempts == old(attempts) + [c] && started == old(started) + (if pid == 0 then 0 else 1)
      ensures story == old(story) + [Forked(pid)] && at == old(at) + [old(Tracked())]
      ensures Groups(running[..]) == old(Groups(running[..])) + One(pid)
      ensures running[..] == old(running[..])[i := if pid == 0 then old(running[i]).(cmd := c) else Slot(pid, false, c)]
    {
      hide Z.Tidy, Z.Lines, Z.Live, Nonzero, Groups, Once, Shape, Mirror, Tracked, One, UniqueIn;
      ghost var t := Tracked();
      ToldFork(story, at, g.panPid, t, pid);
      OneMoreTold(story, Forked(pid));
      OnceMore(t, pid);
      attempts := attempts + [c];
      if pid == 0 {
        LeaveSlot(i);
      } else {
        started := started + 1;
        OccupySlot(i, pid);
      }
      story, at := story + [Forked(pid)], at + [t];
    }

    /** Starting a child in free slot i, and what main charges for it. */
    method StartIn(i: nat, pid: Z.pid_t)
      requires Inv() && starts != 0 && i < running.Length && running[i].pgrp == 0
      modifies this`c, this`attempts, this`started, this`story, this`at, this`numActive, this`starts, running, zoo
      ensures Inv() && attempts == old(attempts) + [old(c)] && story == old(story) + [Forked(pid)]
      ensures numActive == old(numActive) + (if pid == 0 then 0 else 1)
      ensures starts == Charged(old(starts), pid != 0, g.sequential)
      ensures running[i] == if pid == 0 then old(running[i]).(cmd := old(c)) else Slot(pid, false, old(c))
      ensures forall j :: 0 <= j < running.Length && j != i ==> running[j] == old(running[j])
    {
      hide Z.Tidy, Z.Lines, Z.Live, Nonzero, Groups, Once, Mirror, Tracked, One, SlotOf, InOrder, Unique, ConfigOk,
        Sound, Occupied, OrderlyRun, Tallied;
      GroupsGrow(Groups(running[..]), pid);
      AttemptNext(attempts, c, |g.commands|);
      OneForked(story, pid);
      RunChild(i, pid);
      if pid != 0 {
        numActive := numActive + 1;
      }
      Charge(pid);
    }

    /** A start has been made that main has not charged yet. */
    ghost predicate Owing(pid: Z.pid_t)
      reads this`starts, this`attempts, this`started, this`c
    {
      && |g.commands| > 0 && starts != 0 && (budget == -1 || budget >= 0) && (budget == -1 ==> starts == -1)
      && (budget >= 0 ==> starts >= 0)
      && (budget >= 0 ==>
            starts + (if g.sequential then |attempts| else started) ==
            budget + (if pid != 0 || g.sequential then 1 else 0))
      && (g.sequential ==> InOrder(attempts, |g.commands|) && c < |g.commands|)
      && (g.sequential ==> |attempts| % |g.commands| == if c + 1 >= |g.commands| then 0 else c + 1)
    }

    /** What main charges for a start, and the next command. */
    method Charge(pid: Z.pid_t)
      requires Owing(pid) && c < |g.commands|
      modifies this`starts, this`c
      ensures Budgeted() && c < |g.commands|
      ensures starts == Charged(old(starts), pid != 0, g.sequential)
    {
      hide InOrder;
      if (pid != 0 || g.sequential) && starts > 0 {
        starts := starts - 1;
      }
      if g.sequential {
        c := c + 1;
        if c >= |g.commands| {
          c := 0;
        }
      }
    }

    /** One turn of the loop that starts children, after its stop test. */
    method StartOne(draw: nat, pid: Z.pid_t) returns (more: bool)
      requires Inv() && numActive < g.keepActive && starts != 0
      modifies this`c, this`attempts, this`started, this`story, this`at, this`aborts, this`sig, this`exitStat
      modifies this`numActive, this`starts, running, zoo
      ensures Inv() && (more ==> |attempts| == |old(attempts)| + 1) && old(attempts) <= attempts
      ensures story == old(story) + (if more then [Forked(pid)] else [])
      ensures more ==> numActive == old(numActive) + (if pid == 0 then 0 else 1)
      ensures more ==> starts == Charged(old(starts), pid != 0, g.sequential) && sig == old(sig)
      ensures OrderlyRun(old(story)) ==> more
      ensures !more ==> sig == Handle(old(sig), SIGINT) && attempts == old(attempts) && starts == old(starts)
      ensures more && !g.sequential ==> attempts[|old(attempts)|] == draw % |g.commands|
    {
      hide Z.Tidy, Z.Lines, Z.Live, Nonzero, Groups, Once, Mirror, Tracked, SlotOf, InOrder, Unique, Occupied,
        OrderlyRun, Sound, Handle, Charged, Tallied;
      if !g.sequential {
        c := draw % |g.commands|;
      }
      FreeSlotFound(running[..]);
      var i := FindSlot(0);
      if i == g.keepActive {
        aborts := aborts + 1;
        SoundStep(sig, Caught(SIGINT));
        sig := Handle(sig, SIGINT);
        exitStat := exitStat + 1;
        return false;
      }
      assert running[..][i] == running[i];
      StartIn(i, pid);
      return true;
    }

    /** One turn of the loop that starts children.  It ends the loop if pan stops or idles, if a
        signal has been received, or if there is no free slot. */
    method StartStep(e: StartEnv) returns (more: bool)
      requires Inv() && numActive < g.keepActive && starts != 0 && AllCaught(e.signals)
      modifies this`c, this`attempts, this`started, this`story, this`at, this`aborts, this`sig, this`exitStat
      modifies this`numActive, this`starts, running, zoo
      ensures Inv() && old(attempts) <= attempts && story == old(story) + (if more then [Forked(e.pid)] else [])
      ensures more ==> numActive == old(numActive) + (if e.pid == 0 then 0 else 1)
      ensures more ==> starts == Charged(old(starts), e.pid != 0, g.sequential)
      ensures !more ==> (stop > 0 || sig.rec != 0 || goIdle > 0) && attempts == old(attempts) && starts == old(starts)
      ensures old(sig.rec) != 0 ==> !more && sig.rec != 0
      ensures old(Calm()) && e.signals == [] && OrderlyRun(old(story)) ==> more && Calm()
    {
      hide Mirror, Counted, Unique, Budgeted, OrderlyRun, Sound, Tallied, Charged, Handle, AllCaught;
      StillReceived(sig, e.signals);
      Deliver(e.signals);
      if stop > 0 || sig.rec != 0 || goIdle > 0 {
        return false;
      }
      Interrupted(sig);
      more := StartOne(e.draw, e.pid);
    }

    /** The loop that starts children.  It ends as in the source, or when the environment has no more
        answers: then this is the prefix of a run.  In a calm and orderly run the free slots and the
        budget decide how many children are started. */
    method StartChildren(envs: seq<StartEnv>) returns (ghost n: nat)
      requires Inv() && forall i :: 0 <= i < |envs| ==> AllCaught(envs[i].signals)
      modifies this`c, this`attempts, this`started, this`story, this`at, this`aborts, this`sig, this`exitStat
      modifies this`numActive, this`starts, running, zoo
      ensures Inv() && old(attempts) <= attempts && n <= |envs| && story == old(story) + Forks(envs[..n])
      ensures n == |envs| || numActive >= g.keepActive || starts == 0 || stop > 0 || sig.rec != 0 || goIdle > 0
      ensures old(sig.rec) != 0 ==> sig.rec != 0 && n == 0 && attempts == old(attempts) && starts == old(starts)
      ensures old(Calm()) && NoSignals(envs) && OrderlyRun(old(story)) ==>
        Calm() && n == Consumed(envs, g.keepActive - old(numActive), old(starts), g.sequential)
    {
      hide Inv, Calm, OrderlyRun, Charged, Consumed, AllCaught, Occupied;
      var k: nat := 0;
      n := 0;
      ghost var calm := Calm() && NoSignals(envs) && OrderlyRun(story);
      ghost var all := Consumed(envs, g.keepActive - numActive, starts, g.sequential);
      assert old(story) + Forks(envs[..0]) == old(story) && envs[0..] == envs;
      while k < |envs| && numActive < g.keepActive && starts != 0
        invariant Inv() && old(attempts) <= attempts && n == k <= |envs| && story == old(story) + Forks(envs[..k])
        invariant old(sig.rec) != 0 ==> sig.rec != 0 && k == 0 && attempts == old(attempts) && starts == old(starts)
        invariant calm ==> Calm() && OrderlyRun(story)
        invariant calm ==> k + Consumed(envs[k..], g.keepActive - numActive, starts, g.sequential) == all
      {
        ConsumedStep(envs, k, g.keepActive - numActive, starts, g.sequential);
        OneMoreFork(envs, k, old(story));
        OneForked(story, envs[k].pid);
        var more := StartStep(envs[k]);
        if !more {
          break;
        }
        k := k + 1;
        n := n + 1;
      }
      ConsumedEnd(envs, k, g.keepActive - numActive, starts, g.sequential);
    }

    /** The part of the main loop that acts on a received signal. */
    method ActOnSignal(gone: set<nat>)
      requires Inv()
      modifies this`orphans, this`notFound, this`sent, this`sig, this`stop, this`goIdle, this`forkInRoad, running, zoo
      ensures Inv() && sig == Flush(old(sig))
      ensures forkInRoad == (old(forkInRoad) && old(sig.rec) != SIGUSR1)
      ensures goIdle == old(goIdle) + (if old(sig.rec) != 0 && forkInRoad then 1 else 0)
      ensures stop == old(stop) + (if old(sig.rec) != 0 && !forkInRoad then 1 else 0)
      ensures if old(sig.rec) == 0 || old(sig.rec) == SIGUSR2 then sent == old(sent) && orphans == old(orphans)
              else sent == old(sent) + KillLog(old(orphans), old(sig.send)) && orphans == Reap(old(orphans), gone)
    {
      hide Z.Tidy, Z.Lines, Z.Live, Nonzero, Groups, Mirror, Budgeted, Unique, Reap, KillLog, Occupied, OrderlyRun,
        ConfigOk, Sound, Tallied;
      NothingPending(sig);
      if sig.rec != 0 {
        if sig.rec == SIGUSR2 {
          if forkInRoad { goIdle := goIdle + 1; } else { stop := stop + 1; }
          SoundStep(sig, Flushed([]));
          sig := Flush(sig);
        } else {
          if sig.rec == SIGUSR1 { forkInRoad := false; }
          PropagateSignal(gone);
          if forkInRoad { goIdle := goIdle + 1; } else { stop := stop + 1; }
        }
      }
    }

    /** What main does with the result of check_pids. */
    method NoteFailure(err: int)
      requires Inv()
      modifies this`goIdle, this`exitStat, this`sig
      ensures Inv()
      ensures goIdle == old(goIdle) + (if err != 0 && forkInRoad then 1 else 0)
      ensures exitStat == old(exitStat) + (if err != 0 && g.trackExit then 1 else 0)
      ensures sig == if err != 0 && g.hasBrakes then Handle(old(sig), SIGINT) else old(sig)
    {
      hide Mirror, Counted, Budgeted, Unique;
      if err != 0 {
        if forkInRoad { goIdle := goIdle + 1; }
        if g.trackExit { exitStat := exitStat + 1; }
        if g.hasBrakes {
          SoundStep(sig, Caught(SIGINT));
          sig := Handle(sig, SIGINT);
        }
      }
    }

    /** The first half of a turn of the main loop: start children, act on signals.  A signal pending
        from before lets no child start, and makes pan stop or idle. */
    method Schedule(e: RoundEnv) returns (ghost n: nat)
      requires Inv() && RoundOk(e)
      modifies this, running, zoo
      ensures Inv() && old(attempts) <= attempts && sig.rec == 0
      ensures n <= |e.starts| && story == old(story) + Forks(e.starts[..n])
      ensures starts == 0 ==> stop > 0
      ensures old(sig.rec) != 0 ==> attempts == old(attempts) && if forkInRoad then goIdle > 0 else stop > 0
      ensures old(Calm()) && CalmTurn(e) && OrderlyRun(old(story)) ==>
        && Calm() && forkInRoad == old(forkInRoad)
        && n == Consumed(e.starts, g.keepActive - old(numActive), old(starts), g.sequential)
    {
      hide Mirror, Counted, Budgeted, Unique, Sound, Reap, KillLog, OrderlyRun, Tallied, Consumed, Handle;
      n := StartChildren(e.starts);
      if starts == 0 {
        stop := stop + 1;
      } else if starts == -1 && e.stopFile {
        stop := stop + 1;
      }
      StillReceived(sig, e.signals);
      Deliver(e.signals);
      ActOnSignal(e.gone);
    }

    /** Whether the main loop ends; if pan has become idle, scheduling resumes. */
    method Settle() returns (done: bool)
      requires Inv()
      modifies this`goIdle, this`sig
      ensures Inv() && (done <==> stop > 0 && numActive == 0)
      ensures var resume := !done && old(goIdle) > 0 && numActive == 0;
        goIdle == (if resume then 0 else old(goIdle)) && sig == if resume then Handle(old(sig), 0) else old(sig)
      ensures sig.rec == old(sig.rec)
    {
      hide Mirror, Counted, Budgeted, Unique;
      if stop > 0 && numActive == 0 {
        return true;
      }
      if goIdle > 0 && numActive == 0 {
        goIdle := 0;
        SoundStep(sig, Reset);
        sig := Handle(sig, 0);
      }
      return false;
    }

    /** The second half: what wait reports, what main makes of a failure, and whether the loop ends. */
    method Account(e: RoundEnv) returns (done: bool, err: int)
      requires Inv() && AllCaught(e.late)
      modifies this`orphans, this`notFound, this`sent, this`numActive, this`story, this`at
      modifies this`goIdle, this`exitStat, this`sig, running, zoo
      ensures Inv() && story == old(story) + [Waited(e.wait)] && (done <==> stop > 0 && numActive == 0)
      ensures err != 0 && g.hasBrakes ==> sig.rec == SIGINT
      ensures old(goIdle) <= goIdle || numActive == 0
      ensures old(Calm()) && e.late == [] && (Clean(e.wait) || (!g.hasBrakes && !forkInRoad)) ==> Calm()
    {
      hide Mirror, Counted, Budgeted, Unique, Sound, Orderly, Result, OrderlyRun, Tallied, Handle, Clean, AllCaught;
      CleanResult(e.wait, running[..]);
      err := CheckPids(e.wait, e.probed, e.groupLeft);
      Deliver(e.late);
      Interrupted(sig);
      NoteFailure(err);
      done := Settle();
    }

    /** One turn of the main loop.  The pids of the first n starts and the wait of the environment
        are what it adds to the story.  After a failure under brakes a signal is pending; with one
        pending, no child is started, and pan stops, or idles until nothing is active. */
    method Round(e: RoundEnv) returns (done: bool, err: int, ghost n: nat)
      requires Inv() && RoundOk(e)
      modifies this, running, zoo
      ensures Inv() && old(attempts) <= attempts && (done <==> stop > 0 && numActive == 0)
      ensures n <= |e.starts| && story == old(story) + Turn(e, n)
      ensures err != 0 && g.hasBrakes ==> sig.rec == SIGINT
      ensures old(sig.rec) != 0 ==> attempts == old(attempts) && (stop > 0 || goIdle > 0 || numActive == 0)
      ensures var loose := !g.hasBrakes && !old(forkInRoad);
        old(Calm()) && CalmTurn(e) && (loose || Clean(e.wait)) && OrderlyRun(old(story)) ==>
        && Calm() && forkInRoad == old(forkInRoad) && (done <==> starts == 0 && numActive == 0)
        && n == Consumed(e.starts, g.keepActive - old(numActive), old(starts), g.sequential)
    {
      hide Inv, OrderlyRun, Forks, Consumed, NoSignals, Clean;
      n := Schedule(e);
      assert Forks(e.starts[..n]) + [Waited(e.wait)] == Turn(e, n);
      done, err := Account(e);
    }

    /** Whether an orphaned group is left. */
    method OrphansLeft() returns (left: bool)
      ensures left <==> exists i :: 0 <= i < |orphans| && orphans[i] != 0
    {
      for i := 0 to |orphans|
        invariant forall j :: 0 <= j < i ==> orphans[j] == 0
      {
        if orphans[i] != 0 {
          return true;
        }
      }
      return false;
    }

    /** One round of the loop that waits for orphans. */
    method DrainRound(e: DrainEnv)
      requires Inv() && AllCaught(e.signals)
      modifies this`orphans, this`notFound, this`sent, this`sig, running, zoo
      ensures Inv() && orphans == Reap(old(orphans), e.gone)
      ensures var r := Pushed(Delivered(old(sig), e.signals));
        sig == Flush(r) && sent == old(sent) + KillLog(old(orphans), r.send)
    {
      hide Z.Tidy, Z.Lines, Z.Live, Nonzero, Groups, Mirror, Budgeted, Unique, Reap, KillLog, Handle, Delivered,
        Sound, Occupied, OrderlyRun, ConfigOk;
      Deliver(e.signals);
      SoundStep(sig, Caught(SIGINT));
      sig := Pushed(sig);
      PropagateSignal(e.gone);
    }

    /** The loop that waits for orphans.  Round k sends signal sigs[k] to the groups left by then;
        undisturbed by signals, the signals are those of the ratchet, and whatever group is left
        after five rounds, six if a signal was pending, has been sent SIGKILL. */
    method Drain(envs: seq<DrainEnv>) returns (finished: bool, ghost sigs: seq<int>)
      requires Inv() && forall i :: 0 <= i < |envs| ==> AllCaught(envs[i].signals)
      modifies this`orphans, this`notFound, this`sent, this`sig, running, zoo
      ensures Inv() && |sigs| <= |envs| && orphans == LeftAfter(old(orphans), envs, |sigs|)
      ensures finished ==> forall i :: 0 <= i < |orphans| ==> orphans[i] == 0
      ensures !finished ==> |sigs| == |envs|
      ensures sent == old(sent) + DrainLog(old(orphans), envs, sigs)
      ensures Undisturbed(envs) ==> sigs == DrainSends(old(sig), |sigs|)
      ensures Undisturbed(envs) && |sigs| >= (if old(sig.rec) == 0 then 5 else 6) ==>
        forall i :: 0 <= i < |orphans| && orphans[i] != 0 ==> (orphans[i], SIGKILL) in sent[|old(sent)|..]
    {
      hide Inv, Reap, KillLog, DrainLog, DrainSends, DrainState, Undisturbed, AllCaught, Sound, Pushed, Flush,
        LeftAfter;
      sigs := [];
      finished := false;
      ghost var o, log, r := orphans, sent, sig;
      SigSound();
      DrainNothing(r, o, envs);
      for k := 0 to |envs|
        invariant Inv() && |sigs| == k && sent == log + DrainLog(o, envs, sigs) && orphans == LeftAfter(o, envs, k)
        invariant Undisturbed(envs) ==> sigs == DrainSends(r, k) && sig == DrainState(r, k)
      {
        var left := OrphansLeft();
        if !left {
          finished := true;
          break;
        }
        ghost var now := Pushed(Delivered(sig, envs[k].signals));
        DrainStep(r, k);
        DrainLogStep(o, envs, sigs, now.send);
        DisturbedNot(envs, k, sig);
        sigs := sigs + [now.send];
        DrainRound(envs[k]);
      }
      if Undisturbed(envs) && |sigs| >= (if r.rec == 0 then 5 else 6) {
        forall i | 0 <= i < |orphans| && orphans[i] != 0 ensures (orphans[i], SIGKILL) in sent[|log|..] {
          SurvivorsAreKilled(o, envs, r, sigs, i);
        }
      }
    }

    lemma SigSound()
      requires Inv()
      ensures Sound(sig)
    {
    }

    /** Pan takes its own line off the zoo. */
    method Leave()
      requires Inv() && numActive == 0 && forall i :: 0 <= i < |orphans| ==> orphans[i] == 0
      modifies this`notFound, this`exitStat, zoo
      ensures notFound == 0 && exitStat == old(exitStat)
      ensures Z.Live(Z.Lines(zoo.file)) == others + Groups(running[..])
      ensures OrderlyRun(story) ==> Z.Live(Z.Lines(zoo.file)) == others
    {
      hide Z.Lines, Z.Live, Z.Tidy, Nonzero, Groups, Occupied, OrderlyRun;
      AllZero(orphans);
      var groups := Groups(running[..]);
      assert others + (multiset{g.panPid} + groups + multiset{}) - multiset{g.panPid} == others + groups;
      var r := zoo.Clear(g.panPid);
      notFound, exitStat := notFound + r, exitStat + r;
    }
  }

  /** What holds of a scheduler after any number of turns of the main loop. */
  lemma Boundary(s: Scheduler)
    requires s.Inv()
    ensures Z.Live(Z.Lines(s.zoo.file)) ==
      s.others + (multiset{s.g.panPid} + Groups(s.running[..]) + Nonzero(s.orphans))
    ensures s.notFound == 0 && Groups(s.running[..]) == Occupied(s.story)
    ensures s.g.sequential ==> forall k :: 0 <= k < |s.attempts| ==> s.attempts[k] == k % |s.g.commands|
    ensures OrderlyRun(s.story) ==> s.aborts == 0 && 0 <= s.numActive == |Occupied(s.story)| <= s.g.keepActive
    ensures |s.story| == |s.at| && (FreshRun(s.story, s.at) ==> Once(s.Tracked()))
    ensures s.sig.rec == 0 ==> s.sig.send == 0
  {
    hide Z.Lines, Z.Live, Z.Tidy, Nonzero, Groups, ConfigOk, Occupied, OrderlyRun, FreshRun;
    OccupiedSlots(s.running[..]);
  }

  /** The counters of an orderly run, from its story. */
  lemma CountsTold(s: Scheduler)
    requires s.Inv() && OrderlyRun(s.story)
    ensures s.numActive == |Occupied(s.story)| && s.starts == Left(s.budget, s.g.sequential, s.story)
    ensures Over(s.budget, s.g.sequential, s.story) <==> s.starts == 0 && s.numActive == 0
  {
    hide Z.Lines, Z.Live, Z.Tidy, Nonzero, Groups, ConfigOk, Occupied, OrderlyRun, Tried, Born, InOrder;
  }

  /** With the default budget of sequential mode, starts reaching zero means that every command
      was attempted exactly once, in order. */
  lemma DefaultBudget(s: Scheduler, k: nat)
    requires s.Inv() && s.g.sequential && s.budget == |s.g.commands| && s.starts == 0
    ensures |s.attempts| == |s.g.commands|
    ensures k < |s.attempts| ==> s.attempts[k] == k
  {
    hide Z.Lines, Z.Live, Z.Tidy, Nonzero, Groups, ConfigOk;
    if k < |s.attempts| {
      assert s.attempts[k] == k % |s.g.commands|;
      ModUnique(k, 0, k, |s.g.commands|);
    }
  }

  // ---------------------------------------------------------------- whole runs

  /** The main loop, for the turns of a script. */
  method MainLoop(s: Scheduler, script: seq<RoundEnv>) returns (done: bool, ghost turns: seq<nat>)
    requires s.Inv() && forall i :: 0 <= i < |script| ==> RoundOk(script[i])
    requires s.story == [] && s.starts == s.budget && s.numActive == 0
    modifies s, s.running, s.zoo
    ensures s.Inv() && TurnsOk(script, turns) && s.story == Story(script, turns)
    ensures done ==> s.stop > 0 && s.numActive == 0
    ensures var loose := !s.g.hasBrakes && !old(s.forkInRoad);
      old(s.Calm()) && CalmScript(script, loose) && OrderlyRun(s.story) ==> s.Calm()
    ensures var loose := !s.g.hasBrakes && !old(s.forkInRoad);
      var plan := Plan(script, s.g.keepActive, s.budget, s.g.sequential);
      old(s.Calm()) && CalmScript(script, loose) && OrderlyRun(Story(script, plan)) ==> turns == plan
  {
    hide Scheduler.Inv, Scheduler.Calm, RoundOk, Story, Turn, TurnsOk, OrderlyRun, Occupied, Consumed, CalmScript,
      CalmTurn, Clean, PlanTo, Left, Over;
    turns := [];
    NothingTold(script);
    var k: nat := 0;
    done := false;
    ghost var keep, budget, inSequence := s.g.keepActive, s.budget, s.g.sequential;
    ghost var loose := !s.g.hasBrakes && !s.forkInRoad;
    ghost var calm := s.Calm() && CalmScript(script, loose);
    ghost var planned := calm && OrderlyRun(Story(script, Plan(script, keep, budget, inSequence)));
    PlanStarts(script, keep, budget, inSequence);
    while k < |script| && !done
      invariant s.Inv() && |turns| == k <= |script| && TurnsOk(script, turns) && s.story == Story(script, turns)
      invariant done ==> k > 0 && s.stop > 0 && s.numActive == 0
      invariant calm && OrderlyRun(s.story) ==> s.Calm() && s.forkInRoad == old(s.forkInRoad)
      invariant planned ==> turns == PlanTo(script, keep, budget, inSequence, k)
      invariant planned && k > 0 ==> (done <==> Over(budget, inSequence, s.story))
    {
      ghost var h := s.story;
      if calm { CalmAt(script, loose, k); }
      if planned {
        PlanTurn(script, keep, budget, inSequence, turns);
        CountsTold(s);
      }
      ghost var n;
      var err;
      done, err, n := s.Round(script[k]);
      TurnOrderly(h, script[k], n);
      StoryStep(script, turns, n);
      if planned { CountsTold(s); }
      turns := turns + [n];
      k := k + 1;
    }
    if planned && done { PlanStops(script, keep, budget, inSequence, k, |script|); }
  }

  /** Every number below n once, in order. */
  ghost predicate EachOnce(attempts: seq<nat>, n: nat) {
    |attempts| == n && forall k :: 0 <= k < n ==> attempts[k] == k
  }

  lemma AllAttempted(s: Scheduler)
    requires s.Inv() && s.starts == 0
    ensures s.g.sequential && s.budget == |s.g.commands| ==> EachOnce(s.attempts, |s.g.commands|)
  {
    hide Scheduler.Inv;
    if s.g.sequential && s.budget == |s.g.commands| {
      DefaultBudget(s, 0);
      forall k | 0 <= k < |s.g.commands| ensures s.attempts[k] == k { DefaultBudget(s, k); }
    }
  }

  /** A whole run of pan: set-up in a zoo that may have lines already, the main loop, the wait for
      orphans, and pan's own line.  `finished` is false if the environment's answers end before
      the run does; turns says how many children each turn started, and in a calm run for which
      the script is orderly they are those the script plans. */
  method RunPan(g: Config, timed: bool, starts: int, forkInRoad: bool, script: seq<RoundEnv>, drain: seq<DrainEnv>,
                zoo: Z.ZooFile)
    returns (s: Scheduler, finished: bool, ghost turns: seq<nat>)
    requires ConfigOk(g) && forall i :: 0 <= i < |script| ==> RoundOk(script[i])
    requires forall i :: 0 <= i < |drain| ==> AllCaught(drain[i].signals)
    requires zoo.Valid()
    modifies zoo
    ensures s.g == g && s.zoo == zoo
    ensures s.budget == InitialStarts(timed, starts, g.sequential, |g.commands|, g.keepActive)
    ensures TurnsOk(script, turns) && s.story == Story(script, turns) && s.notFound == 0 && s.Budgeted()
    ensures OrderlyRun(s.story) ==> s.aborts == 0 && 0 <= s.numActive == |Occupied(s.story)| <= g.keepActive
    ensures Quiet(script) ==> OrderlyRun(s.story)
    ensures DistinctPids(script, g.panPid) ==> Once(s.Tracked())
    ensures var plan := Plan(script, g.keepActive, s.budget, g.sequential);
      CalmScript(script, !g.hasBrakes && !forkInRoad) && OrderlyRun(Story(script, plan)) ==> turns == plan
    ensures !finished ==> s.Inv()
    ensures finished ==> s.stop > 0 && s.numActive == 0
    ensures finished && OrderlyRun(s.story) ==> Z.Live(Z.Lines(zoo.file)) == old(Z.Live(Z.Lines(zoo.file)))
    ensures finished && CalmScript(script, !g.hasBrakes && !forkInRoad) && OrderlyRun(s.story) ==>
      s.starts == 0 && (g.sequential && s.budget == |g.commands| ==> EachOnce(s.attempts, |g.commands|))
  {
    hide Z.Lines, Z.Live, Z.Tidy, RoundOk, ConfigOk, AllCaught, Scheduler.Inv, InitialStarts, Story, TurnsOk,
      OrderlyRun, Occupied, Quiet, DistinctPids, Once, LeftAfter, DrainLog, Scheduler.Tracked, UniqueIn, Groups,
      Nonzero, CalmScript, PlanTo, Scheduler.Budgeted, EachOnce;
    s := new Scheduler(g, timed, starts, forkInRoad, zoo);
    var done;
    done, turns := MainLoop(s, script);
    ghost var sigs := [];
    finished := false;
    if done {
      finished, sigs := s.Drain(drain);
    }
    Boundary(s);
    RunFacts(s, script, turns);
    if finished {
      if s.starts == 0 { AllAttempted(s); }
      s.Leave();
    }
  }

  lemma NothingTold(script: seq<RoundEnv>)
    ensures TurnsOk(script, []) && Story(script, []) == []
  {
  }

  lemma RunFacts(s: Scheduler, script: seq<RoundEnv>, turns: seq<nat>)
    requires s.Inv() && TurnsOk(script, turns) && s.story == Story(script, turns)
    ensures Quiet(script) ==> OrderlyRun(s.story)
    ensures DistinctPids(script, s.g.panPid) ==> Once(s.Tracked())
    ensures s.Budgeted()
  {
    hide Quiet, DistinctPids, OrderlyRun, Once, Story, Scheduler.Shape, Scheduler.Mirror, Scheduler.Budgeted, Groups,
      Nonzero;
    if Quiet(script) { QuietIsOrderly(script, turns); }
    if DistinctPids(script, s.g.panPid) { DistinctIsFresh(script, turns, s.at, s.g.panPid, s.Tracked()); }
  }

  /** A child that is reported stopped leaves its slot but not the count. */
  method StoppedChildMiscounts(g: Config, zoo: Z.ZooFile, pid: Z.pid_t, signal: int) returns (s: Scheduler)
    requires ConfigOk(g) && zoo.Valid() && g.keepActive > 0 && pid != 0
    modifies zoo
    ensures s.Inv() && s.numActive == |Groups(s.running[..])| + 1
  {
    hide Z.Lines, Z.Live, Z.Tidy, Scheduler.Inv, Groups, Nonzero, Occupied, OrderlyRun, Once, FreshRun,
      Scheduler.Tracked;
    s := new Scheduler(g, false, -1, false, zoo);
    StoryOfOne(pid, signal);
    var more := s.StartOne(0, pid);
    var err := s.CheckPids(Reaped(pid, StoppedBy(signal)), {}, false);
    assert s.story == [Forked(pid), Waited(Reaped(pid, StoppedBy(signal)))];
    Boundary(s);
  }

  lemma StoryOfOne(pid: Z.pid_t, signal: int)
    requires pid != 0
    ensures OrderlyRun([]) && Occupied([Forked(pid), Waited(Reaped(pid, StoppedBy(signal)))]) == multiset{}
  {
    var h := [Forked(pid), Waited(Reaped(pid, StoppedBy(signal)))];
    assert h[..1] == [Forked(pid)] && [Forked(pid)][..0] == [];
    assert Occupied(h[..1]) == multiset{pid};
  }
}
