/** pan/ltp-pan.c on values: pan's settings, what the environment may answer, the slots, the orphan
    list, and the signals the drain loop sends. */
module PanSlots {
  import opened Ratchet
  import Z = Zoo
  import opened Arith

  const TCONF := 32

  datatype Command = Command(name: string, cmdline: string)

  datatype Config = Config(
    commands: seq<Command>, keepActive: nat, sequential: bool, hasBrakes: bool, trackExit: bool,
    panPid: Z.pid_t, panName: string, panArgs: string)

  predicate ConfigOk(g: Config) {
    && |g.commands| > 0 && g.keepActive < 0x8000_0000 && g.panPid > 0
    && Z.NewlineFree(g.panName) && Z.NewlineFree(g.panArgs)
    && forall i :: 0 <= i < |g.commands| ==> Z.NewlineFree(g.commands[i].name) && Z.NewlineFree(g.commands[i].cmdline)
  }

  /** `struct tag_pgrp`: pgrp 0 marks a free slot. */
  datatype Slot = Slot(pgrp: Z.pid_t, stopping: bool, cmd: nat)

  /** The start budget (options -s, -t and -S); -1 is unlimited. */
  function InitialStarts(timed: bool, starts: int, sequential: bool, cnt: nat, keepActive: nat): int {
    if timed && starts == -1 then -1
    else if starts == -1 then (if sequential then cnt else 1)
    else if starts == 0 then -1
    else if starts < keepActive then keepActive else starts
  }

  /** A slot after a signal was sent to its group, if it has one. */
  function Flagged(s: Slot): Slot { s.(stopping := s.stopping || s.pgrp != 0) }

  // ---------------------------------------------------------------- environment

  /** How a child ended, as `wait` reports it. */
  datatype Status = Exited(code: int) | Signaled(sig: int) | StoppedBy(sig: int) | Unknown

  datatype WaitResult = NoChild | Reaped(pid: Z.pid_t, status: Status)

  /** One attempt to start a child: signals that arrive first, the random draw, and the pid of
      the child, 0 if it could not be started. */
  datatype StartEnv = StartEnv(signals: seq<int>, draw: nat, pid: Z.pid_t)

  /** One turn of the main loop.  `gone` and `probed` are the places on the orphan list whose
      kill fails with ESRCH; `groupLeft` says whether the reaped child leaves processes. */
  datatype RoundEnv = RoundEnv(
    starts: seq<StartEnv>, stopFile: bool, signals: seq<int>, gone: set<nat>,
    probed: set<nat>, wait: WaitResult, groupLeft: bool, late: seq<int>)

  predicate RoundOk(e: RoundEnv) {
    AllCaught(e.signals) && AllCaught(e.late) && forall i :: 0 <= i < |e.starts| ==> AllCaught(e.starts[i].signals)
  }

  // ---------------------------------------------------------------- process groups

  /** The non-zero entries of a list of process groups. */
  function Nonzero(o: seq<int>): multiset<int> { multiset(o)[0 := 0] }

  function One(p: int): multiset<int> { if p == 0 then multiset{} else multiset{p} }

  function Pgrps(s: seq<Slot>): (o: seq<int>)
    ensures |o| == |s|
  {
    seq(|s|, i requires 0 <= i < |s| => s[i].pgrp)
  }

  /** The process groups in the slots. */
  function Groups(s: seq<Slot>): multiset<int> { Nonzero(Pgrps(s)) }

  lemma NonzeroUpdate(o: seq<int>, i: nat, p: int)
    requires i < |o|
    ensures o[i] in One(o[i]) ==> o[i] in Nonzero(o)
    ensures Nonzero(o[i := p]) == Nonzero(o) - One(o[i]) + One(p)
  {
    assert multiset(o[i := p]) == multiset(o) - multiset{o[i]} + multiset{p};
    assert o[i] in multiset(o);
  }

  lemma GroupsUpdate(s: seq<Slot>, i: nat, x: Slot)
    requires i < |s|
    ensures s[i].pgrp != 0 ==> s[i].pgrp in Groups(s)
    ensures Groups(s[i := x]) == Groups(s) - One(s[i].pgrp) + One(x.pgrp)
  {
    assert Pgrps(s[i := x]) == Pgrps(s)[i := x.pgrp];
    NonzeroUpdate(Pgrps(s), i, x.pgrp);
  }

  lemma NonzeroInsert(o: seq<int>, p: int)
    requires |o| > 0
    ensures Nonzero(o[..1] + [p] + o[1..]) == Nonzero(o) + One(p)
  {
    assert multiset(o[..1] + [p] + o[1..]) == multiset(o[..1]) + multiset{p} + multiset(o[1..]);
    assert o == o[..1] + o[1..];
  }

  /** Slots occupied: never more than there are, and fewer exactly when one is free. */
  lemma OccupiedSlots(s: seq<Slot>)
    ensures |Groups(s)| <= |s|
    ensures |Groups(s)| < |s| <==> exists i :: 0 <= i < |s| && s[i].pgrp == 0
  {
    var o := Pgrps(s);
    assert |Nonzero(o)| == |o| - multiset(o)[0];
    assert 0 in multiset(o) <==> 0 in o;
    if i :| 0 <= i < |s| && s[i].pgrp == 0 {
      assert o[i] == 0;
    }
    if 0 in o {
      var i :| 0 <= i < |o| && o[i] == 0;
      assert s[i].pgrp == 0;
    }
  }

  lemma InGroups(s: seq<Slot>, p: int)
    ensures p in Groups(s) <==> p != 0 && exists i :: 0 <= i < |s| && s[i].pgrp == p
  {
    var o := Pgrps(s);
    assert p in multiset(o) <==> p in o;
    if i :| 0 <= i < |s| && s[i].pgrp == p {
      assert o[i] == p;
    }
    if p in o {
      var i :| 0 <= i < |o| && o[i] == p;
      assert s[i].pgrp == p;
    }
  }

  lemma SameGroups(s: seq<Slot>, t: seq<Slot>)
    requires |s| == |t| && forall i :: 0 <= i < |s| ==> s[i].pgrp == t[i].pgrp
    ensures Groups(s) == Groups(t)
  {
    assert Pgrps(s) == Pgrps(t);
  }

  lemma AllZero(o: seq<int>)
    requires forall i :: 0 <= i < |o| ==> o[i] == 0
    ensures Nonzero(o) == multiset{}
  {
    forall p ensures Nonzero(o)[p] == 0 {
      assert p in multiset(o) <==> p in o;
    }
  }

  lemma AllFree(s: seq<Slot>)
    requires forall i :: 0 <= i < |s| ==> s[i].pgrp == 0
    ensures Groups(s) == multiset{}
  {
    AllZero(Pgrps(s));
  }

  /** The orphan list after a kill of every entry. */
  function Reap(o: seq<Z.pid_t>, gone: set<nat>): (t: seq<Z.pid_t>)
    ensures |t| == |o|
  {
    seq(|o|, i requires 0 <= i < |o| => if i in gone then 0 else o[i])
  }

  /** The kills a pass over the orphan list performs. */
  function KillLog(o: seq<int>, sig: int): seq<(int, int)> {
    if o == [] then []
    else var n := |o| - 1; KillLog(o[..n], sig) + (if o[n] == 0 then [] else [(o[n], sig)])
  }

  /** The k-th command run is command k mod cnt. */
  ghost predicate InOrder(attempts: seq<nat>, cnt: nat)
    requires cnt > 0
  {
    forall k :: 0 <= k < |attempts| ==> attempts[k] == k % cnt
  }

  ghost predicate Once(t: multiset<int>) { forall p :: t[p] <= 1 }

  /** The numbers from a up to b, once each. */
  ghost function Range(a: nat, b: nat): (r: multiset<int>)
    ensures forall p {:trigger r[p]} :: r[p] == if a <= p < b then 1 else 0
  {
    multiset(set p: int | a <= p < b && Within(a, p, b))
  }

  ghost predicate Within(a: nat, p: int, b: nat) { a <= p < b }

  lemma RangeEnds(a: nat, b: nat)
    ensures a <= b ==> Range(a, b + 1) == Range(a, b) + multiset{b}
    ensures a < b ==> Range(a, b) - multiset{a} == Range(a + 1, b)
    ensures a >= b ==> Range(a, b) == multiset{}
  {
  }

  // ---------------------------------------------------------------- the drain loop

  /** A group left on the orphan list after the rounds of an undisturbed drain, five of them or six
      if a signal was pending, has been sent SIGKILL in one of them. */
  lemma SurvivorsAreKilled(o: seq<Z.pid_t>, envs: seq<DrainEnv>, r: Ratchet, sigs: seq<int>, i: nat)
    requires Sound(r) && sigs == DrainSends(r, |sigs|) && (if r.rec == 0 then 5 else 6) <= |sigs| <= |envs|
    requires i < |o| && LeftAfter(o, envs, |sigs|)[i] != 0
    ensures (LeftAfter(o, envs, |sigs|)[i], SIGKILL) in DrainLog(o, envs, sigs)
  {
    hide DrainSends, LeftAfter, KillLog, DrainLog;
    var k := KillRound(r, |sigs|);
    LeftBefore(o, envs, k, |sigs|, i);
    KillLogHas(LeftAfter(o, envs, k), SIGKILL, i);
    DrainLogHas(o, envs, sigs, k, (LeftAfter(o, envs, k)[i], SIGKILL));
  }

  /** SIGKILL is sent in one of the first rounds. */
  lemma KillRound(r: Ratchet, n: nat) returns (k: nat)
    requires Sound(r) && n >= if r.rec == 0 then 5 else 6
    ensures k < n && DrainSends(r, n)[k] == SIGKILL
  {
    if r.rec == 0 {
      k := RoundsToKill(r.last) - 1;
      KillWithinFive(r, n);
    } else {
      var t := Flush(Pushed(r));
      SoundStep(r, Flushed([]));
      KillWithinFive(t, n - 1);
      k := RoundsToKill(t.last);
      assert DrainSends(r, n) == [Pushed(r).send] + DrainSends(t, n - 1);
    }
  }

  /** The orphan list after k rounds of the drain loop. */
  function LeftAfter(o: seq<Z.pid_t>, envs: seq<DrainEnv>, k: nat): (t: seq<Z.pid_t>)
    requires k <= |envs|
    ensures |t| == |o|
  {
    if k == 0 then o else Reap(LeftAfter(o, envs, k - 1), envs[k - 1].gone)
  }

  lemma {:induction false} LeftBefore(o: seq<Z.pid_t>, envs: seq<DrainEnv>, j: nat, k: nat, i: nat)
    requires j <= k <= |envs| && i < |o| && LeftAfter(o, envs, k)[i] != 0
    ensures LeftAfter(o, envs, j)[i] == LeftAfter(o, envs, k)[i]
    decreases k
  {
    if j < k { LeftBefore(o, envs, j, k - 1, i); }
  }

  lemma {:induction false} KillLogHas(o: seq<int>, sig: int, i: nat)
    requires i < |o| && o[i] != 0
    ensures (o[i], sig) in KillLog(o, sig)
  {
    var n := |o| - 1;
    if i < n { KillLogHas(o[..n], sig, i); }
  }

  lemma {:induction false} DrainLogHas(o: seq<Z.pid_t>, envs: seq<DrainEnv>, sigs: seq<int>, k: nat, kill: (int, int))
    requires k < |sigs| <= |envs| && kill in KillLog(LeftAfter(o, envs, k), sigs[k])
    ensures kill in DrainLog(o, envs, sigs)
    decreases |sigs|
  {
    hide KillLog, LeftAfter;
    if k < |sigs| - 1 { DrainLogHas(o, envs, sigs[..|sigs| - 1], k, kill); }
  }

  ghost predicate Undisturbed(envs: seq<DrainEnv>) {
    forall i :: 0 <= i < |envs| ==> envs[i].signals == []
  }

  lemma DisturbedNot(envs: seq<DrainEnv>, k: nat, r: Ratchet)
    requires k < |envs|
    ensures Undisturbed(envs) ==> Delivered(r, envs[k].signals) == r
  {
  }

  lemma DrainNothing(r: Ratchet, o: seq<Z.pid_t>, envs: seq<DrainEnv>)
    ensures DrainLog(o, envs, []) == [] && DrainSends(r, 0) == [] && DrainState(r, 0) == r && LeftAfter(o, envs, 0) == o
  {
  }

  lemma DrainLogStep(o: seq<Z.pid_t>, envs: seq<DrainEnv>, sigs: seq<int>, sig: int)
    requires |sigs| < |envs|
    ensures DrainLog(o, envs, sigs + [sig]) == DrainLog(o, envs, sigs) + KillLog(LeftAfter(o, envs, |sigs|), sig)
    ensures LeftAfter(o, envs, |sigs| + 1) == Reap(LeftAfter(o, envs, |sigs|), envs[|sigs|].gone)
  {
    assert (sigs + [sig])[..|sigs|] == sigs;
  }

  datatype DrainEnv = DrainEnv(signals: seq<int>, gone: set<nat>)

  /** The kills of successive rounds, each to the groups left by then. */
  function DrainLog(o: seq<Z.pid_t>, envs: seq<DrainEnv>, sigs: seq<int>): seq<(int, int)>
    requires |sigs| <= |envs|
  {
    if sigs == [] then []
    else var n := |sigs| - 1; DrainLog(o, envs, sigs[..n]) + KillLog(LeftAfter(o, envs, n), sigs[n])
  }

  /** The ratchet after k undisturbed rounds. */
  function DrainState(r: Ratchet, k: nat): Ratchet {
    if k == 0 then r else Flush(Pushed(DrainState(r, k - 1)))
  }

  lemma {:induction false} DrainStep(r: Ratchet, k: nat)
    ensures DrainSends(r, k + 1) == DrainSends(r, k) + [Pushed(DrainState(r, k)).send]
    ensures DrainState(r, k + 1) == Flush(Pushed(DrainState(r, k)))
    decreases k
  {
    var t := Flush(Pushed(r));
    if k == 0 {
      assert DrainSends(r, 1) == [Pushed(r).send] + DrainSends(t, 0);
    } else {
      DrainStep(t, k - 1);
      DrainShift(r, k - 1);
    }
  }

  lemma {:induction false} DrainShift(r: Ratchet, k: nat)
    ensures DrainState(Flush(Pushed(r)), k) == DrainState(r, k + 1)
  {
    if k > 0 {
      DrainShift(r, k - 1);
    }
  }

  lemma GroupsGrow(g: multiset<int>, pid: Z.pid_t)
    ensures |g + One(pid)| == |g| + if pid == 0 then 0 else 1
  {
  }

  /** A free slot is found exactly when fewer slots are occupied than there are. */
  lemma FreeSlotFound(s: seq<Slot>)
    ensures |Groups(s)| < |s| <==> SlotOf(s, 0) < |s|
    ensures SlotOf(s, 0) <= |s| && (SlotOf(s, 0) < |s| ==> s[SlotOf(s, 0)].pgrp == 0)
  {
    OccupiedSlots(s);
  }

  /** Running the next command keeps the order, and the next one after it wraps around. */
  lemma AttemptNext(attempts: seq<nat>, c: nat, cnt: nat)
    requires cnt > 0
    ensures InOrder(attempts, cnt) && c == |attempts| % cnt ==> InOrder(attempts + [c], cnt)
    ensures c == |attempts| % cnt ==> (|attempts| + 1) % cnt == if c + 1 >= cnt then 0 else c + 1
  {
    NextMod(|attempts|, cnt);
  }

  lemma AddOne(a: multiset<int>, g: multiset<int>, n: multiset<int>, p: int)
    ensures a + (g + One(p)) + n == a + g + n + One(p) && g - One(0) + One(p) == g + One(p)
  {
  }

  lemma OnceMore(t: multiset<int>, p: int)
    ensures Once(t) && p !in t ==> Once(t + One(p))
    ensures One(0) == multiset{} && forall u: multiset<int> :: u + multiset{} == u
  {
  }

  lemma SlotOfFound(s: seq<Slot>, p: int)
    requires p != 0
    ensures SlotOf(s, p) < |s| <==> p in Groups(s)
    ensures SlotOf(s, p) <= |s| && (SlotOf(s, p) < |s| ==> s[SlotOf(s, p)].pgrp == p)
  {
    InGroups(s, p);
  }

  lemma PutBack(t: multiset<int>, p: int)
    requires p in t
    ensures t - multiset{p} + multiset{p} == t && t - multiset{p} <= t && t <= t
  {
  }

  lemma StillBelow(a: multiset<int>, n: multiset<int>, m: multiset<int>)
    requires n <= m
    ensures a + n <= a + m
  {
  }

  lemma MoveOne(a: multiset<int>, g: multiset<int>, n: multiset<int>, p: int)
    requires p in g
    ensures p in a + g + n
    ensures a + g + n - multiset{p} == a + (g - multiset{p}) + n
    ensures a + (g - multiset{p}) + n + multiset{p} == a + g + n
  {
  }

  /** The orphan list with one more group: in the first free entry, or just after the head. */
  function Adopt(o: seq<Z.pid_t>, p: Z.pid_t): (t: seq<Z.pid_t>)
    requires |o| > 0
  {
    var k := FirstZero(o);
    if k < |o| then o[k := p] else o[..1] + [p] + o[1..]
  }

  function FirstZero(o: seq<int>): (k: nat)
    ensures k <= |o| && (k < |o| ==> o[k] == 0) && forall i :: 0 <= i < k ==> o[i] != 0
  {
    if o == [] || o[0] == 0 then 0 else 1 + FirstZero(o[1..])
  }

  lemma FirstZeroIs(o: seq<int>, k: nat)
    requires k <= |o| && (k < |o| ==> o[k] == 0) && forall i :: 0 <= i < k ==> o[i] != 0
    ensures FirstZero(o) == k
  {
    var f := FirstZero(o);
  }

  lemma AdoptAdds(o: seq<Z.pid_t>, p: Z.pid_t)
    requires |o| > 0 && p != 0
    ensures Nonzero(Adopt(o, p)) == Nonzero(o) + multiset{p} && |Adopt(o, p)| > 0
  {
    var k := FirstZero(o);
    if k < |o| {
      NonzeroUpdate(o, k, p);
    } else {
      NonzeroInsert(o, p);
    }
  }

  /** What `check_pids` makes of a reaped child: non-zero if it counts as a failure. */
  function Verdict(status: Status, found: bool, stopping: bool): int {
    match status
    case Exited(code) =>
      (if code != 0 && code != TCONF then 1 else 0) - (if found && stopping && code == 130 then 1 else 0)
    case Signaled(_) => if found && !stopping then 1 else 0
    case StoppedBy(_) => 1
    case Unknown => 1
  }

  /** The first slot holding p, or the number of slots. */
  function SlotOf(s: seq<Slot>, p: int): (k: nat)
    ensures k <= |s| && (k < |s| ==> s[k].pgrp == p) && forall i :: 0 <= i < k ==> s[i].pgrp != p
  {
    if s == [] || s[0].pgrp == p then 0 else 1 + SlotOf(s[1..], p)
  }

  lemma SlotOfIs(s: seq<Slot>, p: int, k: nat)
    requires k <= |s| && (k < |s| ==> s[k].pgrp == p) && forall i :: 0 <= i < k ==> s[i].pgrp != p
    ensures SlotOf(s, p) == k
  {
    var f := SlotOf(s, p);
  }

  /** The value `check_pids` returns. */
  function Result(w: WaitResult, s: seq<Slot>): int {
    if w.NoChild? || w.pid == 0 then 0
    else
      var k := SlotOf(s, w.pid);
      Verdict(w.status, k < |s|, k < |s| && s[k].stopping)
  }

  predicate Ended(status: Status) { status.Exited? || status.Signaled? }

  /** wait reports ends of known children, and nothing else. */
  predicate Orderly(w: WaitResult, groups: multiset<int>) {
    w.Reaped? && w.pid != 0 ==> (Ended(w.status) <==> w.pid in groups)
  }

  lemma JoinOne(a: multiset<int>, n: multiset<int>, p: int)
    ensures a + n + multiset{p} == a + (n + multiset{p}) && (p != 0 ==> a + n + multiset{p} == a + (n + One(p)))
  {
  }

  lemma NotThere(g: multiset<int>, p: int)
    ensures p !in g ==> g - multiset{p} == g
  {
  }

  lemma DropOne(a: multiset<int>, n: multiset<int>, p: int)
    requires p in n
    ensures a + n - multiset{p} == a + (n - multiset{p}) && p in a + n
  {
  }

  lemma ReapNone(o: seq<Z.pid_t>, gone: set<nat>)
    ensures Reap(o[..0], gone) + o[0..] == o && forall sig :: KillLog(o[..0], sig) == []
  {
  }

  lemma KillLogStep(o: seq<int>, i: nat, sig: int)
    requires i < |o|
    ensures KillLog(o[..i + 1], sig) == KillLog(o[..i], sig) + (if o[i] == 0 then [] else [(o[i], sig)])
  {
    assert o[..i + 1][..i] == o[..i];
  }

  /** One more entry: zeroed if its group is gone; a zero entry stays as it is. */
  lemma ReapStep(o: seq<Z.pid_t>, i: nat, gone: set<nat>)
    requires i < |o|
    ensures var t := Reap(o[..i], gone) + o[i..]; var u := Reap(o[..i + 1], gone) + o[i + 1..];
      |t| == |o| && t[i] == o[i] && u == (if i in gone then t[i := 0] else t) && (o[i] == 0 ==> u == t)
  {
  }
}
