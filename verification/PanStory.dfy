/** pan/ltp-pan.c: what fork and wait answered in the course of a run, and what that says of the
    slots, of num_active and of the process groups pan tracks. */
module PanStory {
  import opened Ratchet
  import opened PanSlots

  /** An answer of the environment: fork gave a child (0: none), or wait reported. */
  datatype Happening = Forked(pid: int) | Waited(w: WaitResult)

  /** The children forked and not reported since. */
  ghost function Occupied(h: seq<Happening>): multiset<int> {
    if h == [] then multiset{}
    else
      var before := Occupied(h[..|h| - 1]);
      match h[|h| - 1]
      case Forked(pid) => before + One(pid)
      case Waited(w) => if w.Reaped? && w.pid != 0 then before - multiset{w.pid} else before
  }

  /** wait reports an end exactly for children not reported yet. */
  ghost predicate OrderlyRun(h: seq<Happening>) {
    h == [] ||
    (OrderlyRun(h[..|h| - 1]) && (h[|h| - 1].Waited? ==> Orderly(h[|h| - 1].w, Occupied(h[..|h| - 1]))))
  }

  /** fork gives no pid that is tracked at the time. */
  ghost predicate FreshRun(h: seq<Happening>, at: seq<multiset<int>>)
    requires |h| == |at|
  {
    forall i :: 0 <= i < |h| && h[i].Forked? ==> h[i].pid !in at[i]
  }

  /** Everything in t was forked, or is pan. */
  ghost predicate Known(h: seq<Happening>, pan: int, t: multiset<int>) {
    forall p :: p in t ==> p == pan || Forked(p) in h
  }

  ghost predicate UniqueIn(h: seq<Happening>, at: seq<multiset<int>>, pan: int, t: multiset<int>) {
    && |h| == |at| && (forall i :: 0 <= i < |h| ==> 0 !in at[i] && Known(h[..i], pan, at[i]))
    && 0 !in t && Known(h, pan, t) && (FreshRun(h, at) ==> Once(t))
  }

  lemma JustPan(pan: int)
    requires pan != 0
    ensures UniqueIn([], [], pan, multiset{pan} + multiset{} + multiset{})
  {
  }

  lemma FewerUnique(h: seq<Happening>, at: seq<multiset<int>>, pan: int, t: multiset<int>, u: multiset<int>)
    requires u <= t
    ensures UniqueIn(h, at, pan, t) ==> UniqueIn(h, at, pan, u)
  {
  }

  lemma Longer(h: seq<Happening>, at: seq<multiset<int>>, pan: int, t: multiset<int>, e: Happening)
    requires UniqueIn(h, at, pan, t)
    ensures var g, bt := h + [e], at + [t];
      && (forall i :: 0 <= i < |g| ==> 0 !in bt[i] && Known(g[..i], pan, bt[i])) && Known(g, pan, t)
      && (FreshRun(g, bt) <==> FreshRun(h, at) && (e.Forked? ==> e.pid !in t))
  {
    var g, bt := h + [e], at + [t];
    forall i | 0 <= i < |g| ensures 0 !in bt[i] && Known(g[..i], pan, bt[i]) {
      if i < |h| { assert g[..i] == h[..i] && bt[i] == at[i]; } else { assert g[..i] == h; }
    }
    forall p | p in t ensures p == pan || Forked(p) in g {
      if Forked(p) in h { MemberStays(h, e, Forked(p)); }
    }
    assert forall i :: 0 <= i < |h| ==> g[i] == h[i] && bt[i] == at[i];
    assert g[|h|] == e && bt[|h|] == t;
  }

  lemma MemberStays(h: seq<Happening>, e: Happening, f: Happening)
    requires f in h
    ensures f in h + [e]
  {
    var i :| 0 <= i < |h| && h[i] == f;
    assert (h + [e])[i] == f;
  }

  /** After a wait the same groups are tracked, until one is released. */
  lemma ToldWait(h: seq<Happening>, at: seq<multiset<int>>, pan: int, t: multiset<int>, w: WaitResult)
    requires UniqueIn(h, at, pan, t)
    ensures UniqueIn(h + [Waited(w)], at + [t], pan, t)
    ensures Occupied(h + [Waited(w)]) == if w.Reaped? && w.pid != 0 then Occupied(h) - multiset{w.pid} else Occupied(h)
    ensures OrderlyRun(h + [Waited(w)]) <==> OrderlyRun(h) && Orderly(w, Occupied(h))
  {
    Longer(h, at, pan, t, Waited(w));
    assert (h + [Waited(w)])[..|h|] == h;
  }

  lemma ToldFork(h: seq<Happening>, at: seq<multiset<int>>, pan: int, t: multiset<int>, pid: int)
    requires UniqueIn(h, at, pan, t)
    ensures UniqueIn(h + [Forked(pid)], at + [t], pan, t + One(pid))
  {
    Longer(h, at, pan, t, Forked(pid));
    var g := h + [Forked(pid)];
    assert g[|h|] == Forked(pid);
  }

  lemma OneForked(h: seq<Happening>, pid: int)
    ensures Occupied(h + [Forked(pid)]) == Occupied(h) + One(pid)
    ensures OrderlyRun(h + [Forked(pid)]) <==> OrderlyRun(h)
  {
    assert (h + [Forked(pid)])[..|h|] == h;
  }

  /** The pids of some starts. */
  function Forks(envs: seq<StartEnv>): (h: seq<Happening>)
    ensures |h| == |envs| && forall i :: 0 <= i < |envs| ==> h[i] == Forked(envs[i].pid)
  {
    seq(|envs|, i requires 0 <= i < |envs| => Forked(envs[i].pid))
  }

  /** What a turn of the main loop in which n children are started adds to the story. */
  function Turn(e: RoundEnv, n: nat): seq<Happening>
    requires n <= |e.starts|
  {
    Forks(e.starts[..n]) + [Waited(e.wait)]
  }

  lemma OneMoreFork(envs: seq<StartEnv>, k: nat, h: seq<Happening>)
    requires k < |envs|
    ensures h + Forks(envs[..k + 1]) == h + Forks(envs[..k]) + [Forked(envs[k].pid)]
  {
    assert envs[..k + 1] == envs[..k] + [envs[k]];
    assert Forks(envs[..k + 1]) == Forks(envs[..k]) + [Forked(envs[k].pid)];
  }

  lemma NothingPending(r: Ratchet)
    requires Sound(r)
    ensures r.rec == 0 ==> Flush(r) == r
  {
  }

  lemma {:induction false} StillReceived(r: Ratchet, signals: seq<int>)
    requires AllCaught(signals)
    ensures r.rec != 0 ==> Delivered(r, signals).rec != 0
  {
    if signals != [] { StillReceived(r, signals[..|signals| - 1]); }
  }

  // ---------------------------------------------------------------- whole runs

  /** How many children each turn started: no more than the script has answers for. */
  ghost predicate TurnsOk(script: seq<RoundEnv>, turns: seq<nat>) {
    |turns| <= |script| && forall i :: 0 <= i < |turns| ==> turns[i] <= |script[i].starts|
  }

  /** The story the script tells, turn by turn. */
  ghost function Story(script: seq<RoundEnv>, turns: seq<nat>): seq<Happening>
    requires TurnsOk(script, turns)
  {
    if turns == [] then []
    else var n := |turns| - 1; Story(script, turns[..n]) + Turn(script[n], turns[n])
  }

  lemma StoryStep(script: seq<RoundEnv>, turns: seq<nat>, n: nat)
    requires TurnsOk(script, turns) && |turns| < |script| && n <= |script[|turns|].starts|
    ensures TurnsOk(script, turns + [n])
    ensures Story(script, turns + [n]) == Story(script, turns) + Turn(script[|turns|], n)
  {
    assert (turns + [n])[..|turns|] == turns;
  }

  lemma {:induction false} ForksOrderly(h: seq<Happening>, envs: seq<StartEnv>)
    ensures OrderlyRun(h + Forks(envs)) <==> OrderlyRun(h)
    decreases |envs|
  {
    hide OrderlyRun;
    if envs == [] {
      assert h + Forks(envs) == h;
    } else {
      var n := |envs| - 1;
      ForksOrderly(h, envs[..n]);
      OneMoreFork(envs, n, h);
      assert envs[..n + 1] == envs;
      OneForked(h + Forks(envs[..n]), envs[n].pid);
    }
  }

  /** What a turn asks of wait for the story to stay orderly. */
  lemma TurnOrderly(h: seq<Happening>, e: RoundEnv, n: nat)
    requires n <= |e.starts|
    ensures OrderlyRun(h + Turn(e, n)) <==> OrderlyRun(h) && Orderly(e.wait, Occupied(h + Forks(e.starts[..n])))
  {
    var g := h + Forks(e.starts[..n]);
    assert h + Turn(e, n) == g + [Waited(e.wait)];
    assert (g + [Waited(e.wait)])[..|g|] == g;
    ForksOrderly(h, e.starts[..n]);
  }

  // ---------------------------------------------------------------- calm runs

  /** The attempts in a story, and the children that came of them. */
  function Tried(h: seq<Happening>): nat {
    if h == [] then 0 else Tried(h[..|h| - 1]) + if h[|h| - 1].Forked? then 1 else 0
  }

  function Born(h: seq<Happening>): nat {
    if h == [] then 0
    else Born(h[..|h| - 1]) + if h[|h| - 1].Forked? && h[|h| - 1].pid != 0 then 1 else 0
  }

  lemma OneMoreTold(h: seq<Happening>, e: Happening)
    ensures Tried(h + [e]) == Tried(h) + if e.Forked? then 1 else 0
    ensures Born(h + [e]) == Born(h) + if e.Forked? && e.pid != 0 then 1 else 0
  {
    assert (h + [e])[..|h|] == h;
  }

  /** The budget left after a story; -1 is unlimited. */
  ghost function Left(budget: int, sequential: bool, h: seq<Happening>): int {
    if budget == -1 then -1 else budget - if sequential then Tried(h) else Born(h)
  }

  /** The budget after a start. */
  function Charged(left: int, born: bool, sequential: bool): int {
    left - if (born || sequential) && left > 0 then 1 else 0
  }

  /** How many of the answers the loop that starts children takes, with this many free slots and this
      budget, if nothing disturbs it. */
  function Consumed(envs: seq<StartEnv>, free: int, left: int, sequential: bool): (n: nat)
    ensures n <= |envs|
  {
    if envs == [] || free <= 0 || left == 0 then 0
    else
      var born := envs[0].pid != 0;
      1 + Consumed(envs[1..], free - if born then 1 else 0, Charged(left, born, sequential), sequential)
  }

  lemma ConsumedStep(envs: seq<StartEnv>, k: nat, free: int, left: int, sequential: bool)
    requires k < |envs| && free > 0 && left != 0
    ensures var born := envs[k].pid != 0;
      Consumed(envs[k..], free, left, sequential) ==
      1 + Consumed(envs[k + 1..], free - if born then 1 else 0, Charged(left, born, sequential), sequential)
  {
    assert envs[k..][0] == envs[k] && envs[k..][1..] == envs[k + 1..];
  }

  lemma ConsumedEnd(envs: seq<StartEnv>, k: nat, free: int, left: int, sequential: bool)
    requires k <= |envs|
    ensures k == |envs| || free <= 0 || left == 0 ==> Consumed(envs[k..], free, left, sequential) == 0
  {
  }

  predicate NoSignals(envs: seq<StartEnv>) { forall i :: 0 <= i < |envs| ==> envs[i].signals == [] }

  /** No signal arrives during the turn, nor is there a stop file. */
  predicate CalmTurn(e: RoundEnv) { NoSignals(e.starts) && e.signals == [] && e.late == [] && !e.stopFile }

  /** The report of wait is no failure. */
  predicate Clean(w: WaitResult) {
    w.NoChild? || w.pid == 0 || (w.status.Exited? && (w.status.code == 0 || w.status.code == TCONF))
  }

  lemma Interrupted(r: Ratchet)
    ensures Handle(r, SIGINT).rec == SIGINT
  {
  }

  lemma CleanResult(w: WaitResult, s: seq<Slot>)
    ensures Clean(w) ==> Result(w, s) == 0
  {
  }

  /** Nothing disturbs the turns of a script; failures do not if there are neither brakes nor idling. */
  ghost predicate CalmScript(script: seq<RoundEnv>, loose: bool) {
    forall i :: 0 <= i < |script| ==> CalmTurn(script[i]) && (loose || Clean(script[i].wait))
  }

  lemma CalmAt(script: seq<RoundEnv>, loose: bool, k: nat)
    requires CalmScript(script, loose) && k < |script|
    ensures CalmTurn(script[k]) && (loose || Clean(script[k].wait))
  {
  }

  /** The budget is used up and no child is left: the main loop ends. */
  ghost predicate Over(budget: int, sequential: bool, h: seq<Happening>) {
    Left(budget, sequential, h) == 0 && |Occupied(h)| == 0
  }

  /** What the next turn of a calm run starts. */
  ghost function NextTurn(script: seq<RoundEnv>, keep: nat, budget: int, sequential: bool, turns: seq<nat>): (n: nat)
    requires TurnsOk(script, turns) && |turns| < |script|
    ensures n <= |script[|turns|].starts| && TurnsOk(script, turns + [n])
  {
    var h := Story(script, turns);
    Consumed(script[|turns|].starts, keep - |Occupied(h)|, Left(budget, sequential, h), sequential)
  }

  /** The children a calm run starts in each of the first k turns, or up to its end. */
  ghost function PlanTo(script: seq<RoundEnv>, keep: nat, budget: int, sequential: bool, k: nat): (turns: seq<nat>)
    requires k <= |script|
    ensures |turns| <= k && TurnsOk(script, turns)
  {
    if k == 0 then []
    else
      var p := PlanTo(script, keep, budget, sequential, k - 1);
      if |p| < k - 1 || (p != [] && Over(budget, sequential, Story(script, p))) then p
      else p + [NextTurn(script, keep, budget, sequential, p)]
  }

  ghost function Plan(script: seq<RoundEnv>, keep: nat, budget: int, sequential: bool): (turns: seq<nat>)
    ensures TurnsOk(script, turns)
  {
    PlanTo(script, keep, budget, sequential, |script|)
  }

  lemma PlanStarts(script: seq<RoundEnv>, keep: nat, budget: int, sequential: bool)
    ensures PlanTo(script, keep, budget, sequential, 0) == []
  {
  }

  /** If the whole plan is orderly, so is every part of it. */
  lemma {:induction false} PlanOrderly(script: seq<RoundEnv>, keep: nat, budget: int, sequential: bool, j: nat, k: nat)
    requires j <= k <= |script| && OrderlyRun(Story(script, PlanTo(script, keep, budget, sequential, k)))
    ensures OrderlyRun(Story(script, PlanTo(script, keep, budget, sequential, j)))
    decreases k
  {
    hide Over, Left, Story, Occupied, Consumed, OrderlyRun, NextTurn, TurnsOk;
    if j < k {
      var p, q := PlanTo(script, keep, budget, sequential, k - 1), PlanTo(script, keep, budget, sequential, k);
      if p != q {
        var n := q[|p|];
        assert q == p + [n];
        StoryStep(script, p, n);
        TurnOrderly(Story(script, p), script[|p|], n);
      }
      PlanOrderly(script, keep, budget, sequential, j, k - 1);
    }
  }

  /** If the plan is orderly, so is the story so far, and one more turn follows it. */
  lemma PlanTurn(script: seq<RoundEnv>, keep: nat, budget: int, sequential: bool, turns: seq<nat>)
    requires |turns| < |script| && turns == PlanTo(script, keep, budget, sequential, |turns|)
    requires OrderlyRun(Story(script, Plan(script, keep, budget, sequential)))
    requires turns != [] ==> !Over(budget, sequential, Story(script, turns))
    ensures OrderlyRun(Story(script, turns))
    ensures var n := NextTurn(script, keep, budget, sequential, turns);
      OrderlyRun(Story(script, turns + [n])) && turns + [n] == PlanTo(script, keep, budget, sequential, |turns| + 1)
  {
    hide Over, Left, Story, Occupied, Consumed, OrderlyRun, TurnsOk, NextTurn;
    var n := NextTurn(script, keep, budget, sequential, turns);
    assert turns + [n] == PlanTo(script, keep, budget, sequential, |turns| + 1);
    PlanOrderly(script, keep, budget, sequential, |turns|, |script|);
    PlanOrderly(script, keep, budget, sequential, |turns| + 1, |script|);
  }

  lemma {:induction false} PlanStops(script: seq<RoundEnv>, keep: nat, budget: int, sequential: bool, j: nat, k: nat)
    requires j <= k <= |script|
    requires var p := PlanTo(script, keep, budget, sequential, j);
      |p| == j > 0 && Over(budget, sequential, Story(script, p))
    ensures PlanTo(script, keep, budget, sequential, k) == PlanTo(script, keep, budget, sequential, j)
    decreases k
  {
    hide Over, Left, Story, Occupied, Consumed, NextTurn, TurnsOk;
    if j < k { PlanStops(script, keep, budget, sequential, j, k - 1); }
  }

  /** wait never reports a child. */
  ghost predicate Quiet(script: seq<RoundEnv>) {
    forall i :: 0 <= i < |script| ==> script[i].wait.NoChild? || script[i].wait.pid == 0
  }

  lemma {:induction false} QuietIsOrderly(script: seq<RoundEnv>, turns: seq<nat>)
    requires TurnsOk(script, turns) && Quiet(script)
    ensures OrderlyRun(Story(script, turns))
    decreases |turns|
  {
    if turns != [] {
      var n := |turns| - 1;
      QuietIsOrderly(script, turns[..n]);
      TurnOrderly(Story(script, turns[..n]), script[n], turns[n]);
    }
  }

  /** No pid comes twice from fork, nor is it pan's. */
  ghost predicate DistinctPids(script: seq<RoundEnv>, pan: int) {
    && (forall i: nat, a: nat :: InScript(script, i, a) ==> script[i].starts[a].pid != pan)
    && (forall i: nat, a: nat, j: nat, b: nat :: InScript(script, i, a) && InScript(script, j, b) && (i != j || a != b) ==>
          script[i].starts[a].pid == 0 || script[i].starts[a].pid != script[j].starts[b].pid)
  }

  ghost predicate InScript(script: seq<RoundEnv>, i: nat, a: nat) { i < |script| && a < |script[i].starts| }

  /** Where in the script a fork of the story comes from. */
  lemma {:induction false} Place(script: seq<RoundEnv>, turns: seq<nat>, x: nat) returns (i: nat, a: nat)
    requires TurnsOk(script, turns) && x < |Story(script, turns)| && Story(script, turns)[x].Forked?
    ensures i < |turns| && a < |script[i].starts| && Story(script, turns)[x] == Forked(script[i].starts[a].pid)
    decreases |turns|
  {
    var n := |turns| - 1;
    var before := Story(script, turns[..n]);
    if x < |before| {
      i, a := Place(script, turns[..n], x);
    } else {
      i, a := n, x - |before|;
    }
  }

  lemma {:induction false} ForkedOnce(script: seq<RoundEnv>, turns: seq<nat>, pan: int, x: nat, y: nat)
    requires TurnsOk(script, turns) && DistinctPids(script, pan) && x < y < |Story(script, turns)|
    requires Story(script, turns)[y].Forked? && Story(script, turns)[y].pid != 0
    ensures Story(script, turns)[x] != Story(script, turns)[y]
    decreases |turns|
  {
    var n := |turns| - 1;
    var before := Story(script, turns[..n]);
    if y < |before| {
      ForkedOnce(script, turns[..n], pan, x, y);
    } else if x < |before| && before[x].Forked? {
      var i, a := Place(script, turns[..n], x);
      assert InScript(script, i, a) && InScript(script, n, y - |before|);
      assert script[n].starts[y - |before|].pid != script[i].starts[a].pid;
    } else if x >= |before| {
      assert InScript(script, n, x - |before|) && InScript(script, n, y - |before|);
    }
  }

  /** Then fork's pids are fresh throughout. */
  lemma DistinctIsFresh(script: seq<RoundEnv>, turns: seq<nat>, at: seq<multiset<int>>, pan: int, t: multiset<int>)
    requires TurnsOk(script, turns) && DistinctPids(script, pan) && UniqueIn(Story(script, turns), at, pan, t)
    ensures FreshRun(Story(script, turns), at)
  {
    var h := Story(script, turns);
    hide DistinctPids, Once;
    forall y | 0 <= y < |h| && h[y].Forked? ensures h[y].pid !in at[y] {
      var i, a := Place(script, turns, y);
      NotPan(script, pan, i, a);
      assert Known(h[..y], pan, at[y]);
      if h[y].pid != 0 && h[y] in h[..y] {
        var x :| 0 <= x < y && h[..y][x] == h[y];
        ForkedOnce(script, turns, pan, x, y);
      }
    }
  }

  lemma NotPan(script: seq<RoundEnv>, pan: int, i: nat, a: nat)
    requires DistinctPids(script, pan) && i < |script| && a < |script[i].starts|
    ensures script[i].starts[a].pid != pan
  {
    assert InScript(script, i, a);
  }
}
