/** lib/tst_checkpoint.c: processes that wait on numbered futexes, and the retrying waker.

    The waker touches the processes only through its futex calls, which the kernel makes
    atomic.  So a run is fixed by what the other processes do between two of those calls, any
    finite list of events each time: sched(k) is what happens before call k. */
module Checkpoint {
  import opened Arith

  const UINT: nat := 0x1_0000_0000
  const INT_MAX: nat := 0x7fff_ffff

  /** A process: outside the library, asleep on a futex, or about to return from the wait with
      0 (released) or -1 (the timeout passed or a signal came). */
  datatype Wait = Running | Sleeping(id: nat) | Released(id: nat) | Expired(id: nat)

  type World = map<nat, Wait>

  /** What the other processes do: enter `tst_checkpoint_wait`, have the wait end without a
      wake, return from it, or wake some of the sleepers on a futex themselves. */
  datatype Event = Enter(p: nat, id: nat) | Expire(p: nat) | Return(p: nat) | OtherWake(id: nat, those: set<nat>)

  /** A waiter whose id is too large returns at once with EOVERFLOW. */
  function StepOf(max: nat, s: Wait, p: nat, e: Event): Wait {
    match e
    case Enter(q, id) => if p == q && s == Running && id < max then Sleeping(id) else s
    case Expire(q) => if p == q && s.Sleeping? then Expired(s.id) else s
    case Return(q) => if p == q && (s.Released? || s.Expired?) then Running else s
    case OtherWake(id, those) => if p in those && s == Sleeping(id) then Released(id) else s
  }

  function Apply(max: nat, w: World, e: Event): World { map p | p in w :: StepOf(max, w[p], p, e) }

  function ApplyAll(max: nat, w: World, es: seq<Event>): World {
    if es == [] then w else Apply(max, ApplyAll(max, w, es[..|es| - 1]), es[|es| - 1])
  }

  function Asleep(w: World, id: nat): set<nat> { set p | p in w && w[p] == Sleeping(id) }

  /** FUTEX_WAKE for up to INT_MAX sleepers; a process id is an int, so there are no more. */
  function Release(w: World, id: nat): World { map p | p in w :: if w[p] == Sleeping(id) then Released(id) else w[p] }

  /** The state the events before the waker's call k start from. */
  ghost function Start(max: nat, w: World, id: nat, sched: nat -> seq<Event>, k: nat): World
    decreases k, 0
  {
    if k == 0 then w else After(max, w, id, sched, k - 1)
  }

  /** The state before and after call k. */
  ghost function Before(max: nat, w: World, id: nat, sched: nat -> seq<Event>, k: nat): World
    decreases k, 1
  {
    ApplyAll(max, Start(max, w, id, sched, k), sched(k))
  }

  ghost function After(max: nat, w: World, id: nat, sched: nat -> seq<Event>, k: nat): World
    decreases k, 2
  {
    Release(Before(max, w, id, sched, k), id)
  }

  /** Sleepers released by calls 0 to k - 1. */
  ghost function Total(max: nat, w: World, id: nat, sched: nat -> seq<Event>, k: nat): nat {
    if k == 0 then 0
    else Total(max, w, id, sched, k - 1) + |Asleep(Before(max, w, id, sched, k - 1), id)|
  }

  function AtLeastOne(t: nat): nat { if t == 0 then 1 else t }

  class Futexes {
    const max: nat
    var procs: World

    constructor (max: nat, procs: World)
      ensures this.max == max && this.procs == procs
    {
      this.max, this.procs := max, procs;
    }

    /** Time passes. */
    method Elapse(es: seq<Event>)
      modifies this
      ensures procs == ApplyAll(max, old(procs), es)
    {
      var i := 0;
      assert es[..0] == [];
      while i < |es|
        invariant i <= |es| && procs == ApplyAll(max, old(procs), es[..i])
      {
        assert es[..i + 1][..i] == es[..i];
        procs := Apply(max, procs, es[i]);
        i := i + 1;
      }
      assert es[..i] == es;
    }

    /** The system call. */
    method FutexWake(id: nat) returns (n: nat)
      modifies this
      ensures n == |Asleep(old(procs), id)| && procs == Release(old(procs), id)
    {
      n := |Asleep(procs, id)|;
      procs := Release(procs, id);
    }

    /** One turn of the waker's loop, up to the comparison. */
    method Round(id: nat, waked: nat, es: seq<Event>, ghost w: World, ghost sched: nat -> seq<Event>, ghost k: nat)
      returns (now: nat)
      requires es == sched(k) && waked == Total(max, w, id, sched, k) % UINT
      requires procs == Start(max, w, id, sched, k)
      modifies this
      ensures now == Total(max, w, id, sched, k + 1) % UINT && procs == After(max, w, id, sched, k)
    {
      hide Start, After, Total, Release, ApplyAll, Asleep;
      OneCall(max, w, id, sched, k);
      Elapse(es);
      var n := FutexWake(id);
      ModAdd(Total(max, w, id, sched, k), n, UINT);
      now := (waked + n) % UINT;
    }

    /** `tst_checkpoint_wake`, with its unsigned counters. */
    method Wake(id: nat, nr: nat, timeout: nat, sched: nat -> seq<Event>) returns (ret: int, err: Errno, rounds: nat)
      requires nr < UINT && timeout < UINT
      modifies this
      ensures id >= max ==> ret == -1 && err == EOVERFLOW && procs == old(procs)
      ensures id < max ==> Outcome(max, old(procs), id, nr, timeout, sched, ret, err, rounds)
      ensures id < max ==> procs == After(max, old(procs), id, sched, rounds - 1)
    {
      hide After, Total;
      rounds := 0;
      if id >= max {
        return -1, EOVERFLOW, 0;
      }
      ghost var w := procs;
      var msecs, waked := 0, 0;
      assert waked == Total(max, w, id, sched, 0) % UINT by { NoneYet(max, w, id, sched); }
      while true
        invariant msecs == rounds < AtLeastOne(timeout)
        invariant waked == Total(max, w, id, sched, rounds) % UINT
        invariant procs == Start(max, w, id, sched, rounds)
        invariant forall k :: 0 < k <= rounds ==> Total(max, w, id, sched, k) % UINT != nr
        decreases timeout - msecs
      {
        waked := Round(id, waked, sched(rounds), w, sched, rounds);
        rounds := rounds + 1;
        if waked == nr {
          return 0, OK, rounds;
        }
        msecs := (msecs + 1) % UINT;
        if msecs >= timeout {
          return -1, ETIMEDOUT, rounds;
        }
      }
    }
  }

  lemma OneCall(max: nat, w: World, id: nat, sched: nat -> seq<Event>, k: nat)
    ensures var v := ApplyAll(max, Start(max, w, id, sched, k), sched(k));
      && After(max, w, id, sched, k) == Release(v, id)
      && Total(max, w, id, sched, k + 1) == Total(max, w, id, sched, k) + |Asleep(v, id)|
  {
  }

  lemma NoneYet(max: nat, w: World, id: nat, sched: nat -> seq<Event>)
    ensures Total(max, w, id, sched, 0) == 0
  {
  }

  datatype Errno = OK | EOVERFLOW | ETIMEDOUT

  /** How the call can end: at the first round where the number released so far is nr, modulo
      the width of the counter, or after as many rounds as the timeout has milliseconds. */
  ghost predicate Outcome(max: nat, w: World, id: nat, nr: nat, timeout: nat, sched: nat -> seq<Event>,
    ret: int, err: Errno, rounds: nat)
  {
    && 0 < rounds <= AtLeastOne(timeout)
    && (forall k :: 0 < k < rounds ==> Total(max, w, id, sched, k) % UINT != nr)
    && if Total(max, w, id, sched, rounds) % UINT == nr then ret == 0 && err == OK
       else ret == -1 && err == ETIMEDOUT && rounds == AtLeastOne(timeout)
  }

  // ---------------------------------------------------------------- what a run keeps

  lemma {:induction false} SameProcesses(max: nat, w: World, es: seq<Event>)
    ensures ApplyAll(max, w, es).Keys == w.Keys
  {
    if es != [] {
      var v := ApplyAll(max, w, es[..|es| - 1]);
      SameProcesses(max, w, es[..|es| - 1]);
      assert Apply(max, v, es[|es| - 1]).Keys == v.Keys;
    }
  }

  lemma BeforeIs(max: nat, w: World, id: nat, sched: nat -> seq<Event>, k: nat)
    ensures Start(max, w, id, sched, k) == if k == 0 then w else Release(Before(max, w, id, sched, k - 1), id)
    ensures Before(max, w, id, sched, k) == ApplyAll(max, Start(max, w, id, sched, k), sched(k))
  {
  }

  lemma {:induction false} RunKeepsProcesses(max: nat, w: World, id: nat, sched: nat -> seq<Event>, k: nat)
    ensures Before(max, w, id, sched, k).Keys == w.Keys
  {
    BeforeIs(max, w, id, sched, k);
    SameProcesses(max, Start(max, w, id, sched, k), sched(k));
    if k > 0 {
      RunKeepsProcesses(max, w, id, sched, k - 1);
      var v := Before(max, w, id, sched, k - 1);
      assert Release(v, id).Keys == v.Keys;
    }
  }

  /** Each call leaves nobody asleep on its futex. */
  lemma NobodyLeft(max: nat, w: World, id: nat, sched: nat -> seq<Event>, k: nat)
    ensures Asleep(After(max, w, id, sched, k), id) == {}
  {
  }

  /** The state of one process under events alone. */
  ghost function Alone(max: nat, s: Wait, p: nat, es: seq<Event>): Wait {
    if es == [] then s else StepOf(max, Alone(max, s, p, es[..|es| - 1]), p, es[|es| - 1])
  }

  /** The events before calls 0 to k, joined. */
  ghost function History(sched: nat -> seq<Event>, k: nat): seq<Event> {
    (if k == 0 then [] else History(sched, k - 1)) + sched(k)
  }

  lemma {:induction false} ApplyAllAlone(max: nat, w: World, es: seq<Event>, p: nat)
    requires p in w
    ensures p in ApplyAll(max, w, es) && ApplyAll(max, w, es)[p] == Alone(max, w[p], p, es)
  {
    if es != [] { ApplyAllAlone(max, w, es[..|es| - 1], p); }
  }

  lemma {:induction false} AloneJoins(max: nat, s: Wait, p: nat, es: seq<Event>, fs: seq<Event>)
    ensures Alone(max, s, p, es + fs) == Alone(max, Alone(max, s, p, es), p, fs)
    decreases |fs|
  {
    if fs == [] {
      assert es + fs == es;
    } else {
      var init := fs[..|fs| - 1];
      AloneJoins(max, s, p, es, init);
      assert (es + fs)[..|es + fs| - 1] == es + init;
    }
  }

  /** p never enters a wait on id. */
  ghost predicate Avoids(p: nat, id: nat, es: seq<Event>) { forall i :: 0 <= i < |es| ==> es[i] != Enter(p, id) }

  lemma {:induction false} StaysAway(max: nat, s: Wait, p: nat, id: nat, es: seq<Event>)
    requires s != Sleeping(id) && Avoids(p, id, es)
    ensures Alone(max, s, p, es) != Sleeping(id)
  {
    if es != [] {
      var init := es[..|es| - 1];
      StaysAway(max, s, p, id, init);
      assert es[|es| - 1] != Enter(p, id);
    }
  }

  lemma AvoidsParts(p: nat, id: nat, es: seq<Event>, fs: seq<Event>)
    requires Avoids(p, id, es + fs)
    ensures Avoids(p, id, es) && Avoids(p, id, fs)
  {
    forall i | 0 <= i < |es| ensures es[i] != Enter(p, id) { assert (es + fs)[i] == es[i]; }
    forall i | 0 <= i < |fs| ensures fs[i] != Enter(p, id) { assert (es + fs)[|es| + i] == fs[i]; }
  }

  /** A process that keeps off futex id fares as if the waker were not there. */
  lemma {:induction false} OthersUntouched(max: nat, w: World, id: nat, sched: nat -> seq<Event>, k: nat, p: nat)
    requires p in w && w[p] != Sleeping(id) && Avoids(p, id, History(sched, k))
    ensures var v := After(max, w, id, sched, k); p in v && v[p] == Alone(max, w[p], p, History(sched, k))
  {
    var es := if k == 0 then [] else History(sched, k - 1);
    AvoidsParts(p, id, es, sched(k));
    var s := Alone(max, w[p], p, es);
    if k > 0 { OthersUntouched(max, w, id, sched, k - 1, p); }
    StaysAway(max, w[p], p, id, es);
    StaysAway(max, s, p, id, sched(k));
    ApplyAllAlone(max, Start(max, w, id, sched, k), sched(k), p);
    AloneJoins(max, w[p], p, es, sched(k));
  }

  // ---------------------------------------------------------------- conservation

  /** What an event adds to the sleepers on id. */
  function Effect(max: nat, w: World, e: Event, id: nat): int {
    match e
    case Enter(p, i) => if i == id < max && p in w && w[p] == Running then 1 else 0
    case Expire(p) => if p in w && w[p] == Sleeping(id) then -1 else 0
    case Return(_) => 0
    case OtherWake(i, those) => if i == id then -|those * Asleep(w, id)| else 0
  }

  lemma EnterEffect(max: nat, w: World, p: nat, i: nat, id: nat)
    ensures Asleep(Apply(max, w, Enter(p, i)), id) ==
      if i == id < max && p in w && w[p] == Running then Asleep(w, id) + {p} else Asleep(w, id)
  {
  }

  lemma ExpireEffect(max: nat, w: World, p: nat, id: nat)
    ensures Asleep(Apply(max, w, Expire(p)), id) == Asleep(w, id) - {p}
  {
  }

  lemma WakeEffect(max: nat, w: World, i: nat, those: set<nat>, id: nat)
    ensures Asleep(Apply(max, w, OtherWake(i, those)), id) == if i == id then Asleep(w, id) - those else Asleep(w, id)
  {
  }

  lemma ReturnEffect(max: nat, w: World, p: nat, id: nat)
    ensures Asleep(Apply(max, w, Return(p)), id) == Asleep(w, id)
  {
  }

  lemma AsleepIs(w: World, id: nat, p: nat)
    ensures p in Asleep(w, id) <==> p in w && w[p] == Sleeping(id)
  {
  }

  lemma EffectIs(max: nat, w: World, e: Event, id: nat)
    ensures |Asleep(Apply(max, w, e), id)| == |Asleep(w, id)| + Effect(max, w, e, id)
  {
    hide Asleep, Apply;
    var A := Asleep(w, id);
    match e {
      case Enter(p, i) => EnterEffect(max, w, p, i, id); AsleepIs(w, id, p);
      case Expire(p) => ExpireEffect(max, w, p, id); AsleepIs(w, id, p);
      case Return(p) => ReturnEffect(max, w, p, id);
      case OtherWake(i, those) =>
        WakeEffect(max, w, i, those, id);
        assert A == (A - those) + (those * A);
    }
  }

  function Net(max: nat, w: World, es: seq<Event>, id: nat): int {
    if es == [] then 0
    else var init := es[..|es| - 1]; Net(max, w, init, id) + Effect(max, ApplyAll(max, w, init), es[|es| - 1], id)
  }

  lemma {:induction false} NetIs(max: nat, w: World, es: seq<Event>, id: nat)
    ensures |Asleep(ApplyAll(max, w, es), id)| == |Asleep(w, id)| + Net(max, w, es, id)
  {
    hide Effect, Asleep, Apply;
    if es != [] {
      var init := es[..|es| - 1];
      NetIs(max, w, init, id);
      EffectIs(max, ApplyAll(max, w, init), es[|es| - 1], id);
    }
  }

  /** Arrivals less departures by other means, up to call k - 1. */
  ghost function NetArrivals(max: nat, w: World, id: nat, sched: nat -> seq<Event>, k: nat): int {
    if k == 0 then 0
    else NetArrivals(max, w, id, sched, k - 1) + Net(max, Start(max, w, id, sched, k - 1), sched(k - 1), id)
  }

  /** Nobody is counted twice and nobody is missed: the waker has released the first sleepers
      and all who came since, except those who left otherwise. */
  lemma {:induction false} Conservation(max: nat, w: World, id: nat, sched: nat -> seq<Event>, k: nat)
    requires k > 0
    ensures Total(max, w, id, sched, k) == |Asleep(w, id)| + NetArrivals(max, w, id, sched, k)
  {
    hide Net, Asleep, ApplyAll, Release;
    NetIs(max, Start(max, w, id, sched, k - 1), sched(k - 1), id);
    if k == 1 {
      NoneYet(max, w, id, sched);
    } else {
      Conservation(max, w, id, sched, k - 1);
      NobodyLeft(max, w, id, sched, k - 2);
    }
  }

  // ---------------------------------------------------------------- the count

  lemma AsleepBound(w: World, id: nat)
    ensures |Asleep(w, id)| <= |w|
  {
    assert Asleep(w, id) <= w.Keys;
    SubsetSize(Asleep(w, id), w.Keys);
  }

  lemma {:induction false} SubsetSize(a: set<nat>, b: set<nat>)
    requires a <= b
    ensures |a| <= |b|
  {
    assert b == a + (b - a);
  }

  lemma {:induction false} TotalBound(max: nat, w: World, id: nat, sched: nat -> seq<Event>, k: nat)
    ensures Total(max, w, id, sched, k) <= k * |w|
  {
    hide Before, Asleep;
    if k > 0 {
      TotalBound(max, w, id, sched, k - 1);
      var v := Before(max, w, id, sched, k - 1);
      RunKeepsProcesses(max, w, id, sched, k - 1);
      AsleepBound(v, id);
      assert |v| == |v.Keys| && |w| == |w.Keys|;
      assert k * |w| == (k - 1) * |w| + |w|;
    }
  }

  lemma {:induction false} TotalGrows(max: nat, w: World, id: nat, sched: nat -> seq<Event>, j: nat, k: nat)
    requires j <= k
    ensures Total(max, w, id, sched, j) <= Total(max, w, id, sched, k)
  {
    if j < k { TotalGrows(max, w, id, sched, j, k - 1); }
  }

  /** If at some round before the timeout exactly nr sleepers have been released, the call
      succeeds, no later, having released exactly nr. */
  lemma Rendezvous(max: nat, w: World, id: nat, nr: nat, timeout: nat, sched: nat -> seq<Event>, k: nat,
    ret: int, err: Errno, rounds: nat)
    requires nr < UINT && Outcome(max, w, id, nr, timeout, sched, ret, err, rounds)
    requires 0 < k <= AtLeastOne(timeout) && Total(max, w, id, sched, k) == nr
    ensures ret == 0 && rounds <= k && Total(max, w, id, sched, rounds) == nr
  {
    hide Total;
    assert rounds <= k;
    TotalGrows(max, w, id, sched, rounds, k);
  }

  /** Success means exactly nr, for every run of n processes. */
  ghost predicate CountsExactly(n: nat, timeout: nat) {
    forall max, w: World, id, nr: nat, sched, err, rounds ::
      |w| == n && id < max && nr < UINT && Outcome(max, w, id, nr, timeout, sched, 0, err, rounds) ==>
      Total(max, w, id, sched, rounds) == nr
  }

  lemma {:induction false} MulMono(a: nat, b: nat, n: nat)
    requires a <= b
    ensures a * n <= b * n
  {
    MulStep(a, b, n);
  }

  lemma EnoughRoom(n: nat, timeout: nat)
    requires n * AtLeastOne(timeout) < UINT
    ensures CountsExactly(n, timeout)
  {
    hide Total;
    forall max, w: World, id, nr: nat, sched, err, rounds |
      |w| == n && id < max && nr < UINT && Outcome(max, w, id, nr, timeout, sched, 0, err, rounds)
      ensures Total(max, w, id, sched, rounds) == nr
    {
      TotalBound(max, w, id, sched, rounds);
      MulMono(rounds, AtLeastOne(timeout), n);
      assert AtLeastOne(timeout) * n == n * AtLeastOne(timeout);
    }
  }

  // A run that goes round the counter: every process comes back for more each time.

  function UpTo(n: nat): (r: set<nat>)
    ensures |r| == n && forall p: nat :: p in r <==> p < n
  {
    if n == 0 then {} else var s := UpTo(n - 1); assert n - 1 !in s; s + {n - 1}
  }

  function AllAsleep(n: nat): World { map p | p in UpTo(n) :: Sleeping(0) }

  function Recycle(n: nat): seq<Event> { if n == 0 then [] else Recycle(n - 1) + [Return(n - 1), Enter(n - 1, 0)] }

  lemma {:induction false} RecycleOne(n: nat, p: nat)
    ensures Alone(1, Released(0), p, Recycle(n)) == if p < n then Sleeping(0) else Released(0)
  {
    if n > 0 {
      RecycleOne(n - 1, p);
      var a, b := Return(n - 1), Enter(n - 1, 0);
      var s := Alone(1, Released(0), p, Recycle(n - 1));
      AloneJoins(1, Released(0), p, Recycle(n - 1), [a, b]);
      assert [a, b][..1] == [a] && [a][..0] == [];
      assert Alone(1, s, p, [a]) == StepOf(1, s, p, a);
      assert Alone(1, s, p, [a, b]) == StepOf(1, StepOf(1, s, p, a), p, b);
    }
  }

  function Busy(n: nat): nat -> seq<Event> { k => if k == 0 then [] else Recycle(n) }

  lemma RecycleAll(n: nat)
    ensures ApplyAll(1, Release(AllAsleep(n), 0), Recycle(n)) == AllAsleep(n)
  {
    var w := Release(AllAsleep(n), 0);
    SameProcesses(1, w, Recycle(n));
    forall p | p in w ensures ApplyAll(1, w, Recycle(n))[p] == AllAsleep(n)[p] {
      ApplyAllAlone(1, w, Recycle(n), p);
      RecycleOne(n, p);
    }
  }

  lemma {:induction false} BusyBefore(n: nat, k: nat)
    ensures Before(1, AllAsleep(n), 0, Busy(n), k) == AllAsleep(n)
  {
    BeforeIs(1, AllAsleep(n), 0, Busy(n), k);
    if k > 0 {
      BusyBefore(n, k - 1);
      RecycleAll(n);
    }
  }

  lemma AllAsleepSize(n: nat)
    ensures |Asleep(AllAsleep(n), 0)| == n && |AllAsleep(n)| == n
  {
    assert Asleep(AllAsleep(n), 0) == UpTo(n);
    assert AllAsleep(n).Keys == UpTo(n);
  }

  lemma {:induction false} BusyTotal(n: nat, k: nat)
    ensures Total(1, AllAsleep(n), 0, Busy(n), k) == k * n
  {
    hide Before, Asleep, AllAsleep, Busy;
    if k > 0 {
      BusyTotal(n, k - 1);
      BusyBefore(n, k - 1);
      AllAsleepSize(n);
      assert k * n == (k - 1) * n + n;
    }
  }

  /** The first multiple of n that does not fit the counter. */
  lemma {:induction false} FirstWrap(n: nat, k: nat) returns (r: nat)
    requires n > 0 && k * n >= UINT
    ensures 0 < r <= k && r * n >= UINT && (r - 1) * n < UINT
    decreases k
  {
    if (k - 1) * n < UINT {
      r := k;
    } else {
      r := FirstWrap(n, k - 1);
    }
  }

  lemma WrapOutcome(n: nat, timeout: nat, r: nat)
    requires 0 < n < UINT && 0 < r <= AtLeastOne(timeout) && r * n >= UINT && (r - 1) * n < UINT
    ensures r * n - UINT < n && Outcome(1, AllAsleep(n), 0, r * n - UINT, timeout, Busy(n), 0, OK, r)
  {
    hide Total, AllAsleep, Busy;
    var nr := r * n - UINT;
    assert r * n == (r - 1) * n + n;
    forall k | 0 < k <= r ensures Total(1, AllAsleep(n), 0, Busy(n), k) == k * n { BusyTotal(n, k); }
    forall k | 0 < k < r ensures n <= k * n < UINT {
      MulMono(1, k, n);
      MulMono(k, r - 1, n);
    }
  }

  /** The count is exact for every run precisely when the counter cannot go round. */
  lemma CountsExactlyWhen(n: nat, timeout: nat)
    requires 0 < n <= INT_MAX && timeout < UINT
    ensures CountsExactly(n, timeout) <==> n * AtLeastOne(timeout) < UINT
  {
    if n * AtLeastOne(timeout) < UINT {
      EnoughRoom(n, timeout);
    } else {
      var r := FirstWrap(n, AtLeastOne(timeout));
      WrapOutcome(n, timeout, r);
      BusyTotal(n, r);
      AllAsleepSize(n);
      WrapWitness(n, timeout, r);
    }
  }

  lemma WrapWitness(n: nat, timeout: nat, r: nat)
    requires r * n >= UINT && r * n - UINT < UINT && |AllAsleep(n)| == n
    requires Outcome(1, AllAsleep(n), 0, r * n - UINT, timeout, Busy(n), 0, OK, r)
    requires Total(1, AllAsleep(n), 0, Busy(n), r) == r * n
    ensures !CountsExactly(n, timeout)
  {
    hide Total, AllAsleep, Busy, Outcome;
  }
}
