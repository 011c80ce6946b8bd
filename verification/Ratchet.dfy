/** pan/ltp-pan.c: the signal ratchet, `wait_handler` and its three variables.

    `rec_signal` and `send_signal` are pan's globals, `last` is the handler's static variable.
    Signals arrive between pan's stores, also the two of a flush. */
module Ratchet {

  const SIGHUP := 1
  const SIGINT := 2
  const SIGKILL := 9
  const SIGUSR1 := 10
  const SIGUSR2 := 12
  const SIGALRM := 14
  const SIGTERM := 15

  datatype Ratchet = Ratchet(rec: int, send: int, last: int)

  const INITIAL := Ratchet(0, 0, 0)

  /** The signals pan catches. */
  const CAUGHT: set<int> := {SIGALRM, SIGINT, SIGTERM, SIGHUP, SIGUSR1, SIGUSR2}

  /** `wait_handler(sig)`. */
  function Handle(r: Ratchet, sig: int): Ratchet {
    if sig == 0 then r.(last := 0)
    else if sig == SIGUSR2 then r.(rec := sig)
    else
      var send :=
        if r.last == 0 then sig
        else if r.last == SIGUSR1 then SIGINT
        else if r.last == sig then SIGTERM
        else if r.last == SIGTERM then SIGHUP
        else if r.last == SIGHUP then SIGKILL
        else r.send;
      Ratchet(sig, send, send)
  }

  /** The ratchet after a sequence of signals. */
  function Delivered(r: Ratchet, signals: seq<int>): Ratchet {
    if signals == [] then r else Handle(Delivered(r, signals[..|signals| - 1]), signals[|signals| - 1])
  }

  predicate AllCaught(signals: seq<int>) { forall i :: 0 <= i < |signals| ==> signals[i] in CAUGHT }

  /** `rec_signal = send_signal = 0`, undisturbed. */
  function Flush(r: Ratchet): Ratchet { r.(rec := 0, send := 0) }

  /** The same as the two stores it is, with signals arriving between them. */
  function Torn(r: Ratchet, during: seq<int>): Ratchet { Delivered(r.(send := 0), during).(rec := 0) }

  /** Everything that happens to the ratchet during a run of pan. */
  datatype Event =
    | Caught(sig: int)            // a signal arrives, or pan calls wait_handler(SIGINT) itself
    | Reset                       // wait_handler(0), when pan becomes idle
    | Flushed(during: seq<int>)   // after a signal was propagated or SIGUSR2 was consumed
    | AlarmIsTerm                 // propagate_signal renames a received SIGALRM

  predicate Possible(e: Event) {
    match e
    case Caught(sig) => sig in CAUGHT
    case Flushed(during) => AllCaught(during)
    case _ => true
  }

  function Apply(r: Ratchet, e: Event): Ratchet {
    match e
    case Caught(sig) => Handle(r, sig)
    case Reset => Handle(r, 0)
    case Flushed(during) => Torn(r, during)
    case AlarmIsTerm => if r.rec == SIGALRM then r.(rec := SIGTERM) else r
  }

  function Run(es: seq<Event>): Ratchet {
    if es == [] then INITIAL else Apply(Run(es[..|es| - 1]), es[|es| - 1])
  }

  /** The values the variables can have. */
  predicate Typed(r: Ratchet) {
    && r.rec in CAUGHT + {0}
    && r.send in {0, SIGALRM, SIGINT, SIGTERM, SIGHUP, SIGUSR1, SIGKILL}
    && r.last in {0, SIGALRM, SIGINT, SIGTERM, SIGHUP, SIGUSR1, SIGKILL}
  }

  /** No signal waits to be sent unless one was received. */
  predicate Sound(r: Ratchet) { Typed(r) && (r.rec == 0 ==> r.send == 0) }

  // ---------------------------------------------------------------- signals between the stores

  /** The signals that move the ratchet. */
  function Moving(signals: seq<int>): seq<int> {
    if signals == [] then []
    else
      var n := |signals| - 1;
      Moving(signals[..n]) + if signals[n] == SIGUSR2 then [] else [signals[n]]
  }

  /** The handler has no rule for the signal: send_signal stays as it is. */
  predicate NoRule(last: int, sig: int) { last !in {0, SIGUSR1, SIGTERM, SIGHUP} && last != sig }

  /** Signals that leave no trace in send_signal when they fall between the two stores. */
  predicate Harmless(last: int, during: seq<int>) {
    Moving(during) == [] || (|Moving(during)| == 1 && NoRule(last, Moving(during)[0]))
  }

  lemma {:induction false} DeliveredFromNothing(r: Ratchet, during: seq<int>)
    requires Typed(r) && r.send == 0 && AllCaught(during)
    ensures var d := Delivered(r, during);
      && Typed(d) && (d.send == 0 <==> Harmless(r.last, during))
      && (Moving(during) == [] ==> d.last == r.last) && (Moving(during) != [] ==> d.last == d.send)
  {
    if during != [] {
      var n := |during| - 1;
      DeliveredFromNothing(r, during[..n]);
      assert during[n] in CAUGHT;
    }
  }

  /** The flush empties send_signal exactly when the signals between its stores are harmless. */
  lemma TornFlush(r: Ratchet, during: seq<int>)
    requires Typed(r) && AllCaught(during)
    ensures var t := Torn(r, during); Typed(t) && t.rec == 0 && (t.send == 0 <==> Harmless(r.last, during))
  {
    DeliveredFromNothing(r.(send := 0), during);
  }

  lemma SoundStep(r: Ratchet, e: Event)
    requires Sound(r) && Possible(e)
    ensures Typed(Apply(r, e))
    ensures Sound(Apply(r, e)) <==> (e.Flushed? ==> Harmless(r.last, e.during))
  {
    hide Harmless, Torn;
    if e.Flushed? { TornFlush(r, e.during); }
  }

  ghost predicate AllHarmless(es: seq<Event>) {
    forall i :: 0 <= i < |es| && es[i].Flushed? ==> Harmless(Run(es[..i]).last, es[i].during)
  }

  /** In every state of a run a signal waiting to be sent means one was received, if and only if
      no signal that leaves a trace falls between the two stores of a flush. */
  lemma {:induction false} EveryRunSound(es: seq<Event>)
    requires forall i :: 0 <= i < |es| ==> Possible(es[i])
    ensures (forall k :: 0 <= k <= |es| ==> Sound(Run(es[..k]))) <==> AllHarmless(es)
  {
    hide Harmless, Sound, Run, Apply;
    if es == [] {
      assert Sound(Run([])) by { StartsSound(); }
    } else {
      var n := |es| - 1;
      var init := es[..n];
      EveryRunSound(init);
      assert forall k :: 0 <= k <= n ==> init[..k] == es[..k];
      assert es[..n + 1] == es;
      LastEvent(es);
      if Sound(Run(init)) { SoundStep(Run(init), es[n]); }
      assert init[..n] == init;
      assert AllHarmless(es) <==> AllHarmless(init) && (es[n].Flushed? ==> Harmless(Run(init).last, es[n].during)) by {
        assert forall i :: 0 <= i < n ==> init[i] == es[i];
      }
    }
  }

  lemma StartsSound()
    ensures Sound(Run([]))
  {
  }

  lemma LastEvent(es: seq<Event>)
    requires es != []
    ensures Run(es) == Apply(Run(es[..|es| - 1]), es[|es| - 1])
  {
  }

  /** A signal does slip in: after the first one, another between the stores is received and lost,
      and left to be sent. */
  lemma SignalLost()
    ensures var t := Run([Caught(SIGINT), Flushed([SIGINT])]); t.rec == 0 && t.send == SIGTERM
  {
    var one, es, during := [Caught(SIGINT)], [Caught(SIGINT), Flushed([SIGINT])], [SIGINT];
    assert es[..1] == one && one[..0] == [] && during[..0] == [];
    var r := Run(one);
    LastEvent(one);
    LastEvent(es);
    assert Run([]) == INITIAL;
    assert r == Handle(INITIAL, SIGINT) == Ratchet(SIGINT, SIGINT, SIGINT);
    assert Delivered(r.(send := 0), during) == Handle(r.(send := 0), SIGINT);
  }

  // ---------------------------------------------------------------- the drain loop

  /** One round of the orphan-drain loop: SIGINT is simulated unless a signal is pending. */
  function Pushed(r: Ratchet): Ratchet { if r.rec == 0 then Handle(r, SIGINT) else r }

  /** The signals the drain loop sends in its next n rounds if no signal arrives meanwhile. */
  function DrainSends(r: Ratchet, n: nat): (s: seq<int>)
    ensures |s| == n
    decreases n
  {
    if n == 0 then [] else [Pushed(r).send] + DrainSends(Flush(Pushed(r)), n - 1)
  }

  /** The round, counted from 1, in which SIGKILL is sent. */
  function RoundsToKill(last: int): nat {
    if last == SIGHUP then 1
    else if last == SIGTERM then 2
    else if last == SIGINT then 3
    else if last == SIGUSR1 || last == 0 then 4
    else 5  // SIGKILL was sent, or SIGALRM: the handler falls through once and starts over
  }

  lemma {:induction false} NextRound(r: Ratchet)
    requires Sound(r) && r.rec == 0
    ensures var t := Flush(Pushed(r)); Sound(t) && t.rec == 0
    ensures var t := Flush(Pushed(r));
      if RoundsToKill(r.last) == 1 then Pushed(r).send == SIGKILL
      else Pushed(r).send != SIGKILL && RoundsToKill(t.last) == RoundsToKill(r.last) - 1
  {
  }

  /** From any reachable state with nothing pending, SIGKILL is sent in exactly the round
      RoundsToKill names, at the latest the fifth, and in no earlier one. */
  lemma {:induction false} KillWithinFive(r: Ratchet, n: nat)
    requires Sound(r) && r.rec == 0 && n >= RoundsToKill(r.last)
    ensures RoundsToKill(r.last) <= 5
    ensures DrainSends(r, n)[RoundsToKill(r.last) - 1] == SIGKILL
    ensures forall i :: 0 <= i < RoundsToKill(r.last) - 1 ==> DrainSends(r, n)[i] != SIGKILL
    decreases n
  {
    var k := RoundsToKill(r.last);
    NextRound(r);
    if k > 1 {
      KillWithinFive(Flush(Pushed(r)), n - 1);
    }
  }
}
