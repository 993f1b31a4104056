/** The ping liveness tracker, with time passed in. */
module PingLiveness {
  import opened Options

  datatype Tracker = Tracker(lastInbound: nat, nextPing: nat, outstanding: map<nat, nat>, nextSeq: nat,
                             interval: nat, timeout: nat)

  function Elapsed(now: nat, since: nat): nat {
    if now >= since then now - since else 0
  }

  function Start(now: nat, interval: nat, timeout: nat): Tracker {
    Tracker(now, now + interval, map[], 0, interval, timeout)
  }

  function AfterReset(t: Tracker, now: nat): Tracker {
    t.(lastInbound := now, nextPing := now + t.interval, outstanding := map[])
  }

  function AfterPong(t: Tracker, seqNo: nat, now: nat): Tracker {
    t.(lastInbound := now, outstanding := map k | k in t.outstanding && k > seqNo :: t.outstanding[k])
  }

  function RoundTrip(t: Tracker, seqNo: nat, now: nat): Option<nat> {
    if seqNo in t.outstanding then Some(Elapsed(now, t.outstanding[seqNo])) else None
  }

  predicate Due(t: Tracker, now: nat) {
    now >= t.nextPing
  }

  function AfterPing(t: Tracker, now: nat): Tracker {
    if Due(t, now) then
      t.(nextSeq := t.nextSeq + 1, outstanding := t.outstanding[t.nextSeq := now], nextPing := now + t.interval)
    else t
  }

  predicate TimedOut(t: Tracker, now: nat) {
    Elapsed(now, t.lastInbound) > t.timeout
  }

  function NextWakeup(t: Tracker): nat {
    if t.nextPing <= t.lastInbound + t.timeout then t.nextPing else t.lastInbound + t.timeout
  }

  /** The tracker as the code keeps it. */
  class Liveness {
    var lastInbound: nat
    var nextPing: nat
    var outstanding: map<nat, nat>
    var nextSeq: nat
    const interval: nat
    const timeout: nat

    ghost function State(): Tracker
      reads this
    {
      Tracker(lastInbound, nextPing, outstanding, nextSeq, interval, timeout)
    }

    constructor (now: nat, pingInterval: nat, silence: nat)
      ensures State() == Start(now, pingInterval, silence)
    {
      lastInbound, nextPing, outstanding, nextSeq := now, now + pingInterval, map[], 0;
      interval, timeout := pingInterval, silence;
    }

    method Reset(now: nat)
      modifies this
      ensures State() == AfterReset(old(State()), now)
    {
      lastInbound, nextPing, outstanding := now, now + interval, map[];
    }

    method ObserveInbound(now: nat)
      modifies this
      ensures State() == old(State()).(lastInbound := now)
    {
      lastInbound := now;
    }

    method OnPong(seqNo: nat, now: nat) returns (rtt: Option<nat>)
      modifies this
      ensures State() == AfterPong(old(State()), seqNo, now) && rtt == RoundTrip(old(State()), seqNo, now)
    {
      lastInbound := now;
      rtt := if seqNo in outstanding then Some(Elapsed(now, outstanding[seqNo])) else None;
      outstanding := map k | k in outstanding && k > seqNo :: outstanding[k];
    }

    method ClientPingDue(now: nat) returns (ping: Option<nat>)
      modifies this
      ensures State() == AfterPing(old(State()), now)
      ensures ping == if Due(old(State()), now) then Some(old(nextSeq)) else None
    {
      if now < nextPing { return None; }
      ping := Some(nextSeq);
      outstanding := outstanding[nextSeq := now];
      nextSeq := nextSeq + 1;
      nextPing := now + interval;
    }

    method IsTimedOut(now: nat) returns (r: bool)
      ensures r == TimedOut(State(), now)
    {
      r := Elapsed(now, lastInbound) > timeout;
    }

    method Wakeup() returns (at: nat)
      ensures at == NextWakeup(State())
    {
      var deadline := lastInbound + timeout;
      at := if nextPing <= deadline then nextPing else deadline;
    }
  }

  // ----- runs

  datatype Event = Reset(at: nat) | Inbound(at: nat) | Pong(seqNo: nat, at: nat) | Tick(at: nat)

  function Step(t: Tracker, e: Event): Tracker {
    match e
    case Reset(now) => AfterReset(t, now)
    case Inbound(now) => t.(lastInbound := now)
    case Pong(s, now) => AfterPong(t, s, now)
    case Tick(now) => AfterPing(t, now)
  }

  /** The tracker after a run of events, the latest last. */
  function Run(t0: Tracker, es: seq<Event>): Tracker {
    if es == [] then t0 else Step(Run(t0, es[..|es| - 1]), es[|es| - 1])
  }

  /** Time does not run backwards, from `start` on. */
  predicate InOrder(start: nat, es: seq<Event>) {
    && (forall i :: 0 <= i < |es| ==> start <= es[i].at)
    && (forall i, j :: 0 <= i < j < |es| ==> es[i].at <= es[j].at)
  }

  // What a run did, told from its events alone.

  /** A ping goes out at event `i`: it is a tick, and the interval has passed since the later of
      the start, the last reset and the last ping. */
  predicate Sends(t0: Tracker, es: seq<Event>, i: nat)
    requires i < |es|
    decreases i, 1
  {
    es[i].Tick? && es[i].at >= Anchor(t0, es[..i]) + t0.interval
  }

  /** The latest start, reset or ping. */
  function Anchor(t0: Tracker, es: seq<Event>): nat
    decreases |es|, 0
  {
    if es == [] then t0.lastInbound
    else
      var n := |es| - 1;
      if es[n].Reset? || Sends(t0, es, n) then es[n].at else Anchor(t0, es[..n])
  }

  /** The times of the pings sent, in order. */
  function Sent(t0: Tracker, es: seq<Event>): seq<nat> {
    if es == [] then []
    else
      var n := |es| - 1;
      Sent(t0, es[..n]) + (if Sends(t0, es, n) then [es[n].at] else [])
  }

  /** How many pings had been sent at the last reset. */
  function SentBeforeReset(t0: Tracker, es: seq<Event>): nat {
    if es == [] then 0
    else
      var n := |es| - 1;
      if es[n].Reset? then |Sent(t0, es[..n])| else SentBeforeReset(t0, es[..n])
  }

  /** The last time anything was heard: the start, a reset, a frame or a pong. */
  function LastHeard(t0: Tracker, es: seq<Event>): nat {
    if es == [] then t0.lastInbound
    else
      var n := |es| - 1;
      if es[n].Tick? then LastHeard(t0, es[..n]) else es[n].at
  }

  /** Ping `s` was sent since the last reset, and no pong for it or a later one came since. */
  predicate Waiting(t0: Tracker, es: seq<Event>, s: nat) {
    if es == [] then false
    else
      var n := |es| - 1;
      match es[n]
      case Reset(_) => false
      case Inbound(_) => Waiting(t0, es[..n], s)
      case Pong(q, _) => Waiting(t0, es[..n], s) && s > q
      case Tick(_) => Waiting(t0, es[..n], s) || (Sends(t0, es, n) && s == |Sent(t0, es[..n])|)
  }

  predicate Fresh(t0: Tracker) {
    t0 == Start(t0.lastInbound, t0.interval, t0.timeout)
  }

  /** The tracker's fields say exactly this about its history. */
  lemma {:induction false} FieldsMean(t0: Tracker, es: seq<Event>)
    requires Fresh(t0)
    ensures var t := Run(t0, es);
      && t.interval == t0.interval && t.timeout == t0.timeout
      && t.lastInbound == LastHeard(t0, es)
      && t.nextPing == Anchor(t0, es) + t0.interval
      && t.nextSeq == |Sent(t0, es)|
      && (forall s :: s in t.outstanding <==> Waiting(t0, es, s))
      && (forall s :: s in t.outstanding ==>
            SentBeforeReset(t0, es) <= s < |Sent(t0, es)| && t.outstanding[s] == Sent(t0, es)[s])
      && SentBeforeReset(t0, es) <= |Sent(t0, es)|
  {
    if es != [] { FieldsMean(t0, es[..|es| - 1]); }
  }

  /** Pings carry the numbers 0, 1, 2, ... over the whole run: a number is never used twice,
      whatever resets happen in between. */
  lemma SeqNumbersNeverReused(t0: Tracker, es: seq<Event>, now: nat)
    requires Fresh(t0)
    ensures Due(Run(t0, es), now) <==> Sends(t0, es + [Tick(now)], |es|)
    ensures Due(Run(t0, es), now) ==> Run(t0, es).nextSeq == |Sent(t0, es)| == |Sent(t0, es + [Tick(now)])| - 1
  {
    FieldsMean(t0, es);
    assert (es + [Tick(now)])[..|es|] == es;
  }

  /** Two pings are at least the interval apart. */
  lemma {:induction false} Cadence(t0: Tracker, es: seq<Event>)
    requires Fresh(t0) && InOrder(t0.lastInbound, es)
    ensures forall s :: 0 <= s < |Sent(t0, es)| ==> Sent(t0, es)[s] <= Anchor(t0, es)
    ensures forall s :: 0 < s < |Sent(t0, es)| ==> Sent(t0, es)[s] >= Sent(t0, es)[s - 1] + t0.interval
    ensures Anchor(t0, es) <= if es == [] then t0.lastInbound else es[|es| - 1].at
  {
    if es != [] {
      var n := |es| - 1;
      Cadence(t0, es[..n]);
      assert n > 0 ==> es[n - 1].at <= es[n].at;
    }
  }

  /** A pong for a ping sent before the last reset gives no round trip and drops no ping. */
  lemma StalePong(t0: Tracker, es: seq<Event>, s: nat, now: nat)
    requires Fresh(t0) && s < SentBeforeReset(t0, es)
    ensures RoundTrip(Run(t0, es), s, now).None?
    ensures AfterPong(Run(t0, es), s, now).outstanding == Run(t0, es).outstanding
  {
    FieldsMean(t0, es);
  }

  /** A round trip is reported exactly for a ping still waited for, and is the time since it
      was sent. */
  lemma RoundTripIsExact(t0: Tracker, es: seq<Event>, s: nat, now: nat)
    requires Fresh(t0) && InOrder(t0.lastInbound, es) && now >= (if es == [] then t0.lastInbound else es[|es| - 1].at)
    ensures RoundTrip(Run(t0, es), s, now).Some? <==> Waiting(t0, es, s)
    ensures Waiting(t0, es, s) ==>
      s < |Sent(t0, es)| && Sent(t0, es)[s] <= now && RoundTrip(Run(t0, es), s, now) == Some(now - Sent(t0, es)[s])
  {
    FieldsMean(t0, es);
    Cadence(t0, es);
  }

  /** The link is timed out exactly when nothing was heard for longer than the limit; before the
      wake-up time neither a ping nor the timeout is due, and from then on one of them is, or
      the silence has just reached the limit. */
  lemma TimeoutAndWakeup(t0: Tracker, es: seq<Event>, now: nat)
    requires Fresh(t0)
    ensures var t := Run(t0, es);
      && (TimedOut(t, now) <==> now > LastHeard(t0, es) + t0.timeout)
      && (now < NextWakeup(t) ==> !Due(t, now) && !TimedOut(t, now))
      && (now >= NextWakeup(t) ==> Due(t, now) || now >= LastHeard(t0, es) + t0.timeout)
  {
    FieldsMean(t0, es);
  }
}
