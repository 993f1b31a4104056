/** The transport supervisor: scoring, probing and hot-swapping transports, with time, probe
    outcomes and incoming commands as inputs. Times are in milliseconds. */
module TransportSupervision {
  import opened Options
  import opened Ranking

  datatype Kind = Uds | Quic | TcpTls | Tcp

  const LATENCY_UNKNOWN := 500
  const FAILURE_WINDOW := 300_000
  const OSCILLATION_WINDOW := 60_000
  const PROBE_INTERVAL := 30_000

  datatype Health = Health(kind: Kind, address: string, rtt: Option<real>, failures: nat,
                           lastFailure: Option<nat>, lastSwapAway: Option<nat>, priority: int)

  // ----- health and score

  function RecordRtt(h: Health, sample: real): Health {
    h.(rtt := Some(if h.rtt.Some? then h.rtt.value * 0.8 + sample * 0.2 else sample))
  }

  function RecordMany(h: Health, sample: real, n: nat): Health {
    if n == 0 then h else RecordRtt(RecordMany(h, sample, n - 1), sample)
  }

  function Power(x: real, n: nat): real {
    if n == 0 then 1.0 else x * Power(x, n - 1)
  }

  /** The average closes a fifth of its distance to the measurements with each of them. */
  lemma {:induction false} AverageConverges(h: Health, sample: real, n: nat)
    requires h.rtt.Some?
    ensures var r := RecordMany(h, sample, n).rtt; r.Some? && r.value - sample == Power(0.8, n) * (h.rtt.value - sample)
  {
    if n > 0 {
      AverageConverges(h, sample, n - 1);
      assert Power(0.8, n) == 0.8 * Power(0.8, n - 1);
    }
  }

  /** The first measurement is taken as it is; each later one moves the average a fifth of the way. */
  lemma FirstSample(h: Health, sample: real)
    ensures h.rtt.None? ==> RecordRtt(h, sample) == h.(rtt := Some(sample))
    ensures h.rtt.Some? ==> RecordRtt(h, sample) == h.(rtt := Some((4.0 * h.rtt.value + sample) / 5.0))
  {}

  function RecordFailure(h: Health, now: nat): Health {
    h.(failures := h.failures + 1, lastFailure := Some(now))
  }

  function MarkSwapAway(h: Health, now: nat): Health {
    h.(lastSwapAway := Some(now))
  }

  /** A float cast to an integer: towards zero. */
  function Truncated(r: real): int {
    if r >= 0.0 then r.Floor else -((-r).Floor)
  }

  predicate Within(since: Option<nat>, now: nat, window: nat) {
    since.Some? && now - since.value < window
  }

  function Robustness(k: Kind): int {
    match k case Uds => 30 case Quic => 20 case TcpTls => 10 case Tcp => 5
  }

  function Latency(h: Health): int {
    if h.rtt.Some? then Truncated(h.rtt.value) else LATENCY_UNKNOWN
  }

  /** What recent failures and a recent swap away cost. */
  function Penalty(h: Health, now: nat): nat {
    (if h.failures > 0 && Within(h.lastFailure, now, FAILURE_WINDOW) then 100 * h.failures else 0)
    + (if Within(h.lastSwapAway, now, OSCILLATION_WINDOW) then 200 else 0)
  }

  /** What an endpoint's score owes to neither latency nor penalties. */
  function Merit(isLocal: bool, h: Health): int {
    (if isLocal && h.kind.Uds? then 1000 else 0) + Robustness(h.kind) + h.priority
  }

  /** `TransportScorer::score`. */
  function Score(isLocal: bool, h: Health, now: nat): int {
    Merit(isLocal, h) - Latency(h) - Penalty(h, now)
  }

  /** On a local target the socket outranks every other transport of no higher priority for as long
      as its latency and penalties together stay below 1010. */
  lemma LocalSocketWins(socket: Health, other: Health, now: nat)
    requires socket.kind.Uds? && !other.kind.Uds? && other.priority <= socket.priority
    requires Latency(socket) + Penalty(socket, now) < 1010 && (other.rtt.Some? ==> other.rtt.value >= 0.0)
    ensures Score(true, socket, now) > Score(true, other, now)
  {
    assert Latency(other) >= 0;
  }

  /** The kinds rank socket, QUIC, TLS, TCP, and the socket far above all on a local target. */
  lemma KindsRank(isLocal: bool, h: Health, now: nat)
    ensures Score(false, h.(kind := Uds), now) == Score(false, h.(kind := Quic), now) + 10
    ensures Score(isLocal, h.(kind := Quic), now) == Score(isLocal, h.(kind := TcpTls), now) + 10
    ensures Score(isLocal, h.(kind := TcpTls), now) == Score(isLocal, h.(kind := Tcp), now) + 5
    ensures Score(true, h.(kind := Uds), now) == Score(false, h.(kind := Uds), now) + 1000
  {
    hide Latency, Penalty;
    assert forall k :: Latency(h.(kind := k)) == Latency(h) && Penalty(h.(kind := k), now) == Penalty(h, now) by {
      KindFree(h, now);
    }
  }

  lemma KindFree(h: Health, now: nat)
    ensures forall k :: Latency(h.(kind := k)) == Latency(h) && Penalty(h.(kind := k), now) == Penalty(h, now)
  {}

  /** What else a score is made of, one thing changed at a time: a latency not known counts as 500 ms, and
      each whole millisecond costs a point; each failure within five minutes of the last costs 100; a
      priority adds to it. */
  lemma ScoreParts(isLocal: bool, h: Health, now: nat, ms: nat, part: real)
    requires 0.0 <= part < 1.0
    ensures Score(isLocal, h.(rtt := None), now) == Score(isLocal, h.(rtt := Some(500.0)), now)
    ensures Score(isLocal, h.(rtt := Some(ms as real + part)), now) == Score(isLocal, h.(rtt := Some(0.0)), now) - ms
    ensures h.lastFailure.Some? && now - h.lastFailure.value < 300_000 ==>
      Score(isLocal, h, now) == Score(isLocal, h.(failures := 0), now) - 100 * h.failures
    ensures Score(isLocal, h, now) == Score(isLocal, h.(priority := 0), now) + h.priority
  {}

  /** The score forgets: five minutes after its last failure and one after it was left, a record
      scores as if it were clean. Being probed at all is another matter: see `LockedOut`. */
  lemma PenaltiesLapse(isLocal: bool, h: Health, now: nat)
    requires h.lastFailure.Some? ==> h.lastFailure.value + FAILURE_WINDOW <= now
    requires h.lastSwapAway.Some? ==> h.lastSwapAway.value + OSCILLATION_WINDOW <= now
    ensures Score(isLocal, h, now) == Score(isLocal, h.(failures := 0, lastFailure := None, lastSwapAway := None), now)
  {}

  function Scores(isLocal: bool, eps: seq<Health>, now: nat): (r: seq<int>)
    ensures |r| == |eps| && forall i :: 0 <= i < |eps| ==> r[i] == Score(isLocal, eps[i], now)
  {
    seq(|eps|, i requires 0 <= i < |eps| => Score(isLocal, eps[i], now))
  }

  /** The first endpoint of a kind. */
  function FirstOf(eps: seq<Health>, k: Kind): (i: Option<nat>)
    ensures i.Some? ==> i.value < |eps| && eps[i.value].kind == k && forall j :: 0 <= j < i.value ==> eps[j].kind != k
    ensures i.None? ==> forall j :: 0 <= j < |eps| ==> eps[j].kind != k
  {
    if eps == [] then None
    else if eps[0].kind == k then Some(0)
    else match FirstOf(eps[1..], k) case None => None case Some(i) => Some(i + 1)
  }

  /** The first ranked endpoint that is not of the active kind. */
  function FirstOther(eps: seq<Health>, active: Kind, order: seq<nat>): (i: Option<nat>)
    requires forall k :: 0 <= k < |order| ==> order[k] < |eps|
    ensures i.Some? ==> i.value in order && i.value < |eps| && eps[i.value].kind != active
    ensures i.None? ==> forall k :: 0 <= k < |order| ==> eps[order[k]].kind == active
  {
    if order == [] then None
    else if eps[order[0]].kind != active then Some(order[0])
    else FirstOther(eps, active, order[1..])
  }

  // ----- state and inputs

  datatype State = State(endpoints: seq<Health>, active: Kind, forced: Option<Kind>)

  datatype Sample = Sample(kind: Kind, rtt: real)

  datatype Wake = Tick | Override(target: Option<Kind>)

  /** One round: the samples drained while waiting, what ended the wait and when, and how a probe
      would turn out and how long it would take. */
  datatype Input = Input(samples: seq<Sample>, wake: Wake, now: nat, accepted: bool, took: nat)

  /** A probe that was made: of endpoint `index`, forced or by heuristic, ending at `at`. */
  datatype Probe = Probe(index: nat, kind: Kind, accepted: bool, heuristic: bool, at: nat)

  datatype Outcome = Outcome(state: State, probe: Option<Probe>, resume: nat)

  function ApplySample(eps: seq<Health>, s: Sample): (r: seq<Health>)
    ensures |r| == |eps|
  {
    match FirstOf(eps, s.kind) case None => eps case Some(i) => eps[i := RecordRtt(eps[i], s.rtt)]
  }

  function ApplySamples(eps: seq<Health>, ss: seq<Sample>): (r: seq<Health>)
    ensures |r| == |eps|
    decreases |ss|
  {
    if ss == [] then eps else ApplySamples(ApplySample(eps, ss[0]), ss[1..])
  }

  /** Take over a transport whose probe was accepted, marking the one left behind. */
  function SwapTo(s: State, k: Kind, at: nat): State {
    var left := FirstOf(s.endpoints, s.active);
    s.(active := k,
       endpoints := if left.None? then s.endpoints
                    else s.endpoints[left.value := MarkSwapAway(s.endpoints[left.value], at)])
  }

  function Probed(s: State, p: Probe): State
    requires p.index < |s.endpoints|
  {
    if p.accepted then SwapTo(s, p.kind, p.at)
    else s.(endpoints := s.endpoints[p.index := RecordFailure(s.endpoints[p.index], p.at)])
  }

  /** `ensure_active`: the probe it makes, if any. */
  function ForcedProbe(s: State, k: Kind, i: Input): Option<Probe> {
    if s.active == k then None
    else match FirstOf(s.endpoints, k)
      case None => None
      case Some(idx) => Some(Probe(idx, k, i.accepted, false, i.now + i.took))
  }

  /** Something is known about the endpoint, if only that it failed once, however long ago. */
  predicate Measured(h: Health) {
    h.rtt.Some? || h.failures > 0
  }

  /** The probe the heuristic makes, if any: of the best-ranked other endpoint, unless that one
      has been measured and does not beat the active one. */
  function HeuristicProbe(isLocal: bool, s: State, i: Input): Option<Probe> {
    var scores := Scores(isLocal, s.endpoints, i.now);
    var candidate := FirstOther(s.endpoints, s.active, Order(scores, |scores|));
    if candidate.None? then None
    else
      var c, active := candidate.value, FirstOf(s.endpoints, s.active);
      if active.Some? && Measured(s.endpoints[c]) && scores[c] <= scores[active.value] then None
      else Some(Probe(c, s.endpoints[c].kind, i.accepted, true, i.now + i.took))
  }

  /** The state once the wait is over: samples applied, override taken in. */
  function Woken(s: State, i: Input): State {
    s.(endpoints := ApplySamples(s.endpoints, i.samples),
       forced := if i.wake.Override? then i.wake.target else s.forced)
  }

  function ProbeOf(isLocal: bool, s: State, i: Input): Option<Probe> {
    var w := Woken(s, i);
    if w.forced.Some? then ForcedProbe(w, w.forced.value, i) else HeuristicProbe(isLocal, w, i)
  }

  /** One turn of the loop in `run`; `resume` is when it waits again. */
  function Round(isLocal: bool, s: State, i: Input): Outcome {
    var w, p := Woken(s, i), ProbeOf(isLocal, s, i);
    if p.None? then Outcome(w, None, i.now)
    else
      ProbeInRange(isLocal, s, i);
      var rest := if p.value.accepted && p.value.heuristic then 2 * PROBE_INTERVAL else 0;
      Outcome(Probed(w, p.value), p, p.value.at + rest)
  }

  lemma ProbeInRange(isLocal: bool, s: State, i: Input)
    ensures var p := ProbeOf(isLocal, s, i);
      p.Some? ==>
        && p.value.index < |Woken(s, i).endpoints|
        && Woken(s, i).endpoints[p.value.index].kind == p.value.kind != s.active
  {}

  // ----- the code

  class Supervisor {
    var endpoints: seq<Health>
    var active: Kind
    var forced: Option<Kind>
    var signals: seq<Kind>  // sent on the upgrade channel, which stays open
    const isLocal: bool

    ghost function View(): State
      reads this
    {
      State(endpoints, active, forced)
    }

    constructor (advertised: seq<Health>, activeKind: Kind, local: bool, override: Option<Kind>)
      ensures View() == State(advertised, activeKind, override) && signals == [] && isLocal == local
    {
      endpoints, active, forced, signals, isLocal := advertised, activeKind, override, [], local;
    }

    /** The part both swap paths share. */
    method Finish(p: Probe)
      requires p.index < |endpoints|
      modifies this
      ensures View() == Probed(old(View()), p)
      ensures signals == old(signals) + (if p.accepted then [p.kind] else [])
    {
      if p.accepted {
        var left := FirstOf(endpoints, active);
        if left.Some? { endpoints := endpoints[left.value := MarkSwapAway(endpoints[left.value], p.at)]; }
        active := p.kind;
        signals := signals + [p.kind];
      } else {
        endpoints := endpoints[p.index := RecordFailure(endpoints[p.index], p.at)];
      }
    }

    /** `ensure_active`. */
    method EnsureActive(k: Kind, i: Input) returns (p: Option<Probe>)
      modifies this
      ensures p == ForcedProbe(old(View()), k, i)
      ensures p.None? ==> View() == old(View()) && signals == old(signals)
      ensures p.Some? ==> p.value.index < |old(endpoints)| && View() == Probed(old(View()), p.value)
      ensures p.Some? ==> signals == old(signals) + (if p.value.accepted then [k] else [])
    {
      if active == k { return None; }
      var idx := FirstOf(endpoints, k);
      if idx.None? { return None; }
      p := Some(Probe(idx.value, k, i.accepted, false, i.now + i.took));
      Finish(p.value);
    }

    /** `apply_rtt`, for every sample drained while waiting. */
    method DrainSamples(samples: seq<Sample>)
      modifies this
      ensures View() == old(View()).(endpoints := ApplySamples(old(endpoints), samples)) && signals == old(signals)
    {
      for k := 0 to |samples|
        invariant ApplySamples(endpoints, samples[k..]) == ApplySamples(old(endpoints), samples)
        invariant active == old(active) && forced == old(forced) && signals == old(signals)
      {
        assert samples[k..][1..] == samples[k + 1..];
        endpoints := ApplySample(endpoints, samples[k]);
      }
    }

    /** The heuristic part of a turn. */
    method ProbeBest(i: Input) returns (p: Option<Probe>)
      modifies this
      ensures p == HeuristicProbe(isLocal, old(View()), i)
      ensures p.None? ==> View() == old(View()) && signals == old(signals)
      ensures p.Some? ==> p.value.index < |old(endpoints)| && View() == Probed(old(View()), p.value)
      ensures p.Some? ==> signals == old(signals) + (if p.value.accepted then [p.value.kind] else [])
    {
      hide Score;
      var scores := Scores(isLocal, endpoints, i.now);
      var candidate := FirstOther(endpoints, active, Order(scores, |scores|));
      if candidate.None? { return None; }
      var c, cur := candidate.value, FirstOf(endpoints, active);
      if cur.Some? && Measured(endpoints[c]) && scores[c] <= scores[cur.value] { return None; }
      p := Some(Probe(c, endpoints[c].kind, i.accepted, true, i.now + i.took));
      Finish(p.value);
    }

    /** One turn of the loop in `run`. */
    method Turn(i: Input) returns (p: Option<Probe>, resume: nat)
      modifies this
      ensures Outcome(View(), p, resume) == Round(isLocal, old(View()), i)
      ensures signals == old(signals) + (if p.Some? && p.value.accepted then [p.value.kind] else [])
    {
      hide HeuristicProbe, ApplySamples, Probed, FirstOf;
      DrainSamples(i.samples);
      if i.wake.Override? { forced := i.wake.target; }
      assert View() == Woken(old(View()), i);
      if forced.Some? {
        p := EnsureActive(forced.value, i);
      } else {
        p := ProbeBest(i);
      }
      resume := if p.None? then i.now
                else p.value.at + (if p.value.accepted && p.value.heuristic then 2 * PROBE_INTERVAL else 0);
    }
  }

  // ----- one round

  /** Only the health record of `index` may differ. */
  predicate OnlyHealth(a: seq<Health>, b: seq<Health>) {
    |a| == |b| && forall k :: 0 <= k < |a| ==>
      b[k].kind == a[k].kind && b[k].address == a[k].address && b[k].priority == a[k].priority
  }

  lemma {:induction false} SamplesOnlyRtt(eps: seq<Health>, ss: seq<Sample>)
    ensures var r := ApplySamples(eps, ss);
      forall k :: 0 <= k < |eps| ==> r[k] == eps[k].(rtt := r[k].rtt)
    decreases |ss|
  {
    if ss != [] { SamplesOnlyRtt(ApplySample(eps, ss[0]), ss[1..]); }
  }

  /** What a round may do: probe an advertised endpoint of a kind that is not active, and of the
      forced kind if one is forced. If accepted, it becomes active; if not, its failure count goes
      up by one; and no other endpoint's failure count moves, nor any endpoint's identity. */
  lemma RoundEffect(isLocal: bool, s: State, i: Input)
    ensures var o := Round(isLocal, s, i);
      var forced := if i.wake.Override? then i.wake.target else s.forced;
      && o.state.forced == forced
      && OnlyHealth(s.endpoints, o.state.endpoints)
      && i.now <= o.resume
      && (o.probe.None? ==> o.state.active == s.active)
      && (o.probe.Some? ==>
            var p := o.probe.value;
            && p.index < |s.endpoints| && s.endpoints[p.index].kind == p.kind != s.active
            && (forced.Some? ==> p.kind == forced.value) && (p.heuristic <==> forced.None?)
            && p.accepted == i.accepted && p.at == i.now + i.took
            && i.now <= p.at <= o.resume
            && o.state.active == (if p.accepted then p.kind else s.active))
      && (forall k :: 0 <= k < |s.endpoints| && o.probe.Some? && !o.probe.value.accepted && k != o.probe.value.index ==>
            o.state.endpoints[k] == ApplySamples(s.endpoints, i.samples)[k])
      && (forall k :: 0 <= k < |s.endpoints| ==>
            o.state.endpoints[k].failures == s.endpoints[k].failures
              + (if o.probe.Some? && !o.probe.value.accepted && k == o.probe.value.index then 1 else 0))
  {
    hide ProbeOf, ApplySamples, FirstOf;
    SamplesOnlyRtt(s.endpoints, i.samples);
    RoundProbe(isLocal, s, i);
  }

  /** `k` is the first endpoint of its kind. */
  predicate FirstOfKind(eps: seq<Health>, kind: Kind, k: nat) {
    k < |eps| && eps[k].kind == kind && forall j :: 0 <= j < k ==> eps[j].kind != kind
  }

  /** Only the first record of the kind left changes, and only by the time it was left. */
  predicate Marked(was: seq<Health>, now: seq<Health>, kind: Kind, at: nat) {
    |now| == |was| && forall k :: 0 <= k < |was| ==>
      now[k] == if FirstOfKind(was, kind, k) then was[k].(lastSwapAway := Some(at)) else was[k]
  }

  /** Only the record of the endpoint probed changes: one more failure, at that time. */
  predicate Charged(was: seq<Health>, now: seq<Health>, index: nat, at: nat) {
    |now| == |was| && forall k :: 0 <= k < |was| ==>
      now[k] == if k == index then was[k].(failures := was[k].failures + 1, lastFailure := Some(at)) else was[k]
  }

  /** What a round writes into the records, beyond the samples: an accepted probe marks the transport it
      leaves, and no other, as left at that time; a refused one counts a failure for the endpoint probed;
      without a probe nothing is written. */
  lemma RoundMarks(isLocal: bool, s: State, i: Input)
    ensures var o, w := Round(isLocal, s, i), ApplySamples(s.endpoints, i.samples);
      && |o.state.endpoints| == |w| == |s.endpoints|
      && (forall k :: 0 <= k < |w| ==> w[k].lastSwapAway == s.endpoints[k].lastSwapAway)
      && (o.probe.None? ==> o.state.endpoints == w)
      && (o.probe.Some? && o.probe.value.accepted ==> Marked(w, o.state.endpoints, s.active, o.probe.value.at))
      && (o.probe.Some? && !o.probe.value.accepted ==>
            Charged(w, o.state.endpoints, o.probe.value.index, o.probe.value.at))
  {
    hide ProbeOf, ApplySamples;
    SamplesOnlyRtt(s.endpoints, i.samples);
    RoundProbe(isLocal, s, i);
    var w := ApplySamples(s.endpoints, i.samples);
    var left := FirstOf(w, s.active);
    assert forall k: nat :: FirstOfKind(w, s.active, k) <==> left == Some(k);
  }

  /** So the transport just left scores 200 less for the next minute. */
  lemma LeftScoresLess(isLocal: bool, s: State, i: Input, k: nat, later: nat)
    requires var p := Round(isLocal, s, i).probe;
      p.Some? && p.value.accepted && p.value.at <= later < p.value.at + 60_000
    requires FirstOfKind(ApplySamples(s.endpoints, i.samples), s.active, k)
    ensures var after := Round(isLocal, s, i).state.endpoints;
      && k < |after|
      && Score(isLocal, after[k], later)
         == Score(isLocal, ApplySamples(s.endpoints, i.samples)[k].(lastSwapAway := None), later) - 200
  {
    hide Round, ApplySamples;
    RoundMarks(isLocal, s, i);
  }

  /** A sample goes to the first endpoint of its kind and to no other. */
  lemma SampleGoes(eps: seq<Health>, smp: Sample, k: nat)
    requires k < |eps|
    ensures ApplySample(eps, smp)[k] == if FirstOfKind(eps, smp.kind, k) then RecordRtt(eps[k], smp.rtt) else eps[k]
  {
    var first := FirstOf(eps, smp.kind);
    assert FirstOfKind(eps, smp.kind, k) <==> first == Some(k);
  }

  lemma RoundProbe(isLocal: bool, s: State, i: Input)
    ensures var p := ProbeOf(isLocal, s, i);
      p.Some? ==>
        && p.value.index < |s.endpoints| && Woken(s, i).endpoints[p.value.index].kind == p.value.kind != s.active
        && (Woken(s, i).forced.Some? ==> p.value.kind == Woken(s, i).forced.value)
        && (p.value.heuristic <==> Woken(s, i).forced.None?)
        && p.value.at == i.now + i.took && p.value.accepted == i.accepted
  {
    hide ApplySamples, Scores;
  }

  /** With a kind forced, a probe is made exactly when that kind is advertised and not active, and it is of
      the first endpoint of that kind. */
  lemma ForcedProbesIff(isLocal: bool, s: State, i: Input)
    requires Woken(s, i).forced.Some?
    ensures var p, k := ProbeOf(isLocal, s, i), Woken(s, i).forced.value;
      && (p.Some? <==> s.active != k && exists j :: 0 <= j < |s.endpoints| && s.endpoints[j].kind == k)
      && (p.Some? ==> FirstOfKind(s.endpoints, k, p.value.index))
  {
    hide ApplySamples;
    SamplesOnlyRtt(s.endpoints, i.samples);
    var w, k := Woken(s, i).endpoints, Woken(s, i).forced.value;
    assert forall j :: 0 <= j < |w| ==> w[j].kind == s.endpoints[j].kind;
  }

  /** The best-scoring endpoint of another kind than the active one, the first of them on a tie. */
  ghost predicate BestOther(isLocal: bool, eps: seq<Health>, active: Kind, now: nat, c: nat) {
    && c < |eps| && eps[c].kind != active
    && forall k :: 0 <= k < |eps| && eps[k].kind != active && k != c ==> Before(Scores(isLocal, eps, now), c, k)
  }

  /** With nothing forced, a probe is made exactly when another kind is advertised and the best of the
      others is all there is, or unmeasured, or beats the active transport; and it is of that best. */
  lemma HeuristicProbesIff(isLocal: bool, s: State, i: Input)
    requires Woken(s, i).forced.None?
    ensures var p, eps := ProbeOf(isLocal, s, i), Woken(s, i).endpoints;
      && (p.Some? ==> BestOther(isLocal, eps, s.active, i.now, p.value.index))
      && (forall c: nat :: BestOther(isLocal, eps, s.active, i.now, c) ==>
            var a := FirstOf(eps, s.active);
            p.Some? <==> a.None? || !Measured(eps[c])
                         || Score(isLocal, eps[c], i.now) > Score(isLocal, eps[a.value], i.now))
      && ((exists k :: 0 <= k < |eps| && eps[k].kind != s.active) ==>
            exists c: nat :: BestOther(isLocal, eps, s.active, i.now, c))
  {
    hide Score, Scores, Order, ApplySamples, Measured, BestOther, Before;
    var w := Woken(s, i);
    CandidateIsBest(isLocal, w.endpoints, w.active, i.now);
    forall c: nat, d: nat
      | BestOther(isLocal, w.endpoints, w.active, i.now, c) && BestOther(isLocal, w.endpoints, w.active, i.now, d)
      ensures c == d && c < |w.endpoints| && w.endpoints[c].kind != w.active
    {
      BestIsUnique(isLocal, w.endpoints, w.active, i.now, c, d);
    }
  }

  /** The candidate the heuristic looks at. */
  lemma CandidateIsBest(isLocal: bool, eps: seq<Health>, active: Kind, now: nat)
    ensures var scores := Scores(isLocal, eps, now);
      var c := FirstOther(eps, active, Order(scores, |scores|));
      if c.None? then forall k :: 0 <= k < |eps| ==> eps[k].kind == active
      else BestOther(isLocal, eps, active, now, c.value)
  {
    hide Score, Before;
    var scores := Scores(isLocal, eps, now);
    var order := Order(scores, |scores|);
    FirstOtherIsFirst(eps, active, scores, order);
    if FirstOther(eps, active, order).None? {
      forall k | 0 <= k < |eps| ensures eps[k].kind == active {
        assert k in order;
        var j :| 0 <= j < |order| && order[j] == k;
        assert eps[order[j]].kind == active;
      }
    }
  }

  lemma BestIsUnique(isLocal: bool, eps: seq<Health>, active: Kind, now: nat, c: nat, d: nat)
    requires BestOther(isLocal, eps, active, now, c) && BestOther(isLocal, eps, active, now, d)
    ensures c == d && c < |eps| && eps[c].kind != active
  {
    hide Score;
  }

  lemma {:induction false} FirstOtherIsFirst(eps: seq<Health>, active: Kind, scores: seq<int>, order: seq<nat>)
    requires |scores| == |eps| && Ordered(scores, order)
    ensures var c := FirstOther(eps, active, order);
      c.Some? ==> forall k :: k in order && eps[k].kind != active && k != c.value ==> Before(scores, c.value, k)
    decreases |order|
  {
    if order != [] && eps[order[0]].kind == active { FirstOtherIsFirst(eps, active, scores, order[1..]); }
  }

  // ----- every run

  /** The states of a run, one more than there are inputs. */
  function States(isLocal: bool, s: State, ins: seq<Input>): (r: seq<State>)
    ensures |r| == |ins| + 1 && r[0] == s
    decreases |ins|
  {
    [s] + (if ins == [] then [] else States(isLocal, Round(isLocal, s, ins[0]).state, ins[1..]))
  }

  /** A round starts once the one before is over. */
  predicate Timely(isLocal: bool, s: State, ins: seq<Input>)
    decreases |ins|
  {
    || |ins| < 2
    || (Round(isLocal, s, ins[0]).resume <= ins[1].now
        && Timely(isLocal, Round(isLocal, s, ins[0]).state, ins[1..]))
  }

  /** The signals a run sends. */
  function Signals(isLocal: bool, s: State, ins: seq<Input>): seq<Kind>
    decreases |ins|
  {
    if ins == [] then []
    else
      var o := Round(isLocal, s, ins[0]);
      (if o.probe.Some? && o.probe.value.accepted then [o.probe.value.kind] else [])
      + Signals(isLocal, o.state, ins[1..])
  }

  function Actives(ss: seq<State>): seq<Kind> {
    seq(|ss|, i requires 0 <= i < |ss| => ss[i].active)
  }

  /** A sequence with repetitions of the value before left out, and the first value too. */
  function Changes(ks: seq<Kind>): seq<Kind>
    decreases |ks|
  {
    if |ks| < 2 then []
    else (if ks[1] != ks[0] then [ks[1]] else []) + Changes(ks[1..])
  }

  /** The signals of a run are exactly the successive new values of the active transport. */
  lemma {:induction false} SignalsAreChanges(isLocal: bool, s: State, ins: seq<Input>)
    ensures Signals(isLocal, s, ins) == Changes(Actives(States(isLocal, s, ins)))
    decreases |ins|
  {
    hide Round;
    if ins != [] {
      var o := Round(isLocal, s, ins[0]);
      RoundEffect(isLocal, s, ins[0]);
      SignalsAreChanges(isLocal, o.state, ins[1..]);
      var ks := Actives(States(isLocal, s, ins));
      assert ks[1..] == Actives(States(isLocal, o.state, ins[1..]));
    }
  }

  /** Through a whole run the endpoints stay the advertised ones, and every probe is of one of
      them; while a kind is forced no other is probed. */
  lemma {:induction false} RunProbes(isLocal: bool, s: State, ins: seq<Input>, k: nat)
    requires k < |ins|
    ensures var o := Round(isLocal, States(isLocal, s, ins)[k], ins[k]);
      && States(isLocal, s, ins)[k + 1] == o.state
      && OnlyHealth(s.endpoints, o.state.endpoints)
      && (o.probe.Some? ==>
            && o.probe.value.index < |s.endpoints| && s.endpoints[o.probe.value.index].kind == o.probe.value.kind
            && o.probe.value.kind != States(isLocal, s, ins)[k].active
            && (o.state.forced.Some? ==> o.probe.value.kind == o.state.forced.value))
    decreases k
  {
    hide Round;
    RoundEffect(isLocal, s, ins[0]);
    if k > 0 {
      var t := Round(isLocal, s, ins[0]).state;
      RunProbes(isLocal, t, ins[1..], k - 1);
      StateTail(isLocal, s, ins, k);
      StateTail(isLocal, s, ins, k + 1);
    }
  }

  lemma StateTail(isLocal: bool, s: State, ins: seq<Input>, k: nat)
    requires 0 < k <= |ins|
    ensures States(isLocal, s, ins)[k] == States(isLocal, Round(isLocal, s, ins[0]).state, ins[1..])[k - 1]
  {
    hide Round;
  }

  /** Rounds do not overlap. */
  lemma {:induction false} LaterRound(isLocal: bool, s: State, ins: seq<Input>, a: nat, b: nat)
    requires Timely(isLocal, s, ins) && a < b < |ins|
    ensures Round(isLocal, States(isLocal, s, ins)[a], ins[a]).resume <= ins[b].now
    decreases b
  {
    hide Round, States;
    var t := Round(isLocal, s, ins[0]).state;
    if a > 0 {
      StateTail(isLocal, s, ins, a);
      LaterRound(isLocal, t, ins[1..], a - 1, b - 1);
    } else if b > 1 {
      LaterRound(isLocal, t, ins[1..], 0, b - 1);
      RoundEffect(isLocal, t, ins[1]);
    }
  }

  /** After a heuristic swap nothing happens for twice the probe interval: every later round
      starts at least that long after the swap. */
  lemma QuietAfterSwap(isLocal: bool, s: State, ins: seq<Input>, a: nat, b: nat)
    requires Timely(isLocal, s, ins) && a < b < |ins|
    ensures var p := Round(isLocal, States(isLocal, s, ins)[a], ins[a]).probe;
      p.Some? && p.value.accepted && p.value.heuristic ==> p.value.at + 2 * PROBE_INTERVAL <= ins[b].now
  {
    hide Round, States, Timely;
    ResumeAfterSwap(isLocal, States(isLocal, s, ins)[a], ins[a]);
    LaterRound(isLocal, s, ins, a, b);
  }

  lemma ResumeAfterSwap(isLocal: bool, s: State, i: Input)
    ensures var o := Round(isLocal, s, i);
      o.resume == if o.probe.None? then i.now
                  else if o.probe.value.accepted && o.probe.value.heuristic then o.probe.value.at + 60_000
                  else o.probe.value.at
  {}

  // ----- locked out

  /** Every endpoint of another kind has failed and was never measured, and does not score above the
      active one, which has a clean record and a latency within `limit`. */
  predicate Barred(isLocal: bool, s: State, limit: real) {
    var a := FirstOf(s.endpoints, s.active);
    && s.forced.None? && a.Some?
    && CleanWithin(s.endpoints[a.value], limit)
    && forall k :: 0 <= k < |s.endpoints| && s.endpoints[k].kind != s.active ==>
         FailedUnmeasured(isLocal, s.endpoints[k], Merit(isLocal, s.endpoints[a.value]) - Truncated(limit))
  }

  predicate CleanWithin(h: Health, limit: real) {
    h.failures == 0 && h.lastSwapAway.None? && h.rtt.Some? && h.rtt.value <= limit
  }

  predicate FailedUnmeasured(isLocal: bool, h: Health, most: int) {
    h.rtt.None? && h.failures > 0 && Merit(isLocal, h) - LATENCY_UNKNOWN <= most
  }

  /** A tick, with measurements of the active transport within `limit` only. */
  predicate Quiet(active: Kind, i: Input, limit: real) {
    i.wake.Tick? && forall k :: 0 <= k < |i.samples| ==> i.samples[k].kind == active && i.samples[k].rtt <= limit
  }

  lemma SampleBarred(isLocal: bool, s: State, smp: Sample, limit: real)
    requires Barred(isLocal, s, limit) && smp.kind == s.active && smp.rtt <= limit
    ensures Barred(isLocal, s.(endpoints := ApplySample(s.endpoints, smp)), limit)
  {
    hide Merit;
    var a := FirstOf(s.endpoints, s.active).value;
    var eps := ApplySample(s.endpoints, smp);
    assert eps == s.endpoints[a := RecordRtt(s.endpoints[a], smp.rtt)];
    assert forall k :: 0 <= k < |eps| ==> eps[k].kind == s.endpoints[k].kind;
    assert FirstOf(eps, s.active) == Some(a);
    SameMerit(isLocal, s.endpoints[a], smp.rtt);
  }

  lemma SameMerit(isLocal: bool, h: Health, sample: real)
    ensures Merit(isLocal, RecordRtt(h, sample)) == Merit(isLocal, h)
  {}

  lemma {:induction false} SamplesBarred(isLocal: bool, s: State, ss: seq<Sample>, limit: real)
    requires Barred(isLocal, s, limit)
    requires forall k :: 0 <= k < |ss| ==> ss[k].kind == s.active && ss[k].rtt <= limit
    ensures Barred(isLocal, s.(endpoints := ApplySamples(s.endpoints, ss)), limit)
    decreases |ss|
  {
    hide Barred, ApplySample;
    if ss != [] {
      SampleBarred(isLocal, s, ss[0], limit);
      SamplesBarred(isLocal, s.(endpoints := ApplySample(s.endpoints, ss[0])), ss[1..], limit);
    }
  }

  lemma TruncatedMonotone(x: real, y: real)
    requires x <= y
    ensures Truncated(x) <= Truncated(y)
  {}

  /** Nothing is probed, whatever the time. */
  lemma BarredRound(isLocal: bool, s: State, i: Input, limit: real)
    requires Barred(isLocal, s, limit) && Quiet(s.active, i, limit)
    ensures var o := Round(isLocal, s, i);
      o.probe.None? && o.state.active == s.active && Barred(isLocal, o.state, limit)
  {
    hide ApplySamples, ProbeOf, Merit;
    SamplesBarred(isLocal, s, i.samples, limit);
    var w := Woken(s, i);
    assert w == s.(endpoints := ApplySamples(s.endpoints, i.samples));
    HeuristicProbesIff(isLocal, s, i);
    BarredScores(isLocal, w, i.now, limit);
  }

  lemma BarredScores(isLocal: bool, s: State, now: nat, limit: real)
    requires Barred(isLocal, s, limit)
    ensures var a := FirstOf(s.endpoints, s.active).value;
      forall k :: 0 <= k < |s.endpoints| && s.endpoints[k].kind != s.active ==>
        Measured(s.endpoints[k]) && Score(isLocal, s.endpoints[k], now) <= Score(isLocal, s.endpoints[a], now)
  {
    hide Merit;
    var a := FirstOf(s.endpoints, s.active).value;
    TruncatedMonotone(s.endpoints[a].rtt.value, limit);
  }

  /** One failed probe can bar an endpoint for good: as long as nothing is forced and the active
      transport stays within `limit`, a run of any length probes nothing and sends nothing. */
  lemma {:induction false} LockedOut(isLocal: bool, s: State, ins: seq<Input>, limit: real)
    requires Barred(isLocal, s, limit) && forall k :: 0 <= k < |ins| ==> Quiet(s.active, ins[k], limit)
    ensures Signals(isLocal, s, ins) == []
    ensures forall k :: 0 <= k < |ins| ==> Round(isLocal, States(isLocal, s, ins)[k], ins[k]).probe.None?
    decreases |ins|
  {
    hide Round, Barred, Quiet;
    if ins != [] {
      var t := Round(isLocal, s, ins[0]).state;
      BarredRound(isLocal, s, ins[0], limit);
      LockedOut(isLocal, t, ins[1..], limit);
      forall k | 0 < k < |ins| ensures Round(isLocal, States(isLocal, s, ins)[k], ins[k]).probe.None? {
        StateTail(isLocal, s, ins, k);
        assert ins[k] == ins[1..][k - 1];
      }
    }
  }

  /** QUIC active at 20 ms, and TLS never measured, with so many failures. */
  function QuicAndTls(failures: nat): State {
    State([Health(Quic, "a", Some(20.0), 0, None, None, 0),
           Health(TcpTls, "b", None, failures, if failures == 0 then None else Some(0), None, 0)], Quic, None)
  }

  /** One failure at time 0 locks TLS out for good; without it TLS would be probed at the first tick. */
  lemma OneFailureLocksOut(i: Input)
    requires i.wake.Tick? && i.samples == []
    ensures Barred(false, QuicAndTls(1), 20.0)
    ensures ProbeOf(false, QuicAndTls(0), i).Some?
  {
    var s := QuicAndTls(0);
    HeuristicProbesIff(false, s, i);
    assert s.endpoints[1].kind != Quic;
  }
}
