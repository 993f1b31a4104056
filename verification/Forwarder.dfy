/** A probe's handshake: the verdict on its `AuthResult`, and the forwarder between the new
    transport and the session manager. */
module ProbeForwarder {
  import opened Options

  datatype ServerMessage =
    | AuthChallenge(nonce: seq<int>)
    | AuthResult(success: bool, reason: Option<string>, failure: Option<string>,
                 connectionId: Option<nat>, daemonInstance: Option<nat>)
    | Other(body: seq<int>)

  /** The registration a probe resumes: its connection id and the daemon run that assigned it. */
  datatype ResumeFrom = ResumeFrom(connectionId: nat, instance: Option<nat>)

  datatype Verdict = Accepted | Refused(why: string)

  function RefusalReason(reason: Option<string>, failure: Option<string>): string {
    if reason.Some? then reason.value else if failure.Some? then failure.value else "rejected"
  }

  /** `probe_verdict`. */
  function ProbeVerdict(expected: ResumeFrom, msg: ServerMessage): Option<Verdict> {
    if !msg.AuthResult? then None
    else if !msg.success then Some(Refused(RefusalReason(msg.reason, msg.failure)))
    else
      var sameRun := match (expected.instance, msg.daemonInstance)
        case (Some(ours), Some(theirs)) => ours == theirs
        case (None, Some(_)) => false
        case (_, None) => true;
      Some(if sameRun && msg.connectionId == Some(expected.connectionId) then Accepted
           else Refused("the daemon did not resume this connection (another daemon run)"))
  }

  /** A probe is accepted exactly when the daemon let it in, gave it the same connection id and
      named no run but the one expected. */
  lemma AcceptedIff(expected: ResumeFrom, msg: ServerMessage)
    ensures ProbeVerdict(expected, msg) == Some(Accepted) <==>
      && msg.AuthResult? && msg.success
      && msg.connectionId == Some(expected.connectionId)
      && (msg.daemonInstance.Some? ==> msg.daemonInstance == expected.instance)
  {}

  // ----- what the forwarder should do

  /** The position of the first `AuthResult`; the length if there is none. */
  function FirstResult(msgs: seq<ServerMessage>): (k: nat)
    ensures k <= |msgs| && (k < |msgs| ==> msgs[k].AuthResult?)
    ensures forall i :: 0 <= i < k ==> !msgs[i].AuthResult?
  {
    if msgs == [] || msgs[0].AuthResult? then 0 else 1 + FirstResult(msgs[1..])
  }

  /** Withheld from the session manager: every challenge, and the first result if it refuses. */
  predicate Withheld(expected: ResumeFrom, msgs: seq<ServerMessage>, i: nat)
    requires i < |msgs|
  {
    msgs[i].AuthChallenge? || (i == FirstResult(msgs) && ProbeVerdict(expected, msgs[i]) != Some(Accepted))
  }

  /** The messages of `msgs[..n]` that are not withheld, in order. */
  function Passed(expected: ResumeFrom, msgs: seq<ServerMessage>, n: nat): seq<ServerMessage>
    requires n <= |msgs|
  {
    if n == 0 then []
    else Passed(expected, msgs, n - 1) + (if Withheld(expected, msgs, n - 1) then [] else [msgs[n - 1]])
  }

  /** The one verdict: that of the first `AuthResult`, if there is one. */
  function Reported(expected: ResumeFrom, msgs: seq<ServerMessage>): seq<Verdict> {
    var k := FirstResult(msgs);
    if k == |msgs| then [] else [ProbeVerdict(expected, msgs[k]).value]
  }

  function Nonces(msgs: seq<ServerMessage>, n: nat): seq<seq<int>>
    requires n <= |msgs|
  {
    if n == 0 then []
    else Nonces(msgs, n - 1) + (if msgs[n - 1].AuthChallenge? then [msgs[n - 1].nonce] else [])
  }

  /** What message `i` means for the forwarder: whether it is withheld, whether it has a verdict, and
      whether it is the first that has. */
  lemma ForwardStep(expected: ResumeFrom, msgs: seq<ServerMessage>, i: nat)
    requires i < |msgs|
    ensures var verdict := ProbeVerdict(expected, msgs[i]);
      && (verdict.Some? <==> msgs[i].AuthResult?)
      && (verdict.Some? && FirstResult(msgs) >= i ==> FirstResult(msgs) == i)
      && (FirstResult(msgs) == i ==> verdict.Some?)
      && (Withheld(expected, msgs, i) <==>
            msgs[i].AuthChallenge? || (FirstResult(msgs) == i && verdict != Some(Accepted)))
  {
    hide FirstResult;
  }

  /** The forwarding task, run over everything the transport delivers, with the session manager
      listening throughout. */
  method Forward(expected: ResumeFrom, msgs: seq<ServerMessage>)
    returns (forwarded: seq<ServerMessage>, verdicts: seq<Verdict>, answered: seq<seq<int>>)
    ensures forwarded == Passed(expected, msgs, |msgs|)
    ensures verdicts == Reported(expected, msgs)
    ensures answered == Nonces(msgs, |msgs|)
  {
    hide FirstResult, ProbeVerdict, Withheld;
    forwarded, verdicts, answered := [], [], [];
    var pending := true;
    for i := 0 to |msgs|
      invariant forwarded == Passed(expected, msgs, i) && answered == Nonces(msgs, i)
      invariant pending <==> FirstResult(msgs) >= i
      invariant verdicts == if pending then [] else Reported(expected, msgs)
    {
      var msg := msgs[i];
      ForwardStep(expected, msgs, i);
      if msg.AuthChallenge? {
        answered := answered + [msg.nonce];
        continue;
      }
      var verdict := ProbeVerdict(expected, msg);
      if verdict.Some? && pending {
        pending := false;
        verdicts := verdicts + [verdict.value];
        if !verdict.value.Accepted? { continue; }
      }
      forwarded := forwarded + [msg];
    }
  }

  // ----- what that means

  function Times(msgs: seq<ServerMessage>, m: ServerMessage): nat {
    if msgs == [] then 0 else Times(msgs[..|msgs| - 1], m) + (if msgs[|msgs| - 1] == m then 1 else 0)
  }

  lemma TimesPush(msgs: seq<ServerMessage>, x: ServerMessage, m: ServerMessage)
    ensures Times(msgs + [x], m) == Times(msgs, m) + (if x == m then 1 else 0)
  {
    assert (msgs + [x])[..|msgs|] == msgs;
  }

  /** The forwarder loses nothing else: a message that is neither a challenge nor a refused result
      reaches the session manager exactly as often as it came in. */
  lemma {:induction false} NothingLost(expected: ResumeFrom, msgs: seq<ServerMessage>, n: nat, m: ServerMessage)
    requires n <= |msgs| && !m.AuthChallenge? && (m.AuthResult? ==> ProbeVerdict(expected, m) == Some(Accepted))
    ensures Times(Passed(expected, msgs, n), m) == Times(msgs[..n], m)
  {
    hide ProbeVerdict, FirstResult, Times;
    if n == 0 {
      assert msgs[..0] == [];
    } else {
      var last := msgs[n - 1];
      NothingLost(expected, msgs, n - 1, m);
      assert msgs[..n] == msgs[..n - 1] + [last];
      TimesPush(msgs[..n - 1], last, m);
      TimesPush(Passed(expected, msgs, n - 1), last, m);
      if Withheld(expected, msgs, n - 1) {
        assert m != last;
        assert Passed(expected, msgs, n) == Passed(expected, msgs, n - 1);
      }
    }
  }

  predicate Refusal(expected: ResumeFrom, m: ServerMessage) {
    m.AuthResult? && ProbeVerdict(expected, m) != Some(Accepted)
  }

  /** Only the first result is ever held back: a refused result reaches the session manager exactly
      as often as it came in, less one if it is the first result of all. */
  lemma {:induction false} RefusalsForwarded(expected: ResumeFrom, msgs: seq<ServerMessage>, n: nat, m: ServerMessage)
    requires n <= |msgs| && Refusal(expected, m)
    ensures var first := FirstResult(msgs);
      Times(Passed(expected, msgs, n), m) == Times(msgs[..n], m) - (if first < n && msgs[first] == m then 1 else 0)
  {
    hide ProbeVerdict, FirstResult, Times;
    if n == 0 {
      assert msgs[..0] == [];
    } else {
      var last := msgs[n - 1];
      RefusalsForwarded(expected, msgs, n - 1, m);
      assert msgs[..n] == msgs[..n - 1] + [last];
      TimesPush(msgs[..n - 1], last, m);
      TimesPush(Passed(expected, msgs, n - 1), last, m);
      if Withheld(expected, msgs, n - 1) { assert Passed(expected, msgs, n) == Passed(expected, msgs, n - 1); }
      if last == m && FirstResult(msgs) != n - 1 { assert FirstResult(msgs) < n - 1; }
    }
  }

  lemma {:induction false} PassedHas(expected: ResumeFrom, msgs: seq<ServerMessage>, n: nat, m: ServerMessage)
    requires n <= |msgs|
    ensures m in Passed(expected, msgs, n) <==>
      exists i :: 0 <= i < n && msgs[i] == m && !Withheld(expected, msgs, i)
  {
    hide Withheld;
    if n > 0 { PassedHas(expected, msgs, n - 1, m); }
  }

  /** A refused result comes through exactly when it stands somewhere other than first among the
      results: the forwarder judges one result and waves every later one through. */
  lemma RefusalForwardedIff(expected: ResumeFrom, msgs: seq<ServerMessage>, m: ServerMessage)
    requires Refusal(expected, m)
    ensures m in Passed(expected, msgs, |msgs|) <==>
      exists i :: 0 <= i < |msgs| && msgs[i] == m && i != FirstResult(msgs)
  {
    hide ProbeVerdict, FirstResult, Passed;
    PassedHas(expected, msgs, |msgs|, m);
  }

  /** The session manager sees only accepted results exactly when nothing after the first result is
      a refused one. */
  lemma OnlyAcceptedIff(expected: ResumeFrom, msgs: seq<ServerMessage>)
    ensures (forall m :: m in Passed(expected, msgs, |msgs|) ==> !Refusal(expected, m)) <==>
      (forall i :: FirstResult(msgs) < i < |msgs| ==> !Refusal(expected, msgs[i]))
  {
    hide ProbeVerdict, Passed;
    forall i | FirstResult(msgs) < i < |msgs| && Refusal(expected, msgs[i])
      ensures msgs[i] in Passed(expected, msgs, |msgs|)
    {
      RefusalForwardedIff(expected, msgs, msgs[i]);
    }
    forall m | m in Passed(expected, msgs, |msgs|) && Refusal(expected, m)
      ensures exists i :: FirstResult(msgs) < i < |msgs| && Refusal(expected, msgs[i])
    {
      RefusalForwardedIff(expected, msgs, m);
    }
  }

  /** A second refused result reaches the session manager, ahead of an accepted one. */
  lemma SecondRefusalIsForwarded(expected: ResumeFrom, refused: ServerMessage, accepted: ServerMessage)
    requires Refusal(expected, refused) && ProbeVerdict(expected, accepted) == Some(Accepted)
    ensures Passed(expected, [refused, refused, accepted], 3) == [refused, accepted]
    ensures Reported(expected, [refused, refused, accepted]) == [ProbeVerdict(expected, refused).value]
  {
    hide ProbeVerdict;
    var msgs := [refused, refused, accepted];
    AcceptedIff(expected, accepted);
    assert FirstResult(msgs) == 0;
    assert Withheld(expected, msgs, 0) && !Withheld(expected, msgs, 1) && !Withheld(expected, msgs, 2);
    assert Passed(expected, msgs, 0) == [];
    assert Passed(expected, msgs, 1) == [];
    assert Passed(expected, msgs, 2) == [refused];
  }

  /** `out` is what stands in `msgs[..n]` at the positions `ps`, in order, and those are exactly the
      positions not withheld. */
  ghost predicate Picked(expected: ResumeFrom, msgs: seq<ServerMessage>, n: nat, out: seq<ServerMessage>, ps: seq<nat>)
    requires n <= |msgs|
  {
    && |ps| == |out|
    && (forall k :: 0 <= k < |ps| ==> ps[k] < n && out[k] == msgs[ps[k]])
    && (forall j, k :: 0 <= j < k < |ps| ==> ps[j] < ps[k])
    && (forall i :: 0 <= i < n ==> (i in ps <==> !Withheld(expected, msgs, i)))
  }

  lemma PickOne(expected: ResumeFrom, msgs: seq<ServerMessage>, n: nat, out: seq<ServerMessage>, ps: seq<nat>)
    requires n < |msgs| && Picked(expected, msgs, n, out, ps) && !Withheld(expected, msgs, n)
    ensures Picked(expected, msgs, n + 1, out + [msgs[n]], ps + [n])
  {
    hide Withheld;
    assert forall i :: i in ps + [n] <==> i in ps || i == n;
  }

  lemma PickNone(expected: ResumeFrom, msgs: seq<ServerMessage>, n: nat, out: seq<ServerMessage>, ps: seq<nat>)
    requires n < |msgs| && Picked(expected, msgs, n, out, ps) && Withheld(expected, msgs, n)
    ensures Picked(expected, msgs, n + 1, out, ps)
  {
    hide Withheld;
    assert n !in ps;
  }

  /** The forwarded messages are a subsequence of the input, by increasing positions: exactly the
      messages not withheld. */
  lemma {:induction false} ForwardedInOrder(expected: ResumeFrom, msgs: seq<ServerMessage>, n: nat)
    returns (ps: seq<nat>)
    requires n <= |msgs|
    ensures Picked(expected, msgs, n, Passed(expected, msgs, n), ps)
  {
    if n == 0 {
      ps := [];
    } else {
      hide Withheld, Picked;
      ps := ForwardedInOrder(expected, msgs, n - 1);
      var out := Passed(expected, msgs, n - 1);
      if Withheld(expected, msgs, n - 1) {
        PickNone(expected, msgs, n - 1, out, ps);
        assert Passed(expected, msgs, n) == out;
      } else {
        PickOne(expected, msgs, n - 1, out, ps);
        ps := ps + [n - 1];
      }
    }
  }

  /** Every challenge is answered, and nothing else. */
  lemma {:induction false} ChallengesAnswered(msgs: seq<ServerMessage>, n: nat, nonce: seq<int>)
    requires n <= |msgs|
    ensures nonce in Nonces(msgs, n) <==> exists i :: 0 <= i < n && msgs[i] == AuthChallenge(nonce)
  {
    if n > 0 { ChallengesAnswered(msgs, n - 1, nonce); }
  }

  /** Why a probe is refused: for the reason given, else the kind of failure, else as rejected; and
      without a failure because the connection was not resumed. */
  lemma RefusalReasons(expected: ResumeFrom, m: ServerMessage)
    requires Refusal(expected, m)
    ensures var v := ProbeVerdict(expected, m);
      && v.Some? && v.value.Refused?
      && (!m.success && m.reason.Some? ==> v.value.why == m.reason.value)
      && (!m.success && m.reason.None? && m.failure.Some? ==> v.value.why == m.failure.value)
      && (!m.success && m.reason.None? && m.failure.None? ==> v.value.why == "rejected")
      && (m.success ==> v.value.why == "the daemon did not resume this connection (another daemon run)")
  {}
}
