/**
 Multicall fan-out (backend.go): one sender per target puts its response into a channel with
 room for all of them, a closer waits for every sender, and the caller returns on the first
 acceptable response.  Senders, closer and caller interleave freely.
 */
module Multicall {
  datatype Response = Response(failed: bool, rpcError: bool, servedBy: string)

  /** A response the caller returns at once: no transport error and, when RPC errors are checked, no RPC error. */
  predicate Acceptable(check: bool, r: Response) {
    !r.failed && !(check && r.rpcError)
  }

  /** The healthy backends, or all of them when none is healthy. */
  method Targets<B(==)>(backends: seq<B>, healthy: set<B>) returns (targets: seq<B>)
    ensures (exists b :: b in backends && b in healthy) ==> forall b :: b in targets <==> b in backends && b in healthy
    ensures !(exists b :: b in backends && b in healthy) ==> targets == backends
  {
    targets := [];
    for i := 0 to |backends|
      invariant forall b :: b in targets <==> b in backends[..i] && b in healthy
    {
      if backends[i] in healthy {
        targets := targets + [backends[i]];
      }
      assert backends[..i + 1] == backends[..i] + [backends[i]];
    }
    assert backends[..|backends|] == backends;
    if |targets| == 0 {
      targets := backends;
    } else {
      assert targets[0] in backends && targets[0] in healthy;
    }
  }

  datatype Outcome = NoResponse | Returned(response: Response)

  /** None of these arrivals makes the caller return. */
  predicate NoneAcceptable(check: bool, arrivals: seq<Response>) {
    forall k | 0 <= k < |arrivals| :: !Acceptable(check, arrivals[k])
  }

  /** The caller took this many of the arrivals and returned `out`: the first acceptable one, else the last, else nothing. */
  predicate IsOutcome(check: bool, arrivals: seq<Response>, out: Outcome, received: nat) {
    && received <= |arrivals|
    && if NoneAcceptable(check, arrivals) then
         received == |arrivals| && out == if arrivals == [] then NoResponse else Returned(arrivals[|arrivals| - 1])
       else
         && 0 < received && NoneAcceptable(check, arrivals[..received - 1])
         && out == Returned(arrivals[received - 1]) && Acceptable(check, out.response)
  }

  /** What an outcome is, in terms of the two flags: a response free of errors if there is one, and the last of the faulty ones otherwise. */
  lemma OutcomeByFlags(check: bool, arrivals: seq<Response>, out: Outcome, received: nat)
    requires IsOutcome(check, arrivals, out, received)
    ensures (exists k | 0 <= k < |arrivals| :: !arrivals[k].failed && !(check && arrivals[k].rpcError)) <==>
            out.Returned? && !out.response.failed && !(check && out.response.rpcError)
    ensures forall k | 0 <= k < received - 1 :: arrivals[k].failed || (check && arrivals[k].rpcError)
    ensures arrivals != [] ==> 0 < received && out == Returned(arrivals[received - 1])
  {
    if NoneAcceptable(check, arrivals) {
      assert forall k | 0 <= k < |arrivals| :: !Acceptable(check, arrivals[k]);
    } else {
      assert forall k | 0 <= k < received - 1 :: arrivals[..received - 1][k] == arrivals[k];
    }
  }

  /** ProcessMulticallResponses on a channel that delivers the given arrivals and is then closed. */
  method ProcessMulticallResponses(check: bool, arrivals: seq<Response>) returns (out: Outcome, received: nat)
    ensures IsOutcome(check, arrivals, out, received)
  {
    var final := NoResponse;
    received := 0;
    while received < |arrivals|
      invariant received <= |arrivals|
      invariant NoneAcceptable(check, arrivals[..received])
      invariant final == if received == 0 then NoResponse else Returned(arrivals[received - 1])
    {
      var resp := arrivals[received];
      received := received + 1;
      if resp.failed || (check && resp.rpcError) {
        final := Returned(resp);
      } else {
        return Returned(resp), received;
      }
    }
    assert arrivals[..received] == arrivals;
    out := final;
  }

  // ---------------------------------------------------------------- the protocol

  /** Sender k's response is acceptable. */
  predicate Accepts(check: bool, answers: seq<Response>, k: nat) {
    k < |answers| && Acceptable(check, answers[k])
  }

  /** Senders 0..n; the response sender k will put into the channel is answers[k].  `final` is the response the caller would return now. */
  datatype State = State(
    sending: set<nat>, sent: set<nat>, done: set<nat>, channel: seq<nat>, closed: bool,
    received: seq<nat>, final: Outcome, returned: bool)

  datatype Step = Send(k: nat) | SenderDone(k: nat) | Close | Receive | SeeClosed

  function Below(n: nat): (s: set<nat>)
    ensures (forall k: nat :: k in s <==> k < n) && |s| == n
  {
    if n == 0 then {} else Below(n - 1) + {n - 1}
  }

  function Initial(n: nat): State {
    State(Below(n), {}, {}, [], false, [], NoResponse, false)
  }

  /** What each goroutine may do next.  A send blocks while the channel is full. */
  predicate Enabled(n: nat, s: State, st: Step) {
    match st
    case Send(k) => k in s.sending && |s.channel| < n
    case SenderDone(k) => k in s.sent
    case Close => s.sending == {} && s.sent == {} && !s.closed
    case Receive => !s.returned && s.channel != []
    case SeeClosed => !s.returned && s.channel == [] && s.closed
  }

  function From(answers: seq<Response>, k: nat): Outcome {
    if k < |answers| then Returned(answers[k]) else NoResponse
  }

  function Next(check: bool, answers: seq<Response>, s: State, st: Step): State
    requires Enabled(|answers|, s, st)
  {
    match st
    case Send(k) => s.(sending := s.sending - {k}, sent := s.sent + {k}, channel := s.channel + [k])
    case SenderDone(k) => s.(sent := s.sent - {k}, done := s.done + {k})
    case Close => s.(closed := true)
    case Receive =>
      s.(channel := s.channel[1..], received := s.received + [s.channel[0]],
         final := From(answers, s.channel[0]), returned := Accepts(check, answers, s.channel[0]))
    case SeeClosed => s.(returned := true)
  }

  ghost predicate Inv(check: bool, answers: seq<Response>, s: State) {
    && (forall k | k in s.sending :: k < |answers|)
    && (forall k: nat :: k in s.received + s.channel <==> k < |answers| && k !in s.sending)
    && |s.sending| + |s.received| + |s.channel| == |answers|
    && s.sent !! s.sending && s.done !! s.sending
    && (forall k: nat | k < |answers| :: k in s.sending || k in s.sent || k in s.done)
    && (s.closed ==> s.sending == {} && s.sent == {})
    && (s.final == if s.received == [] then NoResponse else From(answers, s.received[|s.received| - 1]))
    && (forall i | 0 <= i < |s.received| - 1 :: !Accepts(check, answers, s.received[i]))
    && (if s.returned && !(s.closed && s.channel == []) then
          s.received != [] && Accepts(check, answers, s.received[|s.received| - 1])
        else if !s.returned then forall k | k in s.received :: !Accepts(check, answers, k)
        else true)
  }

  lemma InitialInv(check: bool, answers: seq<Response>)
    ensures Inv(check, answers, Initial(|answers|))
  {
  }

  lemma StepKeepsInv(check: bool, answers: seq<Response>, s: State, st: Step)
    requires Inv(check, answers, s) && Enabled(|answers|, s, st)
    ensures Inv(check, answers, Next(check, answers, s, st))
  {
    match st
    case Send(k) => SendKeepsInv(check, answers, s, k);
    case Receive => ReceiveKeepsInv(check, answers, s);
    case _ =>
  }

  lemma SendKeepsInv(check: bool, answers: seq<Response>, s: State, k: nat)
    requires Inv(check, answers, s) && Enabled(|answers|, s, Send(k))
    ensures Inv(check, answers, Next(check, answers, s, Send(k)))
  {
    var s' := Next(check, answers, s, Send(k));
    assert s'.received + s'.channel == s.received + s.channel + [k];
  }

  lemma ReceiveKeepsInv(check: bool, answers: seq<Response>, s: State)
    requires Inv(check, answers, s) && Enabled(|answers|, s, Receive)
    ensures Inv(check, answers, Next(check, answers, s, Receive))
  {
    var s' := Next(check, answers, s, Receive);
    assert s'.received + s'.channel == s.received + s.channel;
    assert s.channel[0] in s.received + s.channel;
  }

  ghost predicate IsRun(check: bool, answers: seq<Response>, s: State, sts: seq<Step>)
    decreases sts
  {
    sts == [] || (Enabled(|answers|, s, sts[0]) && IsRun(check, answers, Next(check, answers, s, sts[0]), sts[1..]))
  }

  function Run(check: bool, answers: seq<Response>, s: State, sts: seq<Step>): State
    requires IsRun(check, answers, s, sts)
    decreases sts
  {
    if sts == [] then s else Run(check, answers, Next(check, answers, s, sts[0]), sts[1..])
  }

  lemma {:induction false} RunKeepsInv(check: bool, answers: seq<Response>, s: State, sts: seq<Step>)
    requires Inv(check, answers, s) && IsRun(check, answers, s, sts)
    ensures Inv(check, answers, Run(check, answers, s, sts))
    decreases sts
  {
    if sts == [] {
    } else {
      StepKeepsInv(check, answers, s, sts[0]);
      RunKeepsInv(check, answers, Next(check, answers, s, sts[0]), sts[1..]);
    }
  }

  /**
   Correct for every arrival order: once the caller has returned, it returned an acceptable
   response if and only if some target gave one; otherwise every target's response arrived.
   */
  lemma ReturnsAcceptableIff(check: bool, answers: seq<Response>, s: State)
    requires Inv(check, answers, s) && s.returned
    ensures forall i | 0 <= i < |s.received| :: s.received[i] < |answers|
    ensures !NoneAcceptable(check, answers) <==>
            s.final.Returned? && Acceptable(check, s.final.response)
    ensures NoneAcceptable(check, answers) ==> |s.received| == |answers| && forall k | 0 <= k < |answers| :: k in s.received
    ensures s.final.NoResponse? <==> answers == []
  {
    assert forall i | 0 <= i < |s.received| :: s.received[i] in s.received + s.channel;
    if !(s.received != [] && Accepts(check, answers, s.received[|s.received| - 1])) {
      assert s.closed && s.channel == [];
      forall k | 0 <= k < |answers| ensures k in s.received && !Acceptable(check, answers[k]) {
        assert k in s.received + s.channel;
      }
    }
  }

  /** The responses of these senders, in this order. */
  function Arrivals(answers: seq<Response>, ks: seq<nat>): (arrivals: seq<Response>)
    requires forall i | 0 <= i < |ks| :: ks[i] < |answers|
    ensures |arrivals| == |ks| && forall i | 0 <= i < |ks| :: arrivals[i] == answers[ks[i]]
  {
    seq(|ks|, i requires 0 <= i < |ks| => answers[ks[i]])
  }

  lemma NoneLeft(later: seq<nat>, sending: set<nat>)
    requires forall k | k in later :: k in sending
    ensures sending == {} ==> later == []
  {
    if later != [] {
      assert later[0] in sending;
    }
  }

  lemma KnownSenders(check: bool, answers: seq<Response>, s: State, later: seq<nat>)
    requires Inv(check, answers, s) && forall k | k in later :: k in s.sending
    ensures
      var ks := s.received + s.channel + later;
      forall i | 0 <= i < |ks| :: ks[i] < |answers|
  {
    var ks := s.received + s.channel + later;
    forall i | 0 <= i < |ks| ensures ks[i] < |answers| {
      assert ks[i] in s.received + s.channel || ks[i] in later;
    }
  }

  /**
   The caller of the protocol is ProcessMulticallResponses.  In whatever order the senders that
   have not sent yet will come, what it returned is what ProcessMulticallResponses makes of the
   whole sequence of arrivals: the first acceptable one or, when there is none, the last.
   */
  lemma CallerProcessesArrivals(check: bool, answers: seq<Response>, s: State, later: seq<nat>)
    requires Inv(check, answers, s) && s.returned
    requires forall k | k in later :: k in s.sending
    ensures
      var ks := s.received + s.channel + later;
      && (forall i | 0 <= i < |ks| :: ks[i] < |answers|)
      && IsOutcome(check, Arrivals(answers, ks), s.final, |s.received|)
  {
    KnownSenders(check, answers, s, later);
    var ks, n := s.received + s.channel + later, |s.received|;
    var arrivals := Arrivals(answers, ks);
    assert forall i | 0 <= i < n :: ks[i] == s.received[i] && Accepts(check, answers, ks[i]) == Acceptable(check, arrivals[i]);
    if n > 0 && Accepts(check, answers, s.received[n - 1]) {
      FirstAcceptable(check, arrivals, n, s.final);
    } else {
      NoneLeft(later, s.sending);
      assert ks == s.received;
    }
  }

  lemma FirstAcceptable(check: bool, arrivals: seq<Response>, n: nat, out: Outcome)
    requires 0 < n <= |arrivals| && Acceptable(check, arrivals[n - 1]) && out == Returned(arrivals[n - 1])
    requires forall i | 0 <= i < n - 1 :: !Acceptable(check, arrivals[i])
    ensures IsOutcome(check, arrivals, out, n)
  {
  }

  /**
   Every sender completes, also after the caller has returned: as long as a sender has not sent,
   the channel is open and has room for it; and the channel is closed only when all have sent.
   */
  lemma SendersNeverBlock(check: bool, answers: seq<Response>, s: State)
    requires Inv(check, answers, s)
    ensures forall k | k in s.sending :: Enabled(|answers|, s, Send(k)) && !s.closed
    ensures s.closed ==> |s.received| + |s.channel| == |answers| && forall k: nat | k < |answers| :: k in s.done
  {
  }

  function Measure(s: State): nat {
    3 * |s.sending| + |s.sent| + |s.channel| + (if s.closed then 0 else 1) + if s.returned then 0 else 1
  }

  /** Every step brings the protocol closer to its end. */
  lemma StepDecreases(check: bool, answers: seq<Response>, s: State, st: Step)
    requires Inv(check, answers, s) && Enabled(|answers|, s, st)
    ensures Measure(Next(check, answers, s, st)) < Measure(s)
  {
  }

  /** No deadlock: until all senders are done, the channel is closed and the caller has returned, something can happen. */
  lemma NeverStuck(check: bool, answers: seq<Response>, s: State) returns (st: Step)
    requires Inv(check, answers, s)
    requires !(s.sending == {} && s.sent == {} && s.closed && s.returned)
    ensures Enabled(|answers|, s, st)
  {
    SendersNeverBlock(check, answers, s);
    if s.sending != {} {
      var k :| k in s.sending;
      st := Send(k);
    } else if s.sent != {} {
      var k :| k in s.sent;
      st := SenderDone(k);
    } else if !s.closed {
      st := Close;
    } else {
      st := if s.channel == [] then SeeClosed else Receive;
    }
  }

  /**
   The fan-out, for every run from its start: no sender is ever blocked or sends into a closed
   channel; a run that cannot go on has closed the channel and returned; and what was returned is
   free of transport errors and, if those are checked, of RPC errors if and only if some target gave
   such a response.
   */
  lemma MulticallIsCorrect(check: bool, answers: seq<Response>, sts: seq<Step>)
    requires IsRun(check, answers, Initial(|answers|), sts)
    ensures
      var s := Run(check, answers, Initial(|answers|), sts);
      && (forall k | k in s.sending :: Enabled(|answers|, s, Send(k)) && !s.closed)
      && ((s.closed && s.returned && s.sent == {}) || exists st :: Enabled(|answers|, s, st))
      && (forall i | 0 <= i < |s.received| :: s.received[i] < |answers|)
      && (s.returned ==>
            (s.final.Returned? && !s.final.response.failed && !(check && s.final.response.rpcError) <==>
             exists k | 0 <= k < |answers| :: !answers[k].failed && !(check && answers[k].rpcError)))
      && (s.returned && NoneAcceptable(check, answers) ==> |s.received| == |answers|)
  {
    InitialInv(check, answers);
    RunKeepsInv(check, answers, Initial(|answers|), sts);
    var s := Run(check, answers, Initial(|answers|), sts);
    assert forall i | 0 <= i < |s.received| :: s.received[i] in s.received + s.channel;
    SendersNeverBlock(check, answers, s);
    if s.returned {
      ReturnsAcceptableIff(check, answers, s);
    }
    if !(s.closed && s.returned && s.sent == {}) {
      var st := NeverStuck(check, answers, s);
    }
  }
}
