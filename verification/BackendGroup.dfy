/**
 Forwarding one batch to a backend group (backend.go): answer what the consensus context can
 answer, send the rest to the first backend that serves it, put the answers back in order.
 */
module BackendGroup {
  import opened Wrappers
  import opened Replies
  import Rewriter

  /** What came of sending a batch to one backend, after its own retries. */
  datatype Attempt =
    | Replied(res: seq<Res>)
    | Skipped(error: RpcError)  // offline, over capacity, transport failure: try the next backend
    | Fatal(error: RpcError)    // cannot be batched, invalid target, not whitelisted, too large

  /** One call of Forward: the consensus context if the group has one, and the backends in the order they are tried. */
  datatype Call = Call(ctx: Option<Rewriter.Context>, attempts: seq<Attempt>)

  predicate Panics(ctx: Option<Rewriter.Context>, req: Req) {
    ctx.Some? && req.name != "eth_blockNumber" && Rewriter.RewriteRequest(ctx.value, req.name, req.params).Panic?
  }

  function ErrorOf(e: Rewriter.Error): RpcError {
    match e
    case OutOfRange => BlockOutOfRange
    case RangeTooLarge => RpcError.RangeTooLarge
    case ParseError => ParseErr
  }

  /** What the consensus context does with a request; without one every request is sent on as it is. */
  function Decide(ctx: Option<Rewriter.Context>, req: Req): (d: Decision)
    requires !Panics(ctx, req)
    ensures d.AnswerLocally? ==> d.res.id == req.id
    ensures d.PassOn? ==> d.req.id == req.id && d.req.name == req.name
  {
    if ctx.None? then PassOn(req)
    else if req.name == "eth_blockNumber" then AnswerLocally(Res(req.id, Height(ctx.value.view.latest)))
    else
      match Rewriter.RewriteRequest(ctx.value, req.name, req.params)
      case Forward(params) => PassOn(req.(params := params))
      case Refuse(e) => AnswerLocally(Res(req.id, Failure(ErrorOf(e))))
  }

  predicate NonePanics(ctx: Option<Rewriter.Context>, reqs: seq<Req>) {
    forall k | 0 <= k < |reqs| :: !Panics(ctx, reqs[k])
  }

  function Decisions(ctx: Option<Rewriter.Context>, reqs: seq<Req>): (ds: seq<Decision>)
    requires NonePanics(ctx, reqs)
    ensures |ds| == |reqs| && forall k | 0 <= k < |reqs| :: ds[k] == Decide(ctx, reqs[k])
  {
    seq(|reqs|, k requires 0 <= k < |reqs| => Decide(ctx, reqs[k]))
  }

  /** One turn of OverwriteConsensusResponses: rewrite the request in place; None when that panics. */
  method DecideInPlace(c: Rewriter.Context, req: Req) returns (d: Option<Decision>)
    ensures d.None? <==> Panics(Some(c), req)
    ensures d.Some? ==> d.value == Decide(Some(c), req)
  {
    var r := new Rewriter.RPCReq(req.id, req.name, req.params);
    var result := Rewriter.RewriteTags(c, r);
    match result {
      case RewritePanic => d := None;
      case RewriteOverrideError(e) => d := Some(AnswerLocally(Res(r.id, Failure(ErrorOf(e)))));
      case RewriteOverrideResponse(latest) => d := Some(AnswerLocally(Res(r.id, Height(latest))));
      case _ => d := Some(PassOn(Req(r.id, r.name, r.params)));
    }
  }

  lemma DecisionsGrow(ctx: Option<Rewriter.Context>, reqs: seq<Req>, i: nat)
    requires i < |reqs| && NonePanics(ctx, reqs[..i]) && !Panics(ctx, reqs[i])
    ensures NonePanics(ctx, reqs[..i + 1])
    ensures Decisions(ctx, reqs[..i + 1]) == Decisions(ctx, reqs[..i]) + [Decide(ctx, reqs[i])]
  {
    assert reqs[..i + 1] == reqs[..i] + [reqs[i]];
  }

  lemma SplitGrows(ds: seq<Decision>, d: Decision)
    ensures Passed(ds + [d]) == Passed(ds) + if d.PassOn? then [d.req] else []
    ensures Locals(ds + [d]) == Locals(ds) + if d.AnswerLocally? then [Indexed(|ds|, d.res)] else []
  {
  }

  // ---------------------------------------------------------------- what the decisions mean

  /** The proxy's own answer, if it has one: the consensus latest for eth_blockNumber, or the error a refused request calls for. */
  function LocalBody(c: Rewriter.Context, req: Req): Option<Body> {
    if req.name == "eth_blockNumber" then Some(Height(c.view.latest))
    else
      match Rewriter.RequestRefusal(c, req.name, req.params)
      case None => None
      case Some(OutOfRange) => Some(Failure(BlockOutOfRange))
      case Some(RangeTooLarge) => Some(Failure(RpcError.RangeTooLarge))
      case Some(ParseError) => Some(Failure(ParseErr))
  }

  /** q may be sent for req: the same id and method, and params that mean to every node what the original means in the consensus view. */
  ghost predicate SentFor(c: Rewriter.Context, req: Req, q: Req) {
    q.id == req.id && q.name == req.name && forall v :: Rewriter.RequestMeansTheSame(c, req.name, req.params, q.params, v)
  }

  /** The requests of a batch with a local answer are in ovs with their positions, and one is in rest, in order, for each of the others. */
  ghost predicate IsSplit(c: Rewriter.Context, reqs: seq<Req>, rest: seq<Req>, ovs: seq<Indexed>)
    decreases |reqs|
  {
    if reqs == [] then rest == [] && ovs == []
    else
      var init, last := reqs[..|reqs| - 1], reqs[|reqs| - 1];
      match LocalBody(c, last)
      case Some(body) =>
        ovs != [] && ovs[|ovs| - 1] == Indexed(|reqs| - 1, Res(last.id, body)) && IsSplit(c, init, rest, ovs[..|ovs| - 1])
      case None =>
        rest != [] && SentFor(c, last, rest[|rest| - 1]) && IsSplit(c, init, rest[..|rest| - 1], ovs)
  }

  /** The decision for a request: its local answer or, exactly without one, a request that means the same everywhere. */
  lemma DecideMeans(c: Rewriter.Context, req: Req)
    requires c.Ordered() && !Panics(Some(c), req)
    ensures
      match Decide(Some(c), req)
      case AnswerLocally(res) => LocalBody(c, req).Some? && res == Res(req.id, LocalBody(c, req).value)
      case PassOn(q) => LocalBody(c, req).None? && SentFor(c, req, q)
  {
    if req.name != "eth_blockNumber" {
      Rewriter.RequestRefusedExactly(c, req.name, req.params);
      if Rewriter.RewriteRequest(c, req.name, req.params).Forward? {
        forall v { Rewriter.RequestKeepsMeaning(c, req.name, req.params, v); }
      }
    }
  }

  lemma {:induction false} SplitMeans(c: Rewriter.Context, reqs: seq<Req>)
    requires c.Ordered() && NonePanics(Some(c), reqs)
    ensures IsSplit(c, reqs, Passed(Decisions(Some(c), reqs)), Locals(Decisions(Some(c), reqs)))
  {
    if reqs == [] {
    } else {
      var n := |reqs| - 1;
      SplitMeans(c, reqs[..n]);
      DecisionsGrow(Some(c), reqs, n);
      assert reqs[..n + 1] == reqs;
      SplitGrows(Decisions(Some(c), reqs[..n]), Decide(Some(c), reqs[n]));
      DecideMeans(c, reqs[n]);
    }
  }

  /** OverwriteConsensusResponses: sort out the requests that are answered locally. */
  method OverwriteConsensusResponses(c: Rewriter.Context, reqs: seq<Req>)
    returns (crashed: bool, rest: seq<Req>, overridden: seq<Indexed>)
    ensures crashed <==> !NonePanics(Some(c), reqs)
    ensures !crashed ==> rest == Passed(Decisions(Some(c), reqs)) && overridden == Locals(Decisions(Some(c), reqs))
    ensures !crashed && c.Ordered() ==> IsSplit(c, reqs, rest, overridden)
  {
    crashed, rest, overridden := false, [], [];
    for i := 0 to |reqs|
      invariant NonePanics(Some(c), reqs[..i])
      invariant rest == Passed(Decisions(Some(c), reqs[..i]))
      invariant overridden == Locals(Decisions(Some(c), reqs[..i]))
    {
      var d := DecideInPlace(c, reqs[i]);
      if d.None? {
        crashed := true;
        return;
      }
      DecisionsGrow(Some(c), reqs, i);
      SplitGrows(Decisions(Some(c), reqs[..i]), d.value);
      match d.value {
        case AnswerLocally(res) => overridden := overridden + [Indexed(i, res)];
        case PassOn(req) => rest := rest + [req];
      }
    }
    assert reqs[..|reqs|] == reqs;
    if c.Ordered() {
      SplitMeans(c, reqs);
    }
  }

  datatype Served = Served(res: seq<Res>) | NotServed(error: RpcError)

  const NO_BACKENDS := Upstream("no backends available for method")

  /** The backend's reply settles the call: it is not skipped, and a reply has one response per request. */
  predicate Settles(reqs: seq<Req>, a: Attempt) {
    a.Fatal? || (a.Replied? && |a.res| == |reqs|)
  }

  predicate FirstToSettle(reqs: seq<Req>, attempts: seq<Attempt>, k: nat)
    requires k < |attempts|
  {
    Settles(reqs, attempts[k]) && forall j | 0 <= j < k :: !Settles(reqs, attempts[j])
  }

  predicate Refused(reqs: seq<Req>, attempts: seq<Attempt>, k: int, e: RpcError) {
    0 <= k < |attempts| && FirstToSettle(reqs, attempts, k) && attempts[k] == Fatal(e)
  }

  /** No backend served: none settled the call, or the first to settle it refused; with nothing to send any backend would do. */
  ghost predicate Unserved(reqs: seq<Req>, attempts: seq<Attempt>, e: RpcError) {
    if reqs == [] then attempts == [] && e == NO_BACKENDS
    else
      || (e == NO_BACKENDS && forall k | 0 <= k < |attempts| :: !Settles(reqs, attempts[k]))
      || exists k :: Refused(reqs, attempts, k, e)
  }

  /** res is the reply of backend k, the first to settle the call; in request order if it answered each id once. */
  predicate ServedBy(reqs: seq<Req>, attempts: seq<Attempt>, k: int, res: seq<Res>) {
    && 0 <= k < |attempts| && FirstToSettle(reqs, attempts, k) && attempts[k].Replied?
    && multiset(res) == multiset(attempts[k].res)
    && (AnswersEachOnce(reqs, attempts[k].res) ==> Aligned(reqs, res))
  }

  /** A call settled by a reply has no error. */
  lemma ServedIsNotUnserved(reqs: seq<Req>, attempts: seq<Attempt>, k: nat, e: RpcError)
    requires reqs != [] && k < |attempts| && FirstToSettle(reqs, attempts, k) && attempts[k].Replied?
    ensures !Unserved(reqs, attempts, e)
  {
    assert forall j | 0 <= j < |attempts| && FirstToSettle(reqs, attempts, j) :: j == k;
  }

  /** A call fails with one error only. */
  lemma UnservedOnce(reqs: seq<Req>, attempts: seq<Attempt>, e: RpcError, e': RpcError)
    requires Unserved(reqs, attempts, e) && Unserved(reqs, attempts, e')
    ensures e == e'
  {
    assert forall j, k | 0 <= j < |attempts| && 0 <= k < |attempts| ::
      FirstToSettle(reqs, attempts, j) && FirstToSettle(reqs, attempts, k) ==> j == k;
  }

  /** Backend k is passed over: it was skipped, or replied with another number of responses than it was sent requests. */
  predicate PassedOver(reqs: seq<Req>, attempts: seq<Attempt>, k: nat)
    requires k < |attempts|
  {
    attempts[k].Skipped? || (attempts[k].Replied? && |attempts[k].res| != |reqs|)
  }

  /** How a call that sends something fails: with the refusal of the first backend not passed over, or because all are. */
  lemma FailureIs(reqs: seq<Req>, attempts: seq<Attempt>, k: nat, e: RpcError)
    requires reqs != [] && k <= |attempts| && forall j | 0 <= j < k :: PassedOver(reqs, attempts, j)
    requires k < |attempts| ==> !PassedOver(reqs, attempts, k)
    ensures Unserved(reqs, attempts, e) <==>
      if k == |attempts| then e == Upstream("no backends available for method") else attempts[k] == Fatal(e)
  {
    forall j | 0 <= j < k ensures !Settles(reqs, attempts[j]) {
      assert PassedOver(reqs, attempts, j);
    }
    if k < |attempts| {
      assert FirstToSettle(reqs, attempts, k);
      assert attempts[k] == Fatal(e) ==> Refused(reqs, attempts, k, e);
      assert forall j | 0 <= j < |attempts| && FirstToSettle(reqs, attempts, j) :: j == k;
    }
  }

  /** ForwardRequestToBackendGroup with doForward's length check and sort: the first backend that settles the call decides. */
  method ForwardToBackends(reqs: seq<Req>, attempts: seq<Attempt>) returns (out: Served)
    requires Distinct(ReqIds(reqs))
    ensures out.Served? ==> |out.res| == |reqs| && (reqs != [] ==> exists k :: ServedBy(reqs, attempts, k, out.res))
    ensures out.Served? ==> forall e :: !Unserved(reqs, attempts, e)
    ensures out.NotServed? ==> Unserved(reqs, attempts, out.error)
  {
    for i := 0 to |attempts|
      invariant reqs == [] ==> i == 0
      invariant forall k | 0 <= k < i :: !Settles(reqs, attempts[k])
    {
      if |reqs| == 0 {
        return Served([]);
      }
      match attempts[i] {
        case Fatal(e) =>
          assert Refused(reqs, attempts, i, e);
          return NotServed(e);
        case Skipped(_) =>
        case Replied(res) =>
          if |res| == |reqs| {
            var sorted := SortBatchRPCResponse(reqs, res);
            assert ServedBy(reqs, attempts, i, sorted);
            forall e { ServedIsNotUnserved(reqs, attempts, i, e); }
            assert |sorted| == |multiset(sorted)| == |res|;
            return Served(sorted);
          }
      }
    }
    out := NotServed(NO_BACKENDS);
  }

  /** Every backend that replies with the right number of responses answers each id it was sent exactly once. */
  predicate WellBehaved(call: Call, reqs: seq<Req>)
    requires NonePanics(call.ctx, reqs)
  {
    var sent := Passed(Decisions(call.ctx, reqs));
    forall k | 0 <= k < |call.attempts| ::
      call.attempts[k].Replied? && |call.attempts[k].res| == |sent| ==> AnswersEachOnce(sent, call.attempts[k].res)
  }

  /** Backend k was the first to settle the call, and r is among its responses. */
  predicate RespondedBy(sent: seq<Req>, attempts: seq<Attempt>, k: int, r: Res) {
    0 <= k < |attempts| && FirstToSettle(sent, attempts, k) && attempts[k].Replied? && r in attempts[k].res
  }

  /** r is the local answer to the request, or the response with its id of the backend that served the batch. */
  ghost predicate IsAnswer(call: Call, reqs: seq<Req>, req: Req, r: Res)
    requires NonePanics(call.ctx, reqs) && !Panics(call.ctx, req)
  {
    && r.id == req.id
    && match Decide(call.ctx, req)
       case AnswerLocally(res) => r == res
       case PassOn(_) => exists k :: RespondedBy(Passed(Decisions(call.ctx, reqs)), call.attempts, k, r)
  }

  /** An answer in an ordered context: the local one or, exactly where there is none, a response with the request's id of the backend that served. */
  lemma AnswerMeans(call: Call, reqs: seq<Req>, req: Req, r: Res)
    requires NonePanics(call.ctx, reqs) && !Panics(call.ctx, req) && IsAnswer(call, reqs, req, r)
    requires call.ctx.Some? && call.ctx.value.Ordered()
    ensures
      match LocalBody(call.ctx.value, req)
      case Some(body) => r == Res(req.id, body)
      case None => r.id == req.id && exists k :: RespondedBy(Passed(Decisions(call.ctx, reqs)), call.attempts, k, r)
  {
    DecideMeans(call.ctx.value, req);
  }

  datatype Forwarded = InOrder(res: seq<Res>) | Errored(error: RpcError) | Crashed

  lemma DistinctGrows(sent: seq<Req>, q: Req)
    requires Distinct(ReqIds(sent)) && forall k | 0 <= k < |sent| :: sent[k].id != q.id
    ensures Distinct(ReqIds(sent + [q]))
  {
    assert ReqIds(sent + [q]) == ReqIds(sent) + [q.id];
  }

  /** The ids sent on are among those of the batch, and repeat none if the batch repeats none. */
  lemma {:induction false} PassedIds(ds: seq<Decision>, ids: seq<string>)
    requires |ids| == |ds| && Distinct(ids) && forall k | 0 <= k < |ds| :: ds[k].PassOn? ==> ds[k].req.id == ids[k]
    ensures Distinct(ReqIds(Passed(ds))) && forall q | q in Passed(ds) :: q.id in ids
  {
    if ds == [] {
    } else {
      var n := |ds| - 1;
      PassedIds(ds[..n], ids[..n]);
      assert ids == ids[..n] + [ids[n]];
      var sent := Passed(ds[..n]);
      forall k | 0 <= k < |sent| ensures sent[k].id != ids[n] {
        assert sent[k] in sent;
      }
      if ds[n].PassOn? {
        DistinctGrows(sent, ds[n].req);
      }
    }
  }

  /**
   BackendGroup.Forward.  Of a batch without repeated ids, position j of an answered call holds
   the local answer to request j or a backend's response with that request's id.
   */
  method Forward(call: Call, reqs: seq<Req>) returns (out: Forwarded)
    requires Distinct(ReqIds(reqs))
    ensures out.Crashed? <==> !NonePanics(call.ctx, reqs)
    ensures out.Errored? ==> reqs != [] && Unserved(Passed(Decisions(call.ctx, reqs)), call.attempts, out.error)
    ensures out.InOrder? ==> |out.res| == |reqs|
    ensures out.InOrder? && reqs != [] ==> forall e :: !Unserved(Passed(Decisions(call.ctx, reqs)), call.attempts, e)
    ensures out.InOrder? && WellBehaved(call, reqs) ==> forall j | 0 <= j < |reqs| :: IsAnswer(call, reqs, reqs[j], out.res[j])
  {
    if |reqs| == 0 {
      return InOrder([]);
    }
    var crashed, rest, overridden := false, reqs, [];
    if call.ctx.Some? {
      crashed, rest, overridden := OverwriteConsensusResponses(call.ctx.value, reqs);
      if crashed {
        return Crashed;
      }
    } else {
      AllPassed(reqs);
    }
    ghost var ds := Decisions(call.ctx, reqs);
    PassedIds(ds, ReqIds(reqs));
    var served := ForwardToBackends(rest, call.attempts);
    if served.NotServed? {
      return Errored(served.error);
    }
    LocalsInBounds(ds);
    var res := OverrideResponses(served.res, overridden);
    MergeUndoesSplit(ds, served.res);
    if WellBehaved(call, reqs) {
      WovenAnswers(call, reqs, served.res);
    }
    out := InOrder(res);
  }

  /** Weaving a served reply with the local answers gives every request an answer of its own. */
  lemma WovenAnswers(call: Call, reqs: seq<Req>, answers: seq<Res>)
    requires NonePanics(call.ctx, reqs) && WellBehaved(call, reqs)
    requires
      var sent := Passed(Decisions(call.ctx, reqs));
      |answers| == |sent| && (sent != [] ==> exists k :: ServedBy(sent, call.attempts, k, answers))
    ensures forall j | 0 <= j < |reqs| :: IsAnswer(call, reqs, reqs[j], Weave(Decisions(call.ctx, reqs), answers)[j])
  {
    var ds := Decisions(call.ctx, reqs);
    forall j | 0 <= j < |reqs| ensures IsAnswer(call, reqs, reqs[j], Weave(ds, answers)[j]) {
      WeaveAt(ds, answers, j);
      if ds[j].PassOn? {
        var m :| 0 <= m < |answers| && Passed(ds)[m] == ds[j].req && Weave(ds, answers)[j] == answers[m];
        var k :| ServedBy(Passed(ds), call.attempts, k, answers);
        assert answers[m] in multiset(answers);
        assert RespondedBy(Passed(ds), call.attempts, k, answers[m]);
      }
    }
  }

  lemma {:induction false} AllPassed(reqs: seq<Req>)
    ensures Passed(Decisions(None, reqs)) == reqs && Locals(Decisions(None, reqs)) == []
  {
    if reqs == [] {
    } else {
      var init := reqs[..|reqs| - 1];
      AllPassed(init);
      assert Decisions(None, reqs)[..|reqs| - 1] == Decisions(None, init);
    }
  }
}
