/**
 handleBatchRPC (server.go): requests are split into groups so that no group repeats an id,
 cache hits are taken out, the misses go upstream in minibatches, and every answer is scattered
 to the position of its request.
 */
module BatchRpc {
  import opened Wrappers
  import opened Replies
  import opened BackendGroup
  import Rewriter

  /** A request after parsing, validation, routing and rate limiting: answered at once, or routed to a backend group. */
  datatype Parsed = Local(res: Res) | Routed(req: Req, group: string)

  datatype GroupKey = GroupKey(groupId: nat, backendGroup: string)

  datatype Elem = Elem(req: Req, index: nat)

  function Reqs(elems: seq<Elem>): (reqs: seq<Req>)
    ensures |reqs| == |elems| && forall k | 0 <= k < |elems| :: reqs[k] == elems[k].req
  {
    seq(|elems|, k requires 0 <= k < |elems| => elems[k].req)
  }

  // ---------------------------------------------------------------- grouping

  /** How many of the first n requests are routed with this id. */
  function Count(parsed: seq<Parsed>, n: nat, id: string): nat
    requires n <= |parsed|
  {
    if n == 0 then 0
    else Count(parsed, n - 1, id) + if parsed[n - 1].Routed? && parsed[n - 1].req.id == id then 1 else 0
  }

  /** The group of routed request i: how often its id has occurred so far, and its backend group. */
  function KeyOf(parsed: seq<Parsed>, i: nat): GroupKey
    requires i < |parsed| && parsed[i].Routed?
  {
    GroupKey(Count(parsed, i + 1, parsed[i].req.id), parsed[i].group)
  }

  /** The members of group g among the first n requests, in order. */
  function Members(parsed: seq<Parsed>, n: nat, g: GroupKey): seq<Elem>
    requires n <= |parsed|
  {
    if n == 0 then []
    else
      var init := Members(parsed, n - 1, g);
      if parsed[n - 1].Routed? && KeyOf(parsed, n - 1) == g then init + [Elem(parsed[n - 1].req, n - 1)] else init
  }

  predicate IsElem(parsed: seq<Parsed>, e: Elem) {
    e.index < |parsed| && parsed[e.index].Routed? && parsed[e.index].req == e.req
  }

  lemma {:induction false} CountGrows(parsed: seq<Parsed>, i: nat, n: nat, id: string)
    requires i <= n <= |parsed|
    ensures Count(parsed, i, id) <= Count(parsed, n, id)
  {
    if i == n {
    } else {
      CountGrows(parsed, i, n - 1, id);
    }
  }

  /** Exactly the routed requests with key g are members of group g. */
  lemma {:induction false} MembersAre(parsed: seq<Parsed>, n: nat, g: GroupKey)
    requires n <= |parsed|
    ensures forall e | e in Members(parsed, n, g) :: e.index < n && IsElem(parsed, e) && KeyOf(parsed, e.index) == g
    ensures forall i: nat | i < n && parsed[i].Routed? && KeyOf(parsed, i) == g :: Elem(parsed[i].req, i) in Members(parsed, n, g)
  {
    if n == 0 {
    } else {
      MembersAre(parsed, n - 1, g);
    }
  }

  predicate NoIdTwice(elems: seq<Elem>) {
    forall i, j | 0 <= i < j < |elems| :: elems[i].req.id != elems[j].req.id
  }

  /** No group ever holds a repeated id, so the duplicate-id panic of the sort is unreachable. */
  lemma {:induction false} GroupsHaveDistinctIds(parsed: seq<Parsed>, n: nat, g: GroupKey)
    requires n <= |parsed|
    ensures NoIdTwice(Members(parsed, n, g))
  {
    if n == 0 {
    } else {
      GroupsHaveDistinctIds(parsed, n - 1, g);
      var init := Members(parsed, n - 1, g);
      if parsed[n - 1].Routed? && KeyOf(parsed, n - 1) == g {
        MembersAre(parsed, n - 1, g);
        var id := parsed[n - 1].req.id;
        forall k | 0 <= k < |init| ensures init[k].req.id != id {
          assert init[k] in init;
          CountGrows(parsed, init[k].index + 1, n - 1, id);
        }
      }
    }
  }

  /** The batches map after the first n requests. */
  ghost predicate IsGrouping(parsed: seq<Parsed>, n: nat, batches: map<GroupKey, seq<Elem>>)
    requires n <= |parsed|
  {
    forall g :: if g in batches then batches[g] == Members(parsed, n, g) else Members(parsed, n, g) == []
  }

  ghost predicate IsCounting(parsed: seq<Parsed>, n: nat, ids: map<string, nat>)
    requires n <= |parsed|
  {
    forall id :: Count(parsed, n, id) == if id in ids then ids[id] else 0
  }

  /** Adding request i to its group, or to none if it was answered at once. */
  lemma GroupingGrows(parsed: seq<Parsed>, i: nat, batches: map<GroupKey, seq<Elem>>)
    requires i < |parsed| && IsGrouping(parsed, i, batches)
    ensures parsed[i].Local? ==> IsGrouping(parsed, i + 1, batches)
    ensures parsed[i].Routed? ==>
      var g := KeyOf(parsed, i);
      IsGrouping(parsed, i + 1, batches[g := (if g in batches then batches[g] else []) + [Elem(parsed[i].req, i)]])
  {
  }

  method GroupRequests(parsed: seq<Parsed>, responses: array<Option<Res>>) returns (batches: map<GroupKey, seq<Elem>>)
    requires responses.Length == |parsed|
    modifies responses
    ensures IsGrouping(parsed, |parsed|, batches)
    ensures forall i | 0 <= i < |parsed| :: parsed[i].Local? ==> responses[i] == Some(parsed[i].res)
  {
    batches := map[];
    var ids: map<string, nat> := map[];
    for i := 0 to |parsed|
      invariant IsCounting(parsed, i, ids)
      invariant IsGrouping(parsed, i, batches)
      invariant forall k | 0 <= k < i :: parsed[k].Local? ==> responses[k] == Some(parsed[k].res)
    {
      GroupingGrows(parsed, i, batches);
      if parsed[i].Local? {
        responses[i] := Some(parsed[i].res);
      } else {
        var id := parsed[i].req.id;
        ids := ids[id := (if id in ids then ids[id] else 0) + 1];
        var g := GroupKey(ids[id], parsed[i].group);
        assert g == KeyOf(parsed, i);
        batches := batches[g := (if g in batches then batches[g] else []) + [Elem(parsed[i].req, i)]];
      }
    }
  }

  // ---------------------------------------------------------------- minibatches

  /** The configured maximum size of a minibatch. */
  type Size = n: nat | n > 0 witness 1

  /**
   The world during one call: the configured size of minibatches, what the cache answers for the
   request at each position, and what the deadline and the backends do with each minibatch.  Each
   request is looked up once and no two minibatches are equal, so this admits any behaviour over time.
   */
  datatype World = World(
    maxUpstreamBatchSize: Size, cached: nat -> Option<Body>,
    call: (string, seq<Elem>) -> Call, deadline: (string, seq<Elem>) -> bool)

  /** The elements the cache does not answer. */
  function Misses(w: World, batch: seq<Elem>): seq<Elem> {
    if batch == [] then []
    else
      var init, last := Misses(w, batch[..|batch| - 1]), batch[|batch| - 1];
      if w.cached(last.index).None? then init + [last] else init
  }

  function Min(a: nat, b: nat): nat {
    if a <= b then a else b
  }

  /** The list cut into pieces of the given size; the last one may be shorter. */
  function Cut(all: seq<Elem>, size: Size): seq<seq<Elem>> {
    if all == [] then []
    else
      var end := Min(size, |all|);
      [all[..end]] + Cut(all[end..], size)
  }

  /** elems is a minibatch of group g in this call: a piece of what the cache does not answer of that group. */
  predicate IsMinibatch(w: World, parsed: seq<Parsed>, g: GroupKey, elems: seq<Elem>) {
    elems in Cut(Misses(w, Members(parsed, |parsed|, g)), w.maxUpstreamBatchSize)
  }

  predicate ElemsOf(parsed: seq<Parsed>, g: GroupKey, elems: seq<Elem>) {
    forall k | 0 <= k < |elems| :: IsElem(parsed, elems[k]) && KeyOf(parsed, elems[k].index) == g
  }

  predicate DistinctIndices(elems: seq<Elem>) {
    forall i, j | 0 <= i < j < |elems| :: elems[i].index < elems[j].index
  }

  /** A batch of one group: elements of the request list in order, all of that group, no id twice. */
  predicate IsBatch(parsed: seq<Parsed>, g: GroupKey, batch: seq<Elem>) {
    ElemsOf(parsed, g, batch) && DistinctIndices(batch) && NoIdTwice(batch)
  }

  lemma BatchSlice(parsed: seq<Parsed>, g: GroupKey, batch: seq<Elem>, lo: nat, hi: nat)
    requires IsBatch(parsed, g, batch) && lo <= hi <= |batch|
    ensures IsBatch(parsed, g, batch[lo..hi])
  {
  }

  lemma {:induction false} MissesAre(w: World, batch: seq<Elem>)
    ensures forall e :: e in Misses(w, batch) <==> e in batch && w.cached(e.index).None?
  {
    if batch == [] {
    } else {
      var n := |batch| - 1;
      MissesAre(w, batch[..n]);
      assert batch == batch[..n] + [batch[n]];
    }
  }

  lemma BatchGrows(parsed: seq<Parsed>, g: GroupKey, init: seq<Elem>, last: Elem)
    requires IsBatch(parsed, g, init) && IsElem(parsed, last) && KeyOf(parsed, last.index) == g
    requires forall k | 0 <= k < |init| :: init[k].index < last.index && init[k].req.id != last.req.id
    ensures IsBatch(parsed, g, init + [last])
  {
  }

  lemma {:induction false} MissesAreBatch(w: World, parsed: seq<Parsed>, g: GroupKey, batch: seq<Elem>)
    requires IsBatch(parsed, g, batch)
    ensures IsBatch(parsed, g, Misses(w, batch))
  {
    if batch == [] {
    } else {
      var n := |batch| - 1;
      BatchSlice(parsed, g, batch, 0, n);
      MissesAreBatch(w, parsed, g, batch[..n]);
      MissesAre(w, batch[..n]);
      var init := Misses(w, batch[..n]);
      forall k | 0 <= k < |init| ensures init[k].index < batch[n].index && init[k].req.id != batch[n].req.id {
        assert init[k] in batch[..n];
        var m :| 0 <= m < n && batch[m] == init[k];
      }
      BatchGrows(parsed, g, init, batch[n]);
    }
  }

  lemma {:induction false} MembersInOrder(parsed: seq<Parsed>, n: nat, g: GroupKey)
    requires n <= |parsed|
    ensures DistinctIndices(Members(parsed, n, g))
  {
    if n == 0 {
    } else {
      MembersInOrder(parsed, n - 1, g);
      MembersAre(parsed, n - 1, g);
      var init := Members(parsed, n - 1, g);
      assert forall k | 0 <= k < |init| :: init[k] in init;
    }
  }

  /** The batches map holds batches. */
  lemma MembersAreBatch(parsed: seq<Parsed>, n: nat, g: GroupKey)
    requires n <= |parsed|
    ensures IsBatch(parsed, g, Members(parsed, n, g))
  {
    GroupsHaveDistinctIds(parsed, n, g);
    MembersInOrder(parsed, n, g);
    MembersAre(parsed, n, g);
    var all := Members(parsed, n, g);
    assert forall k | 0 <= k < |all| :: all[k] in all;
  }

  lemma {:induction false} PieceIsSlice(all: seq<Elem>, size: Size, elems: seq<Elem>) returns (lo: nat)
    requires elems in Cut(all, size)
    ensures 0 < |elems| <= size && lo + |elems| <= |all| && elems == all[lo..lo + |elems|]
    decreases |all|
  {
    var end := Min(size, |all|);
    if elems == all[..end] {
      lo := 0;
    } else {
      var rest := PieceIsSlice(all[end..], size, elems);
      lo := end + rest;
    }
  }

  /** A minibatch is not empty, not larger than configured, repeats no id, and holds only misses of its group. */
  lemma MinibatchIsBatch(w: World, parsed: seq<Parsed>, g: GroupKey, elems: seq<Elem>)
    requires IsMinibatch(w, parsed, g, elems)
    ensures IsBatch(parsed, g, elems) && 0 < |elems| <= w.maxUpstreamBatchSize
    ensures forall k | 0 <= k < |elems| :: w.cached(elems[k].index).None?
  {
    var members := Members(parsed, |parsed|, g);
    var misses := Misses(w, members);
    MembersAreBatch(parsed, |parsed|, g);
    MissesAreBatch(w, parsed, g, members);
    MissesAre(w, members);
    var lo := PieceIsSlice(misses, w.maxUpstreamBatchSize, elems);
    BatchSlice(parsed, g, misses, lo, lo + |elems|);
    assert forall k | 0 <= k < |elems| :: elems[k] in misses;
  }

  /** Pieces do not overlap: pieces with an element in common are the same piece. */
  lemma {:induction false} PiecesApart(all: seq<Elem>, size: Size, elems: seq<Elem>, elems': seq<Elem>, e: Elem)
    requires DistinctIndices(all) && elems in Cut(all, size) && elems' in Cut(all, size) && e in elems && e in elems'
    ensures elems == elems'
    decreases |all|
  {
    var end := Min(size, |all|);
    var first, rest := all[..end], all[end..];
    if elems in Cut(rest, size) && elems' in Cut(rest, size) {
      PiecesApart(rest, size, elems, elems', e);
    } else {
      PieceOfRest(all, size, elems, e);
      PieceOfRest(all, size, elems', e);
    }
  }

  /** An element of a later piece is not one of the first. */
  lemma PieceOfRest(all: seq<Elem>, size: Size, elems: seq<Elem>, e: Elem)
    requires DistinctIndices(all) && elems in Cut(all, size) && e in elems
    ensures
      var end := Min(size, |all|);
      if e in all[..end] then elems == all[..end] else elems in Cut(all[end..], size)
  {
    var end := Min(size, |all|);
    if elems != all[..end] {
      var lo := PieceIsSlice(all[end..], size, elems);
      assert e in all[end..];
    }
  }

  /** A request is sent in one minibatch only. */
  lemma SentOnce(w: World, parsed: seq<Parsed>, g: GroupKey, e: Elem, elems: seq<Elem>, elems': seq<Elem>)
    requires IsMinibatch(w, parsed, g, elems) && IsMinibatch(w, parsed, g, elems') && e in elems && e in elems'
    ensures elems == elems'
  {
    MembersAreBatch(parsed, |parsed|, g);
    MissesAreBatch(w, parsed, g, Members(parsed, |parsed|, g));
    PiecesApart(Misses(w, Members(parsed, |parsed|, g)), w.maxUpstreamBatchSize, elems, elems', e);
  }

  // ---------------------------------------------------------------- serving

  /** The refusals that make handleBatchRPC give up the whole batch. */
  const CANT_BE_BATCHED := Upstream("consensus_getReceipts cannot be batched")
  const INVALID_TARGET := Upstream("unsupported consensus_receipts_target")

  /** Early returns: the deadline passed, a request cannot be served in this form, or rewriting crashed. */
  datatype Verdict = Done | DeadlineExceeded | Aborted | Crash

  /** Forwarding this minibatch fails with the given error. */
  ghost predicate FailsWith(w: World, group: string, elems: seq<Elem>, err: RpcError)
    requires NonePanics(w.call(group, elems).ctx, Reqs(elems))
  {
    Unserved(Passed(Decisions(w.call(group, elems).ctx, Reqs(elems))), w.call(group, elems).attempts, err)
  }

  /** What a minibatch does to the call: nothing, or end it. */
  ghost function Effect(w: World, group: string, elems: seq<Elem>): Verdict {
    if w.deadline(group, elems) then DeadlineExceeded
    else if !NonePanics(w.call(group, elems).ctx, Reqs(elems)) then Crash
    else if FailsWith(w, group, elems, CANT_BE_BATCHED) || FailsWith(w, group, elems, INVALID_TARGET) then Aborted
    else Done
  }

  /** Both refusals that concern receipts end the call, and no other error does. */
  lemma AbortedIff(w: World, group: string, elems: seq<Elem>)
    requires !w.deadline(group, elems) && NonePanics(w.call(group, elems).ctx, Reqs(elems))
    ensures Effect(w, group, elems).Aborted? <==>
      || FailsWith(w, group, elems, Upstream("consensus_getReceipts cannot be batched"))
      || FailsWith(w, group, elems, Upstream("unsupported consensus_receipts_target"))
    ensures !Effect(w, group, elems).Aborted? ==> Effect(w, group, elems).Done?
  {
  }

  /** Backends answer each id of each minibatch of this call exactly once. */
  ghost predicate BackendsWellBehaved(w: World, parsed: seq<Parsed>) {
    forall g, elems | IsMinibatch(w, parsed, g, elems) && NonePanics(w.call(g.backendGroup, elems).ctx, Reqs(elems)) ::
      WellBehaved(w.call(g.backendGroup, elems), Reqs(elems))
  }

  /** r answers element e as part of this minibatch: the error the call failed with or, if it did not, the forwarded answer. */
  ghost predicate FromMinibatch(w: World, group: string, elems: seq<Elem>, e: Elem, r: Res) {
    var call := w.call(group, elems);
    && e in elems && NonePanics(call.ctx, Reqs(elems)) && !Panics(call.ctx, e.req)
    && if exists err :: FailsWith(w, group, elems, err)
       then exists err :: FailsWith(w, group, elems, err) && r == Res(e.req.id, Failure(err))
       else IsAnswer(call, Reqs(elems), e.req, r)
  }

  /**
   r is the local, cached or backend answer to request i: a cached result is answered with the
   request's own id, and a request that is not cached is answered by its own minibatch.
   */
  ghost predicate Answers(w: World, parsed: seq<Parsed>, i: nat, r: Res)
    requires i < |parsed|
  {
    match parsed[i]
    case Local(res) => r == res
    case Routed(req, group) =>
      if w.cached(i).Some? then r == Res(req.id, w.cached(i).value)
      else exists elems :: IsMinibatch(w, parsed, KeyOf(parsed, i), elems) && FromMinibatch(w, group, elems, Elem(req, i), r)
  }

  /** Cached or not, the answer to a routed request carries its id. */
  lemma AnswerCarriesItsId(w: World, parsed: seq<Parsed>, i: nat, r: Res)
    requires i < |parsed| && parsed[i].Routed? && Answers(w, parsed, i, r)
    ensures r.id == parsed[i].req.id
  {
  }

  /** The answer to a request that is not cached comes, under its id, from the one minibatch it is sent in, where no other request has that id. */
  lemma AnsweredByOwnMinibatch(w: World, parsed: seq<Parsed>, i: nat, r: Res, elems: seq<Elem>)
    requires i < |parsed| && parsed[i].Routed? && w.cached(i).None? && Answers(w, parsed, i, r)
    requires IsMinibatch(w, parsed, KeyOf(parsed, i), elems) && Elem(parsed[i].req, i) in elems
    ensures FromMinibatch(w, parsed[i].group, elems, Elem(parsed[i].req, i), r) && r.id == parsed[i].req.id
    ensures NoIdTwice(elems) && |elems| <= w.maxUpstreamBatchSize
  {
    var g, e := KeyOf(parsed, i), Elem(parsed[i].req, i);
    var own :| IsMinibatch(w, parsed, g, own) && FromMinibatch(w, parsed[i].group, own, e, r);
    SentOnce(w, parsed, g, e, own, elems);
    MinibatchIsBatch(w, parsed, g, elems);
  }

  /** Position i has a response and, if backends are well behaved, it is the answer to request i. */
  ghost predicate Filled(w: World, parsed: seq<Parsed>, responses: seq<Option<Res>>, i: nat)
    requires |responses| == |parsed|
  {
    i < |parsed| && responses[i].Some? && (BackendsWellBehaved(w, parsed) ==> Answers(w, parsed, i, responses[i].value))
  }

  /** Everything outside the batch keeps its response. */
  ghost predicate OthersKeep(before: seq<Option<Res>>, after: seq<Option<Res>>, batch: seq<Elem>) {
    |after| == |before| && forall i: nat | i < |before| && (forall k | 0 <= k < |batch| :: batch[k].index != i) :: after[i] == before[i]
  }

  /** The effect of a minibatch that did not crash, read off what forwarding it gave. */
  lemma EffectOf(w: World, group: string, elems: seq<Elem>, out: Forwarded)
    requires !w.deadline(group, elems) && NonePanics(w.call(group, elems).ctx, Reqs(elems))
    requires IsForwarded(w, group, elems, out)
    ensures Effect(w, group, elems) ==
      if out.Errored? && (out.error == CANT_BE_BATCHED || out.error == INVALID_TARGET) then Aborted else Done
  {
    var call := w.call(group, elems);
    forall e | out.Errored? && FailsWith(w, group, elems, e) ensures e == out.error {
      UnservedOnce(Passed(Decisions(call.ctx, Reqs(elems))), call.attempts, e, out.error);
    }
  }

  /** out is what forwarding the minibatch gives: its error, or an answer for each element. */
  ghost predicate IsForwarded(w: World, group: string, elems: seq<Elem>, out: Forwarded)
    requires NonePanics(w.call(group, elems).ctx, Reqs(elems))
  {
    var call := w.call(group, elems);
    match out
    case Crashed => false
    case Errored(e) => FailsWith(w, group, elems, e)
    case InOrder(res) =>
      && |res| == |elems| && (forall e :: !FailsWith(w, group, elems, e))
      && (WellBehaved(call, Reqs(elems)) ==> forall k | 0 <= k < |elems| :: IsAnswer(call, Reqs(elems), Reqs(elems)[k], res[k]))
  }

  /** The response for element k of a forwarded minibatch. */
  function ResponseTo(out: Forwarded, elems: seq<Elem>, k: nat): Res
    requires k < |elems| && !out.Crashed? && (out.InOrder? ==> |out.res| == |elems|)
  {
    if out.Errored? then Res(elems[k].req.id, Failure(out.error)) else out.res[k]
  }

  lemma ResponseAnswers(w: World, parsed: seq<Parsed>, g: GroupKey, elems: seq<Elem>, out: Forwarded, k: nat)
    requires IsMinibatch(w, parsed, g, elems) && IsBatch(parsed, g, elems) && k < |elems|
    requires w.cached(elems[k].index).None? && BackendsWellBehaved(w, parsed)
    requires NonePanics(w.call(g.backendGroup, elems).ctx, Reqs(elems)) && IsForwarded(w, g.backendGroup, elems, out)
    ensures Answers(w, parsed, elems[k].index, ResponseTo(out, elems, k))
  {
    var e := elems[k];
    assert Reqs(elems)[k] == e.req && e == Elem(parsed[e.index].req, e.index);
    assert FromMinibatch(w, g.backendGroup, elems, e, ResponseTo(out, elems, k));
  }

  // ---------------------------------------------------------------- storing

  /** A response handed to the cache, with the request as it stands then. */
  datatype Put = Put(req: Req, body: Body)

  /** The response has no error and a result. */
  predicate Storable(body: Body) {
    !body.Failure? && body != Result("null")
  }

  /** The request after forwarding: as it was sent, or as it was if it was answered locally. */
  function SentAs(ctx: Option<Rewriter.Context>, req: Req): Req
    requires !Panics(ctx, req)
  {
    match Decide(ctx, req)
    case PassOn(sent) => sent
    case AnswerLocally(_) => req
  }

  function Sent(ctx: Option<Rewriter.Context>, elems: seq<Elem>): (sent: seq<Req>)
    requires NonePanics(ctx, Reqs(elems))
    ensures |sent| == |elems| && forall k | 0 <= k < |elems| :: !Panics(ctx, elems[k].req) && sent[k] == SentAs(ctx, elems[k].req)
  {
    assert forall k | 0 <= k < |elems| :: !Panics(ctx, Reqs(elems)[k]);
    seq(|elems|, k requires 0 <= k < |elems| => SentAs(ctx, elems[k].req))
  }

  /** puts holds exactly the storable ones of the first n responses, each with its own request. */
  ghost predicate ArePuts(sent: seq<Req>, res: seq<Res>, n: nat, puts: seq<Put>)
    requires n <= |sent| && n <= |res|
  {
    forall p :: p in puts <==>
      !p.body.Failure? && p.body != Result("null") && exists k | 0 <= k < n :: p == Put(sent[k], res[k].body)
  }

  /** The response put for element k is the answer to it, under its own id. */
  ghost predicate IsOwnPut(w: World, group: string, elems: seq<Elem>, p: Put)
    requires NonePanics(w.call(group, elems).ctx, Reqs(elems))
  {
    var call := w.call(group, elems);
    exists k | 0 <= k < |elems| && !Panics(call.ctx, elems[k].req) ::
      p.req == SentAs(call.ctx, elems[k].req) && IsAnswer(call, Reqs(elems), elems[k].req, Res(elems[k].req.id, p.body))
  }

  /** Every storable response given to an element is put with the request as it was sent. */
  ghost predicate AllPut(w: World, group: string, elems: seq<Elem>, responses: seq<Option<Res>>, puts: seq<Put>)
    requires NonePanics(w.call(group, elems).ctx, Reqs(elems))
  {
    forall k | 0 <= k < |elems| && elems[k].index < |responses| ::
      responses[elems[k].index].Some? && Storable(responses[elems[k].index].value.body) ==>
        Put(Sent(w.call(group, elems).ctx, elems)[k], responses[elems[k].index].value.body) in puts
  }

  lemma PutsAreOwn(w: World, parsed: seq<Parsed>, g: GroupKey, elems: seq<Elem>, out: Forwarded, res: seq<Res>, puts: seq<Put>)
    requires IsMinibatch(w, parsed, g, elems) && BackendsWellBehaved(w, parsed)
    requires NonePanics(w.call(g.backendGroup, elems).ctx, Reqs(elems)) && IsForwarded(w, g.backendGroup, elems, out)
    requires |res| == |elems| && forall k | 0 <= k < |elems| :: res[k] == ResponseTo(out, elems, k)
    requires ArePuts(Sent(w.call(g.backendGroup, elems).ctx, elems), res, |elems|, puts)
    ensures forall p | p in puts :: IsOwnPut(w, g.backendGroup, elems, p)
  {
    var call := w.call(g.backendGroup, elems);
    forall p | p in puts ensures IsOwnPut(w, g.backendGroup, elems, p) {
      var k :| 0 <= k < |elems| && p == Put(Sent(call.ctx, elems)[k], res[k].body);
      assert Reqs(elems)[k] == elems[k].req;
      assert IsAnswer(call, Reqs(elems), elems[k].req, res[k]);
      assert res[k] == Res(elems[k].req.id, p.body);
    }
  }

  lemma {:induction false} PassedHolds(ds: seq<Decision>, k: nat)
    requires k < |ds| && ds[k].PassOn?
    ensures ds[k].req in Passed(ds)
  {
    if k == |ds| - 1 {
    } else {
      PassedHolds(ds[..|ds| - 1], k);
    }
  }

  /**
   What a batch stores, but for the local answer to eth_blockNumber, is what the backend that served
   the minibatch responded, under the id of the request as it was sent to it; so each entry is an
   answer to its own request although responses are paired with requests only by sorting.
   */
  lemma StoredIsOwnAnswer(w: World, group: string, elems: seq<Elem>, p: Put)
    requires NonePanics(w.call(group, elems).ctx, Reqs(elems)) && IsOwnPut(w, group, elems, p)
    requires Storable(p.body) && p.req.name != "eth_blockNumber"
    ensures
      var call := w.call(group, elems);
      var sent := Passed(Decisions(call.ctx, Reqs(elems)));
      p.req in sent && exists j :: RespondedBy(sent, call.attempts, j, Res(p.req.id, p.body))
  {
    var call := w.call(group, elems);
    var reqs := Reqs(elems);
    var k :| 0 <= k < |elems| && !Panics(call.ctx, elems[k].req) &&
      p.req == SentAs(call.ctx, elems[k].req) && IsAnswer(call, reqs, elems[k].req, Res(elems[k].req.id, p.body));
    assert reqs[k] == elems[k].req;
    assert Decide(call.ctx, elems[k].req).PassOn?;
    PassedHolds(Decisions(call.ctx, reqs), k);
  }

  // ---------------------------------------------------------------- the loops

  lemma RequestsDiffer(elems: seq<Elem>)
    requires NoIdTwice(elems)
    ensures Distinct(ReqIds(Reqs(elems)))
  {
  }

  /** One minibatch: forward it and scatter the answers; an error becomes an error response for each element. */
  method ServeMinibatch(w: World, parsed: seq<Parsed>, g: GroupKey, elems: seq<Elem>, responses: array<Option<Res>>)
    returns (verdict: Verdict, puts: seq<Put>)
    requires responses.Length == |parsed|
    requires IsMinibatch(w, parsed, g, elems)
    modifies responses
    ensures verdict == Effect(w, g.backendGroup, elems)
    ensures OthersKeep(old(responses[..]), responses[..], elems)
    ensures verdict.Done? ==> forall k | 0 <= k < |elems| :: Filled(w, parsed, responses[..], elems[k].index)
    ensures !verdict.Done? ==> puts == []
    ensures verdict.Done? ==>
      NonePanics(w.call(g.backendGroup, elems).ctx, Reqs(elems)) && AllPut(w, g.backendGroup, elems, responses[..], puts)
    ensures verdict.Done? && BackendsWellBehaved(w, parsed) ==> forall p | p in puts :: IsOwnPut(w, g.backendGroup, elems, p)
  {
    puts := [];
    MinibatchIsBatch(w, parsed, g, elems);
    if w.deadline(g.backendGroup, elems) {
      return DeadlineExceeded, [];
    }
    RequestsDiffer(elems);
    var out := Forward(w.call(g.backendGroup, elems), Reqs(elems));
    if out.Crashed? {
      return Crash, [];
    }
    assert IsForwarded(w, g.backendGroup, elems, out);
    EffectOf(w, g.backendGroup, elems, out);
    if out.Errored? && (out.error == CANT_BE_BATCHED || out.error == INVALID_TARGET) {
      return Aborted, [];
    }
    var res := Responses(out, elems);
    forall k | 0 <= k < |elems| && BackendsWellBehaved(w, parsed) ensures Answers(w, parsed, elems[k].index, res[k]) {
      ResponseAnswers(w, parsed, g, elems, out, k);
    }
    puts := Scatter(elems, res, Sent(w.call(g.backendGroup, elems).ctx, elems), responses);
    if BackendsWellBehaved(w, parsed) {
      PutsAreOwn(w, parsed, g, elems, out, res, puts);
    }
    verdict := Done;
  }

  /** The forwarded responses, or the error repeated for each element. */
  method Responses(out: Forwarded, elems: seq<Elem>) returns (res: seq<Res>)
    requires !out.Crashed? && (out.InOrder? ==> |out.res| == |elems|)
    ensures |res| == |elems| && forall k | 0 <= k < |elems| :: res[k] == ResponseTo(out, elems, k)
  {
    if out.InOrder? {
      return out.res;
    }
    res := [];
    for i := 0 to |elems|
      invariant |res| == i && forall k | 0 <= k < i :: res[k] == ResponseTo(out, elems, k)
    {
      res := res + [Res(elems[i].req.id, Failure(out.error))];
    }
  }

  /** Each response goes to the position of its request and, if it is storable, to the cache with its request. */
  method Scatter(elems: seq<Elem>, res: seq<Res>, sent: seq<Req>, responses: array<Option<Res>>) returns (puts: seq<Put>)
    requires |res| == |elems| == |sent| && DistinctIndices(elems)
    requires forall k | 0 <= k < |elems| :: elems[k].index < responses.Length
    modifies responses
    ensures OthersKeep(old(responses[..]), responses[..], elems)
    ensures forall k | 0 <= k < |elems| :: responses[elems[k].index] == Some(res[k])
    ensures ArePuts(sent, res, |elems|, puts)
  {
    puts := [];
    for i := 0 to |elems|
      invariant OthersKeep(old(responses[..]), responses[..], elems)
      invariant forall k | 0 <= k < i :: responses[elems[k].index] == Some(res[k])
      invariant ArePuts(sent, res, i, puts)
    {
      responses[elems[i].index] := Some(res[i]);
      PutsGrow(sent, res, i, puts);
      if Storable(res[i].body) {
        puts := puts + [Put(sent[i], res[i].body)];
      }
    }
  }

  lemma PutsGrow(sent: seq<Req>, res: seq<Res>, i: nat, puts: seq<Put>)
    requires i < |sent| && i < |res| && ArePuts(sent, res, i, puts)
    ensures ArePuts(sent, res, i + 1, if Storable(res[i].body) then puts + [Put(sent[i], res[i].body)] else puts)
  {
  }

  /** math.Ceil(n / size) */
  function NumBatches(n: nat, size: nat): nat
    requires size > 0
  {
    (n + size - 1) / size
  }

  /** Minibatch i starts inside the list exactly while i is below their number. */
  lemma MinibatchStarts(n: nat, size: nat, i: nat)
    requires size > 0
    ensures i < NumBatches(n, size) <==> i * size < n
    ensures (i + 1) * size == i * size + size
  {
    var q := NumBatches(n, size);
    assert n + size - 1 == q * size + (n + size - 1) % size;
    if i < q {
      assert i * size <= (q - 1) * size;
    } else {
      assert i * size >= q * size;
    }
  }

  /** Responses already given stay given when only other positions are written. */
  lemma FilledStays(w: World, parsed: seq<Parsed>, before: seq<Option<Res>>, after: seq<Option<Res>>, batch: seq<Elem>, i: nat)
    requires |before| == |parsed| && OthersKeep(before, after, batch)
    requires Filled(w, parsed, before, i) && forall k | 0 <= k < |batch| :: batch[k].index != i
    ensures Filled(w, parsed, after, i)
  {
  }

  /** The cache lookups of one batch. */
  method LookUp(w: World, parsed: seq<Parsed>, g: GroupKey, batch: seq<Elem>, responses: array<Option<Res>>)
    returns (misses: seq<Elem>)
    requires responses.Length == |parsed| && IsBatch(parsed, g, batch)
    modifies responses
    ensures misses == Misses(w, batch)
    ensures OthersKeep(old(responses[..]), responses[..], batch)
    ensures forall k | 0 <= k < |batch| :: w.cached(batch[k].index).Some? ==> Filled(w, parsed, responses[..], batch[k].index)
  {
    misses := [];
    for i := 0 to |batch|
      invariant responses.Length == |parsed| && misses == Misses(w, batch[..i])
      invariant OthersKeep(old(responses[..]), responses[..], batch)
      invariant forall k | 0 <= k < i :: w.cached(batch[k].index).Some? ==>
        responses[batch[k].index] == Some(Res(batch[k].req.id, w.cached(batch[k].index).value))
    {
      var hit := w.cached(batch[i].index);
      if hit.Some? {
        responses[batch[i].index] := Some(Res(batch[i].req.id, hit.value));
      } else {
        misses := misses + [batch[i]];
      }
      assert batch[..i + 1][..i] == batch[..i];
    }
    assert batch[..|batch|] == batch;
  }

  /** The first n elements of the list have been answered. */
  ghost predicate FilledUpTo(w: World, parsed: seq<Parsed>, responses: seq<Option<Res>>, elems: seq<Elem>, n: nat)
    requires |responses| == |parsed|
  {
    forall k: nat | k < |elems| && k < n :: Filled(w, parsed, responses, elems[k].index)
  }

  /** Answering the next slice extends the answered part of the list. */
  lemma SliceExtends(w: World, parsed: seq<Parsed>, g: GroupKey, before: seq<Option<Res>>, after: seq<Option<Res>>,
                     misses: seq<Elem>, start: nat, end: nat)
    requires |before| == |parsed| && IsBatch(parsed, g, misses) && start <= end <= |misses|
    requires FilledUpTo(w, parsed, before, misses, start) && OthersKeep(before, after, misses[start..end])
    requires forall k | 0 <= k < end - start :: Filled(w, parsed, after, misses[start..end][k].index)
    ensures FilledUpTo(w, parsed, after, misses, end)
  {
  }

  lemma OthersKeepMore(before: seq<Option<Res>>, middle: seq<Option<Res>>, after: seq<Option<Res>>, misses: seq<Elem>, start: nat, end: nat)
    requires start <= end <= |misses|
    requires OthersKeep(before, middle, misses) && OthersKeep(middle, after, misses[start..end])
    ensures OthersKeep(before, after, misses)
  {
  }

  /** No minibatch of this group ends the call. */
  ghost predicate GroupGoesThrough(w: World, parsed: seq<Parsed>, g: GroupKey) {
    forall elems | IsMinibatch(w, parsed, g, elems) :: Effect(w, g.backendGroup, elems).Done?
  }

  /** Some minibatch of this group ends the call with the given verdict. */
  ghost predicate EndedBy(w: World, parsed: seq<Parsed>, g: GroupKey, verdict: Verdict) {
    !verdict.Done? && exists elems :: IsMinibatch(w, parsed, g, elems) && Effect(w, g.backendGroup, elems) == verdict
  }

  /** Of all the minibatches, those not in the rest have gone through. */
  ghost predicate GoneThrough(w: World, group: string, all: seq<seq<Elem>>, rest: seq<seq<Elem>>) {
    && (forall elems | elems in rest :: elems in all)
    && (forall elems | elems in all :: elems in rest || Effect(w, group, elems).Done?)
  }

  lemma NextGoesThrough(w: World, group: string, all: seq<seq<Elem>>, first: seq<Elem>, rest: seq<seq<Elem>>)
    requires GoneThrough(w, group, all, [first] + rest)
    ensures first in all && (Effect(w, group, first).Done? ==> GoneThrough(w, group, all, rest))
  {
    assert first in [first] + rest;
    assert forall elems | elems in rest :: elems in [first] + rest;
  }

  /** What is left of the list from the start of a piece is that piece and the pieces after it. */
  lemma NextPiece(all: seq<Elem>, size: Size, start: nat)
    requires start < |all|
    ensures
      var end := Min(start + size, |all|);
      Cut(all[start..], size) == [all[start..end]] + Cut(all[end..], size)
  {
    var rest := all[start..];
    var end := Min(start + size, |all|);
    assert rest[..Min(size, |rest|)] == all[start..end];
    assert rest[Min(size, |rest|)..] == all[end..];
  }

  /** The misses of one group, sent in minibatches. */
  method ServeMisses(w: World, parsed: seq<Parsed>, g: GroupKey, misses: seq<Elem>, responses: array<Option<Res>>)
    returns (verdict: Verdict)
    requires responses.Length == |parsed|
    requires misses == Misses(w, Members(parsed, |parsed|, g)) && IsBatch(parsed, g, misses)
    modifies responses
    ensures if verdict.Done? then GroupGoesThrough(w, parsed, g) else EndedBy(w, parsed, g, verdict)
    ensures OthersKeep(old(responses[..]), responses[..], misses)
    ensures verdict.Done? ==> FilledUpTo(w, parsed, responses[..], misses, |misses|)
  {
    var numBatches := NumBatches(|misses|, w.maxUpstreamBatchSize);
    ghost var served := 0;
    assert misses[0..] == misses;
    for i := 0 to numBatches
      invariant served == Min(i * w.maxUpstreamBatchSize, |misses|)
      invariant OthersKeep(old(responses[..]), responses[..], misses)
      invariant FilledUpTo(w, parsed, responses[..], misses, served)
      invariant GoneThrough(w, g.backendGroup, Cut(misses, w.maxUpstreamBatchSize), Cut(misses[served..], w.maxUpstreamBatchSize))
    {
      MinibatchStarts(|misses|, w.maxUpstreamBatchSize, i);
      var start := i * w.maxUpstreamBatchSize;
      var end := Min(start + w.maxUpstreamBatchSize, |misses|);
      NextPiece(misses, w.maxUpstreamBatchSize, start);
      NextGoesThrough(w, g.backendGroup, Cut(misses, w.maxUpstreamBatchSize), misses[start..end], Cut(misses[end..], w.maxUpstreamBatchSize));
      verdict := ServePiece(w, parsed, g, misses, start, end, responses);
      if !verdict.Done? {
        return;
      }
      served := end;
    }
    MinibatchStarts(|misses|, w.maxUpstreamBatchSize, numBatches);
    verdict := Done;
  }

  /** One turn of that loop. */
  method ServePiece(w: World, parsed: seq<Parsed>, g: GroupKey, misses: seq<Elem>, start: nat, end: nat, responses: array<Option<Res>>)
    returns (verdict: Verdict)
    requires responses.Length == |parsed| && start <= end <= |misses|
    requires IsBatch(parsed, g, misses) && IsMinibatch(w, parsed, g, misses[start..end])
    modifies responses
    ensures verdict == Effect(w, g.backendGroup, misses[start..end])
    ensures forall before | OthersKeep(before, old(responses[..]), misses) :: OthersKeep(before, responses[..], misses)
    ensures verdict.Done? && old(FilledUpTo(w, parsed, responses[..], misses, start)) ==> FilledUpTo(w, parsed, responses[..], misses, end)
  {
    ghost var middle := responses[..];
    var puts;
    verdict, puts := ServeMinibatch(w, parsed, g, misses[start..end], responses);
    forall before | OthersKeep(before, middle, misses) ensures OthersKeep(before, responses[..], misses) {
      OthersKeepMore(before, middle, responses[..], misses, start, end);
    }
    if verdict.Done? && FilledUpTo(w, parsed, middle, misses, start) {
      SliceExtends(w, parsed, g, middle, responses[..], misses, start, end);
    }
  }

  method ServeGroup(w: World, parsed: seq<Parsed>, g: GroupKey, batch: seq<Elem>, responses: array<Option<Res>>)
    returns (verdict: Verdict)
    requires responses.Length == |parsed| && batch == Members(parsed, |parsed|, g)
    modifies responses
    ensures if verdict.Done? then GroupGoesThrough(w, parsed, g) else EndedBy(w, parsed, g, verdict)
    ensures OthersKeep(old(responses[..]), responses[..], batch)
    ensures verdict.Done? ==> forall k | 0 <= k < |batch| :: Filled(w, parsed, responses[..], batch[k].index)
  {
    MembersAreBatch(parsed, |parsed|, g);
    var misses := LookUp(w, parsed, g, batch, responses);
    ghost var before := responses[..];
    MissesAreBatch(w, parsed, g, batch);
    MissesAre(w, batch);
    verdict := ServeMisses(w, parsed, g, misses, responses);
    forall k | 0 <= k < |misses| ensures exists m :: 0 <= m < |batch| && batch[m] == misses[k] {
      assert misses[k] in batch;
    }
    if verdict.Done? {
      forall k | 0 <= k < |batch| ensures Filled(w, parsed, responses[..], batch[k].index) {
        if w.cached(batch[k].index).Some? {
          assert forall m | 0 <= m < |misses| :: misses[m] in misses;
          FilledStays(w, parsed, before, responses[..], misses, batch[k].index);
        } else {
          assert batch[k] in misses;
        }
      }
    }
  }

  /**
   handleBatchRPC.  It runs to its end exactly when no minibatch of the call ends it, and
   otherwise returns what some minibatch ended it with.  Run to its end, for any order in which the
   groups are visited, every position is filled; and with backends that answer each id of each
   minibatch once, position i holds the local or cached answer to request i or the answer of the
   one minibatch that request i was sent in.
   */
  method HandleBatchRPC(w: World, parsed: seq<Parsed>) returns (verdict: Verdict, responses: array<Option<Res>>)
    ensures verdict.Done? <==> forall g :: GroupGoesThrough(w, parsed, g)
    ensures !verdict.Done? ==> exists g :: EndedBy(w, parsed, g, verdict)
    ensures responses.Length == |parsed|
    ensures verdict.Done? ==> forall i | 0 <= i < |parsed| :: Filled(w, parsed, responses[..], i)
  {
    responses := new Option<Res>[|parsed|](_ => None);
    var batches := GroupRequests(parsed, responses);
    var rest := batches.Keys;
    forall i: nat | i < |parsed| && parsed[i].Routed? ensures KeyOf(parsed, i) in batches {
      MembersAre(parsed, |parsed|, KeyOf(parsed, i));
      assert Elem(parsed[i].req, i) in Members(parsed, |parsed|, KeyOf(parsed, i));
    }
    while rest != {}
      invariant rest <= batches.Keys
      invariant forall g | g in batches.Keys - rest :: GroupGoesThrough(w, parsed, g)
      invariant forall i: nat | i < |parsed| :: (parsed[i].Routed? && KeyOf(parsed, i) in rest) || Filled(w, parsed, responses[..], i)
    {
      var g :| g in rest;
      var batch := batches[g];
      ghost var before := responses[..];
      verdict := ServeGroup(w, parsed, g, batch, responses);
      if !verdict.Done? {
        EndedGroup(w, parsed, g, verdict);
        return;
      }
      rest := rest - {g};
      MembersAre(parsed, |parsed|, g);
      forall i: nat | i < |parsed| && !(parsed[i].Routed? && KeyOf(parsed, i) in rest)
        ensures Filled(w, parsed, responses[..], i)
      {
        if parsed[i].Routed? && KeyOf(parsed, i) == g {
          assert Elem(parsed[i].req, i) in batch;
        } else {
          assert forall k | 0 <= k < |batch| :: batch[k] in batch;
          FilledStays(w, parsed, before, responses[..], batch, i);
        }
      }
    }
    forall g ensures GroupGoesThrough(w, parsed, g) {
      assert g !in batches ==> Members(parsed, |parsed|, g) == [];
    }
    verdict := Done;
  }

  lemma EndedGroup(w: World, parsed: seq<Parsed>, g: GroupKey, verdict: Verdict)
    requires EndedBy(w, parsed, g, verdict)
    ensures !GroupGoesThrough(w, parsed, g)
  {
  }
}
