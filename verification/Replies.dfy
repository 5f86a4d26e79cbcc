/**
 Putting backend replies back in request order (backend.go): sorting a batch reply by request id,
 and taking locally answered requests out of a batch and their answers back in.
 */
module Replies {
  import opened Uint64
  import Rewriter

  datatype Req = Req(id: string, name: string, params: Rewriter.Params)

  datatype RpcError = BlockOutOfRange | RangeTooLarge | ParseErr | Upstream(message: string)

  datatype Body = Result(text: string) | Height(block: uint64) | Failure(error: RpcError)

  datatype Res = Res(id: string, body: Body)

  function ReqIds(reqs: seq<Req>): (ids: seq<string>)
    ensures |ids| == |reqs| && forall k | 0 <= k < |ids| :: ids[k] == reqs[k].id
  {
    seq(|reqs|, k requires 0 <= k < |reqs| => reqs[k].id)
  }

  function ResIds(res: seq<Res>): (ids: seq<string>)
    ensures |ids| == |res| && forall k | 0 <= k < |ids| :: ids[k] == res[k].id
  {
    seq(|res|, k requires 0 <= k < |res| => res[k].id)
  }

  predicate Distinct(ids: seq<string>) {
    forall i, j | 0 <= i < j < |ids| :: ids[i] != ids[j]
  }

  /** The backend answered every id of the batch exactly once, in any order. */
  predicate AnswersEachOnce(reqs: seq<Req>, res: seq<Res>) {
    multiset(ResIds(res)) == multiset(ReqIds(reqs))
  }

  predicate Aligned(reqs: seq<Req>, res: seq<Res>) {
    |res| == |reqs| && forall k | 0 <= k < |reqs| :: res[k].id == reqs[k].id
  }

  // ---------------------------------------------------------------- sorting

  /** The position a Go map of positions gives an id: zero when it has none. */
  function At(pos: map<string, nat>, id: string): nat {
    if id in pos then pos[id] else 0
  }

  predicate Sorted(pos: map<string, nat>, res: seq<Res>) {
    forall i, j | 0 <= i < j < |res| :: At(pos, res[i].id) <= At(pos, res[j].id)
  }

  /** Where r belongs in a sorted reply: after everything not behind it. */
  function Spot(pos: map<string, nat>, res: seq<Res>, r: Res): (k: nat)
    requires Sorted(pos, res)
    ensures k <= |res|
    ensures forall i | 0 <= i < k :: At(pos, res[i].id) <= At(pos, r.id)
    ensures forall i | k <= i < |res| :: At(pos, r.id) < At(pos, res[i].id)
  {
    if res == [] || At(pos, res[|res| - 1].id) <= At(pos, r.id) then |res| else Spot(pos, res[..|res| - 1], r)
  }

  function Put(res: seq<Res>, k: nat, r: Res): (out: seq<Res>)
    requires k <= |res|
    ensures |out| == |res| + 1
  {
    res[..k] + [r] + res[k..]
  }

  lemma PutAdds(res: seq<Res>, k: nat, r: Res)
    requires k <= |res|
    ensures multiset(Put(res, k, r)) == multiset(res) + multiset{r}
    ensures multiset(ResIds(Put(res, k, r))) == multiset(ResIds(res)) + multiset{r.id}
  {
    var ids := ResIds(res);
    assert res == res[..k] + res[k..];
    assert ids == ids[..k] + ids[k..];
    assert ResIds(Put(res, k, r)) == ids[..k] + [r.id] + ids[k..];
  }

  lemma IdsOfAppend(res: seq<Res>, r: Res)
    ensures ResIds(res + [r]) == ResIds(res) + [r.id]
  {
  }

  /** An insertion sort; stands for the library's sort.Slice, which promises no more than the order. */
  function Sort(pos: map<string, nat>, res: seq<Res>): (out: seq<Res>)
    ensures Sorted(pos, out)
  {
    if res == [] then []
    else
      var init, last := Sort(pos, res[..|res| - 1]), res[|res| - 1];
      Put(init, Spot(pos, init, last), last)
  }

  lemma {:induction false} SortPermutes(pos: map<string, nat>, res: seq<Res>)
    ensures multiset(Sort(pos, res)) == multiset(res)
    ensures multiset(ResIds(Sort(pos, res))) == multiset(ResIds(res))
  {
    if res == [] {
    } else {
      var init, last := res[..|res| - 1], res[|res| - 1];
      SortPermutes(pos, init);
      var sorted := Sort(pos, init);
      PutAdds(sorted, Spot(pos, sorted, last), last);
      IdsOfAppend(init, last);
      assert res == init + [last];
    }
  }

  lemma WithoutFirst(a: seq<string>)
    requires a != []
    ensures multiset(a[1..]) == multiset(a) - multiset{a[0]}
  {
    assert a == [a[0]] + a[1..];
  }

  predicate OrderedByPosition(pos: map<string, nat>, a: seq<string>) {
    forall i, j | 0 <= i < j < |a| :: At(pos, a[i]) <= At(pos, a[j])
  }

  predicate PositionsFrom(pos: map<string, nat>, shift: nat, ids: seq<string>) {
    forall k | 0 <= k < |ids| :: ids[k] in pos && pos[ids[k]] == shift + k
  }

  lemma FirstIsFirst(pos: map<string, nat>, shift: nat, ids: seq<string>, a: seq<string>)
    requires multiset(a) == multiset(ids) && ids != []
    requires PositionsFrom(pos, shift, ids) && OrderedByPosition(pos, a)
    ensures a != [] && a[0] == ids[0]
  {
    assert ids[0] in multiset(a);
    var k :| 0 <= k < |a| && a[k] == ids[0];
    assert a[0] in multiset(ids);
    var m :| 0 <= m < |ids| && ids[m] == a[0];
    assert At(pos, a[0]) <= At(pos, a[k]);
  }

  /** A rearrangement of ids that is ordered by their positions is ids. */
  lemma {:induction false} OrderedByPositionIsEqual(pos: map<string, nat>, shift: nat, ids: seq<string>, a: seq<string>)
    requires multiset(a) == multiset(ids)
    requires PositionsFrom(pos, shift, ids) && OrderedByPosition(pos, a)
    ensures a == ids
    decreases ids
  {
    if ids == [] {
      assert |a| == |multiset(a)|;
    } else {
      FirstIsFirst(pos, shift, ids, a);
      WithoutFirst(a);
      WithoutFirst(ids);
      OrderedByPositionIsEqual(pos, shift + 1, ids[1..], a[1..]);
      assert a == [a[0]] + a[1..] && ids == [ids[0]] + ids[1..];
    }
  }

  /**
   sortBatchRPCResponse.  The source panics on a duplicate request id, which the precondition
   rules out; of a backend that answered each id once the result is in request order.
   */
  method SortBatchRPCResponse(reqs: seq<Req>, res: seq<Res>) returns (sorted: seq<Res>)
    requires Distinct(ReqIds(reqs))
    ensures multiset(sorted) == multiset(res)
    ensures AnswersEachOnce(reqs, res) ==> Aligned(reqs, sorted)
  {
    var pos: map<string, nat> := map[];
    for i := 0 to |reqs|
      invariant forall k | 0 <= k < i :: reqs[k].id in pos && pos[reqs[k].id] == k
      invariant forall id | id in pos :: exists k :: 0 <= k < i && reqs[k].id == id
    {
      assert forall k | 0 <= k < i :: ReqIds(reqs)[k] != ReqIds(reqs)[i];
      assert reqs[i].id !in pos;
      pos := pos[reqs[i].id := i];
    }
    sorted := Sort(pos, res);
    SortPermutes(pos, res);
    if AnswersEachOnce(reqs, res) {
      OrderedByPositionIsEqual(pos, 0, ReqIds(reqs), ResIds(sorted));
    }
  }

  // ---------------------------------------------------------------- splitting and merging

  /** What becomes of a request before forwarding: answered by the proxy, or sent on. */
  datatype Decision = AnswerLocally(res: Res) | PassOn(req: Req)

  datatype Indexed = Indexed(index: nat, res: Res)

  /** The local answers, with their positions. */
  function Locals(ds: seq<Decision>): seq<Indexed> {
    if ds == [] then []
    else
      var init, last := Locals(ds[..|ds| - 1]), ds[|ds| - 1];
      if last.AnswerLocally? then init + [Indexed(|ds| - 1, last.res)] else init
  }

  /** The requests sent on, in order. */
  function Passed(ds: seq<Decision>): seq<Req> {
    if ds == [] then []
    else
      var init, last := Passed(ds[..|ds| - 1]), ds[|ds| - 1];
      if last.PassOn? then init + [last.req] else init
  }

  /** The answer to request i at position i: local answers where there are some, and the given answers, in order, elsewhere. */
  function Weave(ds: seq<Decision>, answers: seq<Res>): (r: seq<Res>)
    requires |answers| == |Passed(ds)|
    ensures |r| == |ds|
  {
    if ds == [] then []
    else
      var init, last := ds[..|ds| - 1], ds[|ds| - 1];
      if last.AnswerLocally? then Weave(init, answers) + [last.res]
      else Weave(init, answers[..|answers| - 1]) + [answers[|answers| - 1]]
  }

  /** Every insertion position lies inside the list as it has grown by then. */
  predicate InBounds(ovs: seq<Indexed>, n: nat) {
    forall k | 0 <= k < |ovs| :: ovs[k].index <= n + k
  }

  function InsertAll(res: seq<Res>, ovs: seq<Indexed>): (out: seq<Res>)
    requires InBounds(ovs, |res|)
    ensures |out| == |res| + |ovs|
  {
    if ovs == [] then res
    else
      var init, ov := InsertAll(res, ovs[..|ovs| - 1]), ovs[|ovs| - 1];
      init[..ov.index] + [ov.res] + init[ov.index..]
  }

  lemma {:induction false} LocalsInBounds(ds: seq<Decision>)
    ensures InBounds(Locals(ds), |Passed(ds)|)
    ensures |Locals(ds)| + |Passed(ds)| == |ds|
  {
    if ds == [] {
    } else {
      LocalsInBounds(ds[..|ds| - 1]);
    }
  }

  lemma {:induction false} InsertAllAppends(res: seq<Res>, r: Res, ovs: seq<Indexed>)
    requires InBounds(ovs, |res|)
    ensures InsertAll(res + [r], ovs) == InsertAll(res, ovs) + [r]
  {
    if ovs == [] {
    } else {
      InsertAllAppends(res, r, ovs[..|ovs| - 1]);
    }
  }

  /** A local answer at the end is appended by its insertion. */
  lemma LastInsertionAppends(res: seq<Res>, ovs: seq<Indexed>, ov: Indexed)
    requires InBounds(ovs, |res|) && ov.index == |res| + |ovs|
    ensures InBounds(ovs + [ov], |res|) && InsertAll(res, ovs + [ov]) == InsertAll(res, ovs) + [ov.res]
  {
  }

  /** Splitting and merging are inverse, also when every request, or none, was answered locally. */
  lemma {:induction false} MergeUndoesSplit(ds: seq<Decision>, answers: seq<Res>)
    requires |answers| == |Passed(ds)|
    ensures InBounds(Locals(ds), |answers|)
    ensures InsertAll(answers, Locals(ds)) == Weave(ds, answers)
  {
    LocalsInBounds(ds);
    if ds == [] {
    } else {
      var init, last := ds[..|ds| - 1], ds[|ds| - 1];
      LocalsInBounds(init);
      if last.AnswerLocally? {
        MergeUndoesSplit(init, answers);
        LastInsertionAppends(answers, Locals(init), Indexed(|ds| - 1, last.res));
      } else {
        var n := |answers| - 1;
        MergeUndoesSplit(init, answers[..n]);
        InsertAllAppends(answers[..n], answers[n], Locals(init));
        assert answers == answers[..n] + [answers[n]];
      }
    }
  }

  /** OverrideResponses: insert in index order, or append while the list is still empty. */
  method OverrideResponses(answers: seq<Res>, ovs: seq<Indexed>) returns (res: seq<Res>)
    requires InBounds(ovs, |answers|)
    ensures res == InsertAll(answers, ovs)
  {
    res := answers;
    for i := 0 to |ovs|
      invariant res == InsertAll(answers, ovs[..i])
    {
      if |res| > 0 {
        res := res[..ovs[i].index] + [ovs[i].res] + res[ovs[i].index..];
      } else {
        res := res + [ovs[i].res];
      }
      assert ovs[..i + 1][..i] == ovs[..i];
    }
    assert ovs[..|ovs|] == ovs;
  }

  /** What position k of the woven list holds. */
  lemma {:induction false} WeaveAt(ds: seq<Decision>, answers: seq<Res>, k: nat)
    requires k < |ds| && |answers| == |Passed(ds)|
    ensures ds[k].AnswerLocally? ==> Weave(ds, answers)[k] == ds[k].res
    ensures ds[k].PassOn? ==>
      exists j :: 0 <= j < |answers| && Passed(ds)[j] == ds[k].req && Weave(ds, answers)[k] == answers[j]
  {
    var init, last := ds[..|ds| - 1], ds[|ds| - 1];
    if k == |ds| - 1 {
      if last.PassOn? {
        assert Passed(ds)[|answers| - 1] == last.req;
      }
    } else {
      var rest := if last.AnswerLocally? then answers else answers[..|answers| - 1];
      WeaveAt(init, rest, k);
      assert Weave(ds, answers)[k] == Weave(init, rest)[k];
      if ds[k].PassOn? {
        var j :| 0 <= j < |rest| && Passed(init)[j] == ds[k].req && Weave(init, rest)[k] == rest[j];
        assert Passed(ds)[j] == ds[k].req && answers[j] == rest[j];
      }
    }
  }
}
