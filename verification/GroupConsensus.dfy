/**
 How UpdateBackendGroupConsensus (consensus_poller.go) gets from candidate states to one
 published block: a scan for the lowest heights that uses zero for "unset", then a walk back,
 one block a round, until every candidate that answers agrees.
 */
module GroupConsensus {
  import opened Uint64
  import opened BackendStates

  // ---------------------------------------------------------------- the scan

  datatype Lowest = Lowest(latest: uint64, hash: string, safe: uint64, finalized: uint64)

  const UNSET := Lowest(0, "", 0, 0)

  function ScanStep(l: Lowest, bs: BackendState): Lowest {
    var low := l.latest == 0 || bs.latest < l.latest;
    Lowest(
      if low then bs.latest else l.latest,
      if low then bs.hash else l.hash,
      if l.safe == 0 || bs.safe < l.safe then bs.safe else l.safe,
      if l.finalized == 0 || bs.finalized < l.finalized then bs.finalized else l.finalized)
  }

  /** The scan's result when the candidate map is iterated in the given order. */
  function Scan(c: States, order: seq<Backend>): Lowest
    requires forall be | be in order :: be in c
  {
    if order == [] then UNSET
    else ScanStep(Scan(c, order[..|order| - 1]), c[order[|order| - 1]])
  }

  /** order lists the members of s, each once. */
  ghost predicate IsOrder(s: set<Backend>, order: seq<Backend>) {
    && (forall be :: be in order <==> be in s)
    && (forall i, j | 0 <= i < j < |order| :: order[i] != order[j])
  }

  /** The three heights the scan takes the minimum of, each on its own. */
  datatype Height = Latest | Safe | Finalized

  function HeightOf(bs: BackendState, h: Height): uint64 {
    match h
    case Latest => bs.latest
    case Safe => bs.safe
    case Finalized => bs.finalized
  }

  function LowestOf(l: Lowest, h: Height): uint64 {
    match h
    case Latest => l.latest
    case Safe => l.safe
    case Finalized => l.finalized
  }

  /** n is the least height in c, and some candidate is at it; zero when c is empty. */
  ghost predicate IsLowest(c: States, h: Height, n: uint64) {
    if |c| == 0 then n == 0
    else (forall be | be in c :: n <= HeightOf(c[be], h)) && exists be :: be in c && HeightOf(c[be], h) == n
  }

  predicate NoZero(c: States, h: Height) {
    forall be | be in c :: HeightOf(c[be], h) != 0
  }

  predicate AllZero(c: States, h: Height) {
    forall be | be in c :: HeightOf(c[be], h) == 0
  }

  /** Without zero heights every prefix of every order holds its true minimum, and the hash is that of a backend at the lowest latest. */
  lemma {:induction false} ScanPrefixMinimum(c: States, order: seq<Backend>, h: Height)
    requires forall be | be in order :: be in c
    requires NoZero(c, h)
    ensures
      var l := Scan(c, order);
      && (forall be | be in order :: LowestOf(l, h) <= HeightOf(c[be], h))
      && if order == [] then l == UNSET
         else exists be :: be in order && HeightOf(c[be], h) == LowestOf(l, h) && (h.Latest? ==> c[be].hash == l.hash)
  {
    if order == [] {
    } else {
      var init, last := order[..|order| - 1], order[|order| - 1];
      ScanPrefixMinimum(c, init, h);
      assert order == init + [last];
      assert last in order;
      var l := Scan(c, init);
      if init != [] && HeightOf(c[last], h) >= LowestOf(l, h) {
        var be :| be in init && HeightOf(c[be], h) == LowestOf(l, h) && (h.Latest? ==> c[be].hash == l.hash);
        assert be in order;
      }
    }
  }

  lemma {:induction false} ScanAllZero(c: States, order: seq<Backend>, h: Height)
    requires forall be | be in order :: be in c
    requires AllZero(c, h)
    ensures LowestOf(Scan(c, order), h) == 0
  {
    if order == [] {
    } else {
      assert order[|order| - 1] in order;
    }
  }

  lemma {:induction false} OrderExists(s: set<Backend>) returns (order: seq<Backend>)
    ensures IsOrder(s, order)
    decreases |s|
  {
    if s == {} {
      order := [];
    } else {
      var be :| be in s;
      var rest := OrderExists(s - {be});
      order := rest + [be];
    }
  }

  /** The scan yields the true minimum of this height for the given order. */
  ghost predicate TrueMinimum(c: States, h: Height, order: seq<Backend>) {
    IsOrder(c.Keys, order) ==> IsLowest(c, h, LowestOf(Scan(c, order), h))
  }

  /**
   Using zero for "unset" is harmless exactly when zero heights do not mix with real ones: for
   each of latest, safe and finalized the scan gives the true minimum for every iteration order
   if and only if no candidate, or every candidate, has that height at zero.
   */
  lemma {:induction false} ScanIsMinimumIff(c: States, h: Height)
    ensures (forall order :: TrueMinimum(c, h, order)) <==> NoZero(c, h) || AllZero(c, h)
  {
    if NoZero(c, h) || AllZero(c, h) {
      forall order ensures TrueMinimum(c, h, order) {
        if IsOrder(c.Keys, order) {
          UnmixedScanIsMinimum(c, h, order);
        }
      }
    } else {
      var zero :| zero in c && HeightOf(c[zero], h) == 0;
      var known :| known in c && HeightOf(c[known], h) != 0;
      var order := ZeroThenReal(c, h, zero, known);
      assert !TrueMinimum(c, h, order);
    }
  }

  /** An order that visits a zero height and then, last, a real one, and so ends at the real one. */
  lemma ZeroThenReal(c: States, h: Height, zero: Backend, known: Backend) returns (order: seq<Backend>)
    requires zero in c && HeightOf(c[zero], h) == 0 && known in c && HeightOf(c[known], h) != 0
    ensures IsOrder(c.Keys, order) && LowestOf(Scan(c, order), h) == HeightOf(c[known], h)
  {
    var others := OrderExists(c.Keys - {zero, known});
    order := others + [zero] + [known];
    assert order[..|order| - 1] == others + [zero];
    assert (others + [zero])[..|others|] == others;
    assert forall be | be in others :: be in c;
    assert LowestOf(Scan(c, others + [zero]), h) == 0;
  }

  /** A mixed case: the same two candidates scanned in two orders. */
  lemma MixedScanDependsOnOrder()
    ensures
      var a, b := Backend("a", true, true), Backend("b", true, true);
      var c := map[a := FRESH_STATE, b := FRESH_STATE.(latest := 5, safe := 5, finalized := 5)];
      && IsOrder(c.Keys, [a, b]) && Scan(c, [a, b]).latest == 5
      && IsOrder(c.Keys, [b, a]) && Scan(c, [b, a]).latest == 0
  {
  }

  lemma {:induction false} UnmixedScanIsMinimum(c: States, h: Height, order: seq<Backend>)
    requires NoZero(c, h) || AllZero(c, h)
    requires IsOrder(c.Keys, order)
    ensures IsLowest(c, h, LowestOf(Scan(c, order), h))
  {
    if order == [] {
      assert c.Keys == {};
    } else {
      assert order[0] in c;
      if NoZero(c, h) {
        ScanPrefixMinimum(c, order, h);
      } else {
        ScanAllZero(c, order, h);
      }
    }
  }

  /**
   For every iteration order, and although zero stands for "unset", candidates with sound and
   ordered tags give finalized <= safe <= latest, all three set or none.
   */
  lemma {:induction false} ScanIsOrdered(c: States, order: seq<Backend>)
    requires forall be | be in order :: be in c
    requires forall be | be in c :: TagsSound(be, c[be]) && !be.forcedCandidate
    ensures
      var l := Scan(c, order);
      && l.finalized <= l.safe <= l.latest
      && (l.latest == 0 <==> l.safe == 0) && (l.safe == 0 <==> l.finalized == 0)
  {
    if order == [] {
    } else {
      ScanIsOrdered(c, order[..|order| - 1]);
      var last := order[|order| - 1];
      assert last in order && TagsSound(last, c[last]);
    }
  }

  // ---------------------------------------------------------------- the walk back

  /** What eth_getBlockByNumber gave: an error, or a number and a hash. */
  datatype Fetch = FetchError | Fetched(number: uint64, hash: string)

  /**
   The answers of one call of UpdateBackendGroupConsensus.  A round asks every backend at most
   once and no two rounds ask for the same block, so keying by block and backend admits any
   mixture of errors and changing views over the rounds.
   */
  type Answers = (uint64, Backend) -> Fetch

  /** One answer fits block n: the right number and, if a hash is expected, that hash. */
  predicate Fits(f: Fetch, n: uint64, expected: string) {
    f.Fetched? ==> f.number == n && (expected != "" ==> f.hash == expected)
  }

  /** Two answers do not contradict each other's hash. */
  predicate Compatible(f: Fetch, f': Fetch) {
    f.Fetched? && f'.Fetched? && f.hash != "" && f'.hash != "" ==> f.hash == f'.hash
  }

  /** Every candidate that answered for block n gave that number and one common hash: the expected one, if there is one. */
  ghost predicate RoundAgrees(s: set<Backend>, env: Answers, n: uint64, expected: string) {
    && (forall be | be in s :: Fits(env(n, be), n, expected))
    && (forall b1, b2 | b1 in s && b2 in s :: Compatible(env(n, b1), env(n, b2)))
  }

  /** Hashes that backends return are not empty strings. */
  predicate HashesGiven(s: set<Backend>, env: Answers, n: uint64) {
    forall be | be in s :: env(n, be).Fetched? ==> env(n, be).hash != ""
  }

  /** Backends that answer do so with the block number they were asked for. */
  predicate NumbersAsAsked(s: set<Backend>, env: Answers, n: uint64) {
    forall be | be in s :: env(n, be).Fetched? ==> env(n, be).number == n
  }

  /** The hash demanded of block n: the recorded one in the first round, none afterwards. */
  function ExpectedHash(l: Lowest, n: uint64): string {
    if n == l.latest then l.hash else ""
  }

  ghost predicate AgreesAt(s: set<Backend>, env: Answers, l: Lowest, n: uint64) {
    RoundAgrees(s, env, n, ExpectedHash(l, n))
  }

  /**
   How a walk from l.latest ended: at a block at or below its start; at a block above it, after
   taking one from block zero, which wraps to 2^64 - 1; or back where it began, without agreement
   on any block at all.
   */
  datatype Walk = Agreed(block: uint64) | Wrapped(block: uint64) | WholeLap

  /** The walk from l.latest passes block n before it comes to block p. */
  predicate PassedBefore(l: Lowest, p: uint64, n: uint64) {
    if p <= l.latest then p < n <= l.latest else n <= l.latest || p < n
  }

  predicate Passed(l: Lowest, w: Walk, n: uint64) {
    w.WholeLap? || PassedBefore(l, w.block, n)
  }

  /**
   The walk ends at a block that agrees, and no block it passed agrees; of a passed block for
   which a backend gave an empty hash nothing is said.
   */
  ghost predicate IsWalk(s: set<Backend>, env: Answers, l: Lowest, w: Walk) {
    && (w.Agreed? ==> w.block <= l.latest)
    && (w.Wrapped? ==> w.block > l.latest)
    && (!w.WholeLap? ==> AgreesAt(s, env, l, w.block))
    && forall n: uint64 | Passed(l, w, n) && HashesGiven(s, env, n) :: !AgreesAt(s, env, l, n)
  }

  lemma WalkIsUnique(s: set<Backend>, env: Answers, l: Lowest, w: Walk, w': Walk)
    requires forall n :: HashesGiven(s, env, n)
    requires IsWalk(s, env, l, w) && IsWalk(s, env, l, w')
    ensures w == w'
  {
    assert !w.WholeLap? ==> !Passed(l, w', w.block);
    assert !w'.WholeLap? ==> !Passed(l, w, w'.block);
  }

  // ---------------------------------------------------------------- chains

  /** Each candidate's chain: the hash of every block number. */
  type Chains = (Backend, uint64) -> string

  ghost predicate Share(s: set<Backend>, chain: Chains, n: uint64) {
    forall b1, b2 | b1 in s && b2 in s :: chain(b1, n) == chain(b2, n)
  }

  /** A block determines its ancestors: chains that agree at a block agree below it. */
  ghost predicate AreChains(s: set<Backend>, chain: Chains) {
    forall n, m: uint64 | m <= n && Share(s, chain, n) :: Share(s, chain, m)
  }

  /**
   Every candidate answers from its chain, up to its recorded latest block, whose recorded hash is
   the chain's; beyond that it fails, or answers with some block of the number asked for.
   */
  ghost predicate AnswersFromChains(c: States, env: Answers, chain: Chains) {
    && (forall be, n: uint64 | be in c && n <= c[be].latest :: env(n, be) == Fetched(n, chain(be, n)))
    && (forall be | be in c :: c[be].hash == chain(be, c[be].latest))
    && (forall be, n | be in c :: chain(be, n) != "")
    && (forall n :: HashesGiven(c.Keys, env, n) && NumbersAsAsked(c.Keys, env, n))
  }

  lemma AgreesIffShared(c: States, env: Answers, chain: Chains, l: Lowest, low: Backend, n: uint64)
    requires AnswersFromChains(c, env, chain)
    requires low in c && c[low].latest == l.latest && c[low].hash == l.hash
    requires forall be | be in c :: n <= c[be].latest
    ensures AgreesAt(c.Keys, env, l, n) <==> Share(c.Keys, chain, n)
  {
    assert forall be | be in c :: env(n, be) == Fetched(n, chain(be, n));
    if AgreesAt(c.Keys, env, l, n) {
      forall b1, b2 | b1 in c.Keys && b2 in c.Keys ensures chain(b1, n) == chain(b2, n) {
        assert Compatible(env(n, b1), env(n, b2));
      }
    }
  }

  /** Some candidate sits at the scanned minimum, with the scanned hash. */
  lemma LowestBackend(c: States, order: seq<Backend>) returns (low: Backend)
    requires IsOrder(c.Keys, order) && NoZero(c, Latest) && |c| > 0
    ensures low in c && c[low].latest == Scan(c, order).latest && c[low].hash == Scan(c, order).hash
    ensures forall be | be in c :: Scan(c, order).latest <= c[be].latest
  {
    NonEmptyOrder(c, order);
    ScanPrefixMinimum(c, order, Latest);
    low :| low in order && HeightOf(c[low], Latest) == Scan(c, order).latest && c[low].hash == Scan(c, order).hash;
    assert forall be | be in c :: Scan(c, order).latest <= HeightOf(c[be], Latest);
  }

  lemma NonEmptyOrder(c: States, order: seq<Backend>)
    requires IsOrder(c.Keys, order) && |c| > 0
    ensures order != []
  {
  }

  /**
   The walk finds the highest common ancestor.  For every order in which the candidate map is
   scanned, it stays at or above block zero if and only if the candidates share their genesis
   block; and then the agreed block is not above any candidate's latest block, all candidates
   have the same hash there, and they do not at any higher block that all of them have.
   */
  lemma WalkFindsHighestCommonAncestor(c: States, env: Answers, chain: Chains, order: seq<Backend>, w: Walk)
    requires IsOrder(c.Keys, order) && NoZero(c, Latest) && |c| > 0
    requires AreChains(c.Keys, chain) && AnswersFromChains(c, env, chain)
    requires IsWalk(c.Keys, env, Scan(c, order), w)
    ensures w.Agreed? <==> Share(c.Keys, chain, 0)
    ensures w.Agreed? ==> Share(c.Keys, chain, w.block) && forall be | be in c :: w.block <= c[be].latest
    ensures w.Agreed? ==>
      forall n: uint64 | w.block < n && (forall be | be in c :: n <= c[be].latest) :: !Share(c.Keys, chain, n)
  {
    var l := Scan(c, order);
    var low := LowestBackend(c, order);
    forall n: uint64 | n <= l.latest
      ensures AgreesAt(c.Keys, env, l, n) <==> Share(c.Keys, chain, n)
    {
      AgreesIffShared(c, env, chain, l, low, n);
    }
    if w.Agreed? {
      forall n: uint64 | w.block < n && (forall be | be in c :: n <= c[be].latest)
        ensures !Share(c.Keys, chain, n)
      {
        assert n <= c[low].latest;
        assert Passed(l, w, n);
      }
    } else {
      assert Passed(l, w, 0);
    }
  }

  /**
   Without a common genesis block the walk wraps; and if no candidate answers for block 2^64 - 1,
   as none that has fewer blocks can, it stops there, since a round nobody answers agrees.
   */
  lemma WithoutCommonGenesisTheWalkWraps(c: States, env: Answers, chain: Chains, order: seq<Backend>, w: Walk)
    requires IsOrder(c.Keys, order) && NoZero(c, Latest) && |c| > 0
    requires AreChains(c.Keys, chain) && AnswersFromChains(c, env, chain) && !Share(c.Keys, chain, 0)
    requires IsWalk(c.Keys, env, Scan(c, order), w)
    requires forall be | be in c :: env(TWO_64 - 1, be).FetchError?
    ensures w == Wrapped(TWO_64 - 1)
  {
    var l := Scan(c, order);
    var low := LowestBackend(c, order);
    assert env(c[low].latest, low).Fetched?;
    WalkFindsHighestCommonAncestor(c, env, chain, order, w);
    assert AgreesAt(c.Keys, env, l, TWO_64 - 1);
  }

  /**
   The published triple.  After a walk that stays above genesis finalized <= safe <= latest holds
   if and only if it held of the lowest heights and the candidates share the lowest safe block.
   */
  lemma PublishedTagsOrderedIff(c: States, env: Answers, chain: Chains, order: seq<Backend>, w: Walk)
    requires IsOrder(c.Keys, order) && NoZero(c, Latest) && |c| > 0
    requires AreChains(c.Keys, chain) && AnswersFromChains(c, env, chain)
    requires IsWalk(c.Keys, env, Scan(c, order), w) && w.Agreed?
    ensures
      var l := Scan(c, order);
      l.finalized <= l.safe <= w.block <==> l.finalized <= l.safe <= l.latest && Share(c.Keys, chain, l.safe)
  {
    var l := Scan(c, order);
    WalkFindsHighestCommonAncestor(c, env, chain, order, w);
    var low := LowestBackend(c, order);
  }

  // ---------------------------------------------------------------- the consensus-broken event

  /** Some round before the last, at or below the previous consensus block, found a mismatch. */
  ghost predicate BrokenBy(l: Lowest, w: Walk, current: uint64) {
    exists n: uint64 :: n <= current && Passed(l, w, n)
  }

  /**
   The event is exact.  When backends answer with the number asked for, the listeners fire if and
   only if the new block is below both the previous consensus block and the lowest latest block,
   or the walk wrapped; so they fire exactly on a regression whenever the lowest latest has not
   itself regressed.
   */
  lemma BrokenIff(l: Lowest, w: Walk, current: uint64)
    requires w.Agreed? ==> w.block <= l.latest
    requires w.Wrapped? ==> w.block > l.latest
    ensures BrokenBy(l, w, current) <==> (w.Agreed? ==> w.block < current && w.block < l.latest)
  {
    if w.Agreed? && w.block < current && w.block < l.latest {
      assert Passed(l, w, w.block + 1);
    } else if !w.Agreed? {
      assert Passed(l, w, 0);
    }
  }

  function Min(a: uint64, b: uint64): uint64 {
    if a <= b then a else b
  }

  /**
   The same in terms of the chains alone: the listeners fire if and only if the candidates do not
   share the previous consensus block or, if that is higher than they all reach, their lowest latest.
   */
  lemma BrokenIffNotShared(c: States, env: Answers, chain: Chains, order: seq<Backend>, w: Walk, current: uint64)
    requires IsOrder(c.Keys, order) && NoZero(c, Latest) && |c| > 0
    requires AreChains(c.Keys, chain) && AnswersFromChains(c, env, chain)
    requires IsWalk(c.Keys, env, Scan(c, order), w)
    ensures BrokenBy(Scan(c, order), w, current) <==> !Share(c.Keys, chain, Min(current, Scan(c, order).latest))
  {
    var l := Scan(c, order);
    var low := LowestBackend(c, order);
    WalkFindsHighestCommonAncestor(c, env, chain, order, w);
    BrokenIff(l, w, current);
  }

  // ---------------------------------------------------------------- where the promises end

  /** Two candidates, and the order in which they are scanned. */
  const LEFT := Backend("left", false, true)
  const RIGHT := Backend("right", false, true)
  const BOTH := [LEFT, RIGHT]


  /** Chains with the blocks below `fork` in common, and none from there on. */
  function ForkedFrom(fork: nat): Chains {
    (be: Backend, n: uint64) => if n < fork then "common" else be.name
  }

  /** The two candidates at the same heights, on these chains. */
  function Pair(chain: Chains): States {
    map be | be in {LEFT, RIGHT} :: FRESH_STATE.(latest := 5, hash := chain(be, 5), safe := 4, finalized := 3, inSync := true)
  }

  /** Answers from those chains up to block 5, and failures beyond. */
  function PairAnswers(chain: Chains): Answers {
    (n: uint64, be: Backend) => if n <= 5 then Fetched(n, chain(be, n)) else FetchError
  }

  lemma PairIsChainBacked(fork: nat)
    ensures
      var chain := ForkedFrom(fork);
      var c := Pair(chain);
      && IsOrder(c.Keys, BOTH) && NoZero(c, Latest) && |c| > 0
      && Scan(c, BOTH).latest == 5 && Scan(c, BOTH).safe == 4
      && AreChains(c.Keys, chain) && AnswersFromChains(c, PairAnswers(chain), chain)
      && forall n: uint64 :: Share(c.Keys, chain, n) <==> n < fork
  {
    var chain := ForkedFrom(fork);
    var c := Pair(chain);
    assert LEFT in c && RIGHT in c;
    assert BOTH[..1] == [LEFT] && [LEFT][..0] == [];
    assert Scan(c, [LEFT]) == ScanStep(UNSET, c[LEFT]);
    assert Scan(c, BOTH) == ScanStep(Scan(c, [LEFT]), c[RIGHT]);
    forall n: uint64 ensures Share(c.Keys, chain, n) <==> n < fork {
      assert LEFT.name[0] != RIGHT.name[0];
      assert n >= fork ==> chain(LEFT, n) != chain(RIGHT, n);
    }
  }

  /** A walk over the two candidates whose chains fork there. */
  ghost predicate IsPairWalk(fork: nat, w: Walk) {
    var chain := ForkedFrom(fork);
    IsWalk(Pair(chain).Keys, PairAnswers(chain), Scan(Pair(chain), BOTH), w)
  }

  /** That walk is determined: it is w as soon as w ends at an agreed block and passes none. */
  lemma PairWalkIs(fork: nat, w: Walk, w': Walk)
    requires IsPairWalk(fork, w)
    ensures IsPairWalk(fork, w') <==> w' == w
  {
    PairIsChainBacked(fork);
    if IsPairWalk(fork, w') {
      var chain := ForkedFrom(fork);
      WalkIsUnique(Pair(chain).Keys, PairAnswers(chain), Scan(Pair(chain), BOTH), w, w');
    }
  }

  lemma PairAgreesIff(fork: nat, n: uint64)
    ensures
      var chain := ForkedFrom(fork);
      AgreesAt(Pair(chain).Keys, PairAnswers(chain), Scan(Pair(chain), BOTH), n) <==> n < fork || n > 5
  {
    PairIsChainBacked(fork);
    var chain := ForkedFrom(fork);
    var c := Pair(chain);
    if n <= 5 {
      var low := LowestBackend(c, BOTH);
      AgreesIffShared(c, PairAnswers(chain), chain, Scan(c, BOTH), low, n);
    }
  }

  /** A fork below the lowest safe block: the published safe block, 4, is above the published latest, 2. */
  lemma ForkBelowSafe(w: Walk)
    ensures IsPairWalk(3, w) <==> w == Agreed(2)
    ensures Scan(Pair(ForkedFrom(3)), BOTH).safe == 4
  {
    PairIsChainBacked(3);
    forall n: uint64 { PairAgreesIff(3, n); }
    PairWalkIs(3, Agreed(2), w);
  }

  /** Candidates that fell back together, from block 9 to a block 5 they share: the published block is lower and nothing fires. */
  lemma QuietRegression(w: Walk)
    ensures IsPairWalk(6, w) <==> w == Agreed(5)
    ensures !BrokenBy(Scan(Pair(ForkedFrom(6)), BOTH), Agreed(5), 9)
  {
    PairIsChainBacked(6);
    forall n: uint64 { PairAgreesIff(6, n); }
    PairWalkIs(6, Agreed(5), w);
  }

  /** Different genesis blocks: the published block is 2^64 - 1. */
  lemma DifferentGenesis(w: Walk)
    ensures IsPairWalk(0, w) <==> w == Wrapped(TWO_64 - 1)
  {
    PairIsChainBacked(0);
    forall n: uint64 { PairAgreesIff(0, n); }
    PairWalkIs(0, Wrapped(TWO_64 - 1), w);
  }
}
