/**
 The poller as the source runs it: fields updated in place, maps iterated in an arbitrary order
 (`:|` from the keys not yet visited), loops that scan, walk back and delete.  Every method is
 proved against BackendStates, Candidates and GroupConsensus.
 */
module ConsensusPoller {
  import opened Uint64
  import opened Durations
  import opened BackendStates
  import opened Candidates
  import opened GroupConsensus
  import ConsensusTracker
  import Rewriter

  type Tags = ConsensusTracker.Tags

  /** What one consensus round comes to: the lowest heights, the end of the walk, and whether the listeners fire. */
  datatype Proposal = Proposal(lowest: Lowest, walk: Walk, broken: bool)

  /** The outcome of one consensus round over candidates c, scanned in the given order, against the previous block. */
  ghost predicate IsProposal(c: States, order: seq<Backend>, env: Answers, current: uint64, p: Proposal) {
    && IsOrder(c.Keys, order)
    && p.lowest == Scan(c, order)
    && (p.lowest.latest == 0 ==> p.walk == Agreed(0) && !p.broken)
    && (p.lowest.latest > 0 ==> IsWalk(c.Keys, env, p.lowest, p.walk) && IsBreach(c.Keys, env, p.lowest, p.walk, current, p.broken))
  }

  /** Given that backends answer with the number asked for, broken says whether a passed round lay at or below the current block. */
  ghost predicate IsBreach(s: set<Backend>, env: Answers, l: Lowest, w: Walk, current: uint64, broken: bool) {
    (forall n: uint64 | Passed(l, w, n) :: NumbersAsAsked(s, env, n)) ==> (broken <==> BrokenBy(l, w, current))
  }

  /**
   Whole runs.  After any run of updates, bans, unbans and resets, and for every iteration order,
   the lowest heights of unforced candidates are ordered; and when the highest candidate is
   further than maxBlockLag from zero, each of lowest latest, safe and finalized is the true
   minimum over the candidates, forced or not, and is the height of one of them.
   */
  lemma RunsGiveLowest(g: Group, es: seq<Event>, banPeriod: Time, healthy: set<Backend>, now: Time,
                       limits: Limits, c: States, order: seq<Backend>)
    requires Legal(g.Members(), es)
    requires IsCandidates(g, Run(FreshStates(g.Members()), es, banPeriod), healthy, now, limits, c)
    requires IsOrder(c.Keys, order)
    ensures
      var l := Scan(c, order);
      && ((forall be | be in c :: !be.forcedCandidate) ==> l.finalized <= l.safe <= l.latest)
      && ((exists be :: be in c && c[be].latest > limits.maxBlockLag) ==>
            forall h: Height :: NoZero(c, h) && IsLowest(c, h, LowestOf(l, h)))
  {
    var s := Run(FreshStates(g.Members()), es, banPeriod);
    RunKeepsTagsSound(g.Members(), es, banPeriod);
    GroupNeverMixes(g, s, healthy, now, limits, c);
    assert forall be | be in c :: TagsSound(be, c[be]);
    if forall be | be in c :: !be.forcedCandidate {
      ScanIsOrdered(c, order);
    }
    if exists be :: be in c && c[be].latest > limits.maxBlockLag {
      assert forall be | be in c :: c[be].latest != 0;
      forall h: Height ensures NoZero(c, h) && IsLowest(c, h, LowestOf(Scan(c, order), h)) {
        UnmixedScanIsMinimum(c, h, order);
      }
    }
  }

  /**
   The published block, whatever failed and whatever the backends' views: every candidate that
   answered for it gave that number, and the non-empty hashes they gave are one hash; and it is
   not above any candidate's latest block unless the walk wrapped.
   */
  lemma FinalRoundAgrees(c: States, order: seq<Backend>, env: Answers, current: uint64, p: Proposal)
    requires IsProposal(c, order, env, current, p) && p.lowest.latest > 0 && !p.walk.WholeLap?
    ensures
      var n := p.walk.block;
      && (forall be | be in c && env(n, be).Fetched? :: env(n, be).number == n)
      && (forall b1, b2 | b1 in c && b2 in c && env(n, b1).Fetched? && env(n, b2).Fetched? ::
            env(n, b1).hash == env(n, b2).hash || env(n, b1).hash == "" || env(n, b2).hash == "")
      && (NoZero(c, Latest) && p.walk.Agreed? ==> forall be | be in c :: n <= c[be].latest)
  {
    var n := p.walk.block;
    assert AgreesAt(c.Keys, env, p.lowest, n);
    forall be | be in c && env(n, be).Fetched? ensures env(n, be).number == n {
      assert be in c.Keys && Fits(env(n, be), n, ExpectedHash(p.lowest, n));
    }
    forall b1, b2 | b1 in c && b2 in c && env(n, b1).Fetched? && env(n, b2).Fetched?
      ensures env(n, b1).hash == env(n, b2).hash || env(n, b1).hash == "" || env(n, b2).hash == ""
    {
      assert b1 in c.Keys && b2 in c.Keys && Compatible(env(n, b1), env(n, b2));
    }
    if NoZero(c, Latest) && c.Keys != {} {
      var low := LowestBackend(c, order);
    }
  }

  /**
   The first round is held against the recorded hash: the walk ends at the lowest latest block if
   and only if every candidate that answered for it gave its number and exactly the recorded hash,
   whoever failed.
   */
  lemma EndsAtLowestLatestIff(c: States, order: seq<Backend>, env: Answers, current: uint64, p: Proposal)
    requires IsProposal(c, order, env, current, p) && p.lowest.latest > 0 && p.lowest.hash != ""
    ensures
      var n := p.lowest.latest;
      var asRecorded := forall be | be in c && env(n, be).Fetched? :: env(n, be).number == n && env(n, be).hash == p.lowest.hash;
      p.walk == Agreed(n) <==> asRecorded
  {
    var n := p.lowest.latest;
    if p.walk == Agreed(n) {
      assert AgreesAt(c.Keys, env, p.lowest, n);
      forall be | be in c && env(n, be).Fetched? ensures env(n, be).number == n && env(n, be).hash == p.lowest.hash {
        assert be in c.Keys && Fits(env(n, be), n, p.lowest.hash);
      }
    }
    if forall be | be in c && env(n, be).Fetched? :: env(n, be).number == n && env(n, be).hash == p.lowest.hash {
      assert HashesGiven(c.Keys, env, n) && AgreesAt(c.Keys, env, p.lowest, n);
      assert !Passed(p.lowest, p.walk, n);
    }
  }

  /** A candidate that has another block at the lowest latest sends the walk below it, whoever else fails. */
  lemma OtherHashSendsTheWalkBelow(c: States, order: seq<Backend>, env: Answers, current: uint64, p: Proposal, be: Backend)
    requires IsProposal(c, order, env, current, p) && p.lowest.latest > 0 && p.lowest.hash != "" && be in c
    requires
      var f := env(p.lowest.latest, be);
      f.Fetched? && f.hash != p.lowest.hash
    ensures p.walk.Agreed? ==> p.walk.block < p.lowest.latest
  {
    EndsAtLowestLatestIff(c, order, env, current, p);
  }

  /**
   The published block of a round in which every candidate answers from its chain.  The walk
   stays above genesis exactly when the candidates share it; the block is then their highest
   common ancestor, whatever the iteration orders, and the published tags are ordered exactly
   when the lowest heights were and the candidates share the lowest safe block.  The listeners
   fire exactly when the candidates do not share the previous block, or their lowest latest if
   that is lower.
   */
  lemma ProposalOverChains(c: States, order: seq<Backend>, env: Answers, chain: Chains, current: uint64, p: Proposal)
    requires IsProposal(c, order, env, current, p)
    requires |c| > 0 && NoZero(c, Latest)
    requires AreChains(c.Keys, chain) && AnswersFromChains(c, env, chain)
    ensures p.walk.Agreed? <==> Share(c.Keys, chain, 0)
    ensures p.walk.Agreed? ==> Share(c.Keys, chain, p.walk.block) && forall be | be in c :: p.walk.block <= c[be].latest
    ensures p.walk.Agreed? ==>
      forall n: uint64 | p.walk.block < n && (forall be | be in c :: n <= c[be].latest) :: !Share(c.Keys, chain, n)
    ensures p.walk.Agreed? ==>
      var l := p.lowest;
      l.finalized <= l.safe <= p.walk.block <==> l.finalized <= l.safe <= l.latest && Share(c.Keys, chain, l.safe)
    ensures p.broken <==> !Share(c.Keys, chain, Min(current, p.lowest.latest))
  {
    var low := LowestBackend(c, order);
    WalkFindsHighestCommonAncestor(c, env, chain, order, p.walk);
    if p.walk.Agreed? {
      PublishedTagsOrderedIff(c, env, chain, order, p.walk);
    }
    BrokenIffNotShared(c, env, chain, order, p.walk, current);
  }

  /** The context in which requests are rewritten once this proposal is published. */
  function PublishedContext(p: Proposal, maxBlockRange: uint64): Rewriter.Context
    requires !p.walk.WholeLap?
  {
    Rewriter.Context(Rewriter.View(p.walk.block, p.lowest.safe, p.lowest.finalized), maxBlockRange)
  }

  /** Up to the lowest latest block the candidates share exactly the blocks up to the published one. */
  lemma SharedUpToPublished(c: States, order: seq<Backend>, env: Answers, chain: Chains, current: uint64, p: Proposal)
    requires IsProposal(c, order, env, current, p)
    requires |c| > 0 && NoZero(c, Latest)
    requires AreChains(c.Keys, chain) && AnswersFromChains(c, env, chain) && Share(c.Keys, chain, 0)
    ensures p.walk.Agreed? && p.walk.block <= p.lowest.latest
    ensures forall n: uint64 | n <= p.lowest.latest :: n <= p.walk.block <==> Share(c.Keys, chain, n)
  {
    var low := LowestBackend(c, order);
    ProposalOverChains(c, order, env, chain, current, p);
    forall n: uint64 | n <= p.lowest.latest ensures n <= p.walk.block <==> Share(c.Keys, chain, n) {
      assert forall be | be in c :: n <= c[be].latest;
    }
  }

  /**
   When rewriting may rely on the published tags.  With a common genesis block the context is
   ordered exactly when lowest safe and finalized are not above the lowest latest, the candidates
   share both of those blocks, and the published block is an int64; for unforced candidates that
   is, exactly when they share the lowest safe block and the published block is an int64.
   */
  lemma PublishedContextIsOrderedIff(c: States, order: seq<Backend>, env: Answers, chain: Chains, current: uint64, p: Proposal,
                                     maxBlockRange: uint64)
    requires IsProposal(c, order, env, current, p)
    requires |c| > 0 && NoZero(c, Latest)
    requires AreChains(c.Keys, chain) && AnswersFromChains(c, env, chain) && Share(c.Keys, chain, 0)
    ensures p.walk.Agreed?
    ensures
      var l := p.lowest;
      PublishedContext(p, maxBlockRange).Ordered() <==>
        && l.safe <= l.latest && Share(c.Keys, chain, l.safe)
        && l.finalized <= l.latest && Share(c.Keys, chain, l.finalized)
        && (l.latest < TWO_63 || !Share(c.Keys, chain, TWO_63))
    ensures (forall be | be in c :: TagsSound(be, c[be]) && !be.forcedCandidate) ==>
      (PublishedContext(p, maxBlockRange).Ordered() <==>
         Share(c.Keys, chain, p.lowest.safe) && (p.lowest.latest < TWO_63 || !Share(c.Keys, chain, TWO_63)))
  {
    SharedUpToPublished(c, order, env, chain, current, p);
    if forall be | be in c :: TagsSound(be, c[be]) && !be.forcedCandidate {
      ScanIsOrdered(c, order);
    }
  }

  /** Without a common genesis block the published latest is 2^64 - 1, and the context is not ordered. */
  lemma WrappedContextIsNotOrdered(c: States, order: seq<Backend>, env: Answers, chain: Chains, current: uint64, p: Proposal,
                                   maxBlockRange: uint64)
    requires IsProposal(c, order, env, current, p)
    requires |c| > 0 && NoZero(c, Latest)
    requires AreChains(c.Keys, chain) && AnswersFromChains(c, env, chain) && !Share(c.Keys, chain, 0)
    requires forall be | be in c :: env(TWO_64 - 1, be).FetchError?
    ensures p.walk == Wrapped(TWO_64 - 1) && !PublishedContext(p, maxBlockRange).Ordered()
  {
    var low := LowestBackend(c, order);
    WithoutCommonGenesisTheWalkWraps(c, env, chain, order, p.walk);
  }

  /** The same candidates scanned in two orders have the same lowest heights, if a hash perhaps of another one of them. */
  lemma ScanIgnoresOrder(c: States, order: seq<Backend>, order': seq<Backend>, h: Height)
    requires IsOrder(c.Keys, order) && IsOrder(c.Keys, order') && NoZero(c, h)
    ensures LowestOf(Scan(c, order), h) == LowestOf(Scan(c, order'), h)
  {
    UnmixedScanIsMinimum(c, h, order);
    UnmixedScanIsMinimum(c, h, order');
  }

  /** Over chains a walk for one order is a walk for the other. */
  lemma WalkIgnoresOrder(c: States, env: Answers, chain: Chains, order: seq<Backend>, order': seq<Backend>, w: Walk)
    requires IsOrder(c.Keys, order) && IsOrder(c.Keys, order') && NoZero(c, Latest) && |c| > 0
    requires AnswersFromChains(c, env, chain)
    requires IsWalk(c.Keys, env, Scan(c, order), w)
    ensures IsWalk(c.Keys, env, Scan(c, order'), w)
  {
    ScanIgnoresOrder(c, order, order', Latest);
    var l, l' := Scan(c, order), Scan(c, order');
    assert LowestOf(l, Latest) == LowestOf(l', Latest);
    var low := LowestBackend(c, order);
    var low' := LowestBackend(c, order');
    forall n: uint64 ensures AgreesAt(c.Keys, env, l', n) <==> AgreesAt(c.Keys, env, l, n) {
      if n <= l.latest {
        AgreesIffShared(c, env, chain, l, low, n);
        AgreesIffShared(c, env, chain, l', low', n);
      }
    }
    forall n: uint64 | Passed(l', w, n) && HashesGiven(c.Keys, env, n) ensures !AgreesAt(c.Keys, env, l', n) {
      assert Passed(l, w, n);
    }
  }

  /**
   Map iteration decides nothing: two evaluations of the same group, each with its own iteration
   orders, have the same candidates, publish the same triple and agree on the event.
   */
  lemma RoundIgnoresIterationOrder(g: Group, s: States, healthy: set<Backend>, now: Time, limits: Limits, env: Answers, chain: Chains,
                                   current: uint64, c: States, order: seq<Backend>, p: Proposal,
                                   c': States, order': seq<Backend>, p': Proposal)
    requires AllSound(s)
    requires IsCandidates(g, s, healthy, now, limits, c) && IsProposal(c, order, env, current, p)
    requires IsCandidates(g, s, healthy, now, limits, c') && IsProposal(c', order', env, current, p')
    requires |c| > 0 && NoZero(c, Latest)
    requires AreChains(c.Keys, chain) && AnswersFromChains(c, env, chain)
    ensures c == c' && p'.walk == p.walk && p'.broken == p.broken
    ensures forall h: Height :: LowestOf(p'.lowest, h) == LowestOf(p.lowest, h)
  {
    CandidatesAreUnique(g, s, healthy, now, limits, c, c');
    GroupNeverMixes(g, s, healthy, now, limits, c);
    ProposalsAgree(c, env, chain, current, order, p, order', p');
  }

  lemma ProposalsAgree(c: States, env: Answers, chain: Chains, current: uint64,
                       order: seq<Backend>, p: Proposal, order': seq<Backend>, p': Proposal)
    requires IsProposal(c, order, env, current, p) && IsProposal(c, order', env, current, p')
    requires |c| > 0 && NoZero(c, Latest) && AllSound(c)
    requires AreChains(c.Keys, chain) && AnswersFromChains(c, env, chain)
    ensures p'.walk == p.walk && p'.broken == p.broken
    ensures forall h: Height :: LowestOf(p'.lowest, h) == LowestOf(p.lowest, h)
  {
    assert forall be | be in c :: TagsSound(be, c[be]) && HeightOf(c[be], Latest) != 0;
    forall h: Height ensures LowestOf(p'.lowest, h) == LowestOf(p.lowest, h) {
      ScanIgnoresOrder(c, order, order', h);
    }
    assert LowestOf(p'.lowest, Latest) == LowestOf(p.lowest, Latest);
    var low := LowestBackend(c, order);
    var low' := LowestBackend(c, order');
    WalkIgnoresOrder(c, env, chain, order, order', p.walk);
    WalkIsUnique(c.Keys, env, p'.lowest, p.walk, p'.walk);
    ProposalOverChains(c, order, env, chain, current, p);
    ProposalOverChains(c, order', env, chain, current, p');
  }

  lemma PairAreCandidates(c: States)
    requires exists chain: Chains :: c == Pair(chain)
    ensures IsCandidates(Group(BOTH, map["left" := false, "right" := false]), c, {LEFT, RIGHT}, 0, Limits(0, 0, 10), c)
  {
    var g := Group(BOTH, map["left" := false, "right" := false]);
    assert LEFT in BOTH && RIGHT in BOTH && LEFT in c && RIGHT in c;
    assert EligibleStates(c, g.Primaries(), {LEFT, RIGHT}, 0, Limits(0, 0, 10)) == c;
    assert IsHighest(c, 5) && NotLagging(c, 5, 10) == c;
  }

  /** A group, states and answers of the kind these results are about: two healthy backends on one chain, at block 5. */
  lemma RoundExample()
    ensures
      var chain := ForkedFrom(6);
      var c := Pair(chain);
      var g := Group(BOTH, map["left" := false, "right" := false]);
      && AllSound(c) && |c| > 0 && NoZero(c, Latest)
      && AreChains(c.Keys, chain) && AnswersFromChains(c, PairAnswers(chain), chain)
      && IsCandidates(g, c, {LEFT, RIGHT}, 0, Limits(0, 0, 10), c)
      && IsProposal(c, BOTH, PairAnswers(chain), 0, Proposal(Scan(c, BOTH), Agreed(5), false))
  {
    var c := Pair(ForkedFrom(6));
    PairIsChainBacked(6);
    PairAreCandidates(c);
    QuietRegression(Agreed(5));
    BrokenIff(Scan(c, BOTH), Agreed(5), 0);
  }

  /** The answer has this hash or none. */
  predicate Agrees(f: Fetch, hash: string) {
    f.Fetched? && f.hash != "" ==> f.hash == hash
  }

  /** One round: ask every candidate for block n, stop at the first that does not match. */
  method CheckRound(s: set<Backend>, env: Answers, n: uint64, expected: string, current: uint64)
    returns (agreed: bool, broke: bool)
    ensures agreed ==> RoundAgrees(s, env, n, expected) && !broke
    ensures HashesGiven(s, env, n) && RoundAgrees(s, env, n, expected) ==> agreed
    ensures !agreed && NumbersAsAsked(s, env, n) ==> (broke <==> current >= n)
  {
    var hash := expected;
    var rest := s;
    agreed, broke := true, false;
    while rest != {}
      invariant rest <= s
      invariant agreed && !broke
      invariant expected != "" ==> hash == expected
      invariant forall be | be in s - rest :: Fits(env(n, be), n, expected) && Agrees(env(n, be), hash)
      invariant expected == "" && hash != "" ==> exists be :: be in s - rest && env(n, be).Fetched? && env(n, be).hash == hash
    {
      var be :| be in rest;
      var actual := env(n, be);
      if actual.Fetched? {
        if hash == "" {
          hash := actual.hash;
        }
        if actual.number != n || actual.hash != hash {
          broke := current >= actual.number;
          agreed := false;
          assert RoundAgrees(s, env, n, expected) ==> forall other | other in s :: Compatible(env(n, be), env(n, other));
          return;
        }
      }
      rest := rest - {be};
    }
    assert s - rest == s;
  }

  /** Some block passed before p lies at or below the current one. */
  ghost predicate BrokenBefore(l: Lowest, p: uint64, current: uint64) {
    exists n: uint64 :: n <= current && PassedBefore(l, p, n)
  }

  lemma NextIsPassed(l: Lowest, p: uint64, current: uint64)
    requires Sub(p, 1) != l.latest
    ensures forall n: uint64 :: PassedBefore(l, Sub(p, 1), n) <==> PassedBefore(l, p, n) || n == p
    ensures BrokenBefore(l, Sub(p, 1), current) <==> BrokenBefore(l, p, current) || p <= current
  {
    if p <= current {
      assert PassedBefore(l, Sub(p, 1), p);
    }
  }

  lemma LapIsPassed(l: Lowest, p: uint64, current: uint64)
    requires Sub(p, 1) == l.latest
    ensures forall n: uint64 :: PassedBefore(l, p, n) || n == p
    ensures BrokenBy(l, WholeLap, current) && (BrokenBefore(l, p, current) || p <= current)
  {
    assert Passed(l, WholeLap, 0);
    if p != 0 {
      assert PassedBefore(l, p, 0);
    }
  }

  /** What broke before the last round is what the walk broke. */
  lemma BrokenAtEnd(l: Lowest, w: Walk, current: uint64)
    requires !w.WholeLap?
    ensures BrokenBy(l, w, current) <==> BrokenBefore(l, w.block, current)
  {
    assert forall n: uint64 :: Passed(l, w, n) <==> PassedBefore(l, w.block, n);
  }

  /**
   The walk back from the lowest latest block, one block a round; taking one from block zero
   wraps.  After a whole lap the source goes on for ever; the walk here ends there.
   */
  method WalkBack(s: set<Backend>, env: Answers, l: Lowest, current: uint64) returns (w: Walk, broken: bool)
    requires l.latest > 0
    ensures IsWalk(s, env, l, w)
    ensures IsBreach(s, env, l, w, current, broken)
  {
    var proposed: uint64, hash := l.latest, l.hash;
    broken := false;
    while true
      invariant hash == ExpectedHash(l, proposed)
      invariant forall n: uint64 | PassedBefore(l, proposed, n) && HashesGiven(s, env, n) :: !AgreesAt(s, env, l, n)
      invariant (forall n: uint64 | PassedBefore(l, proposed, n) :: NumbersAsAsked(s, env, n)) ==>
        (broken <==> BrokenBefore(l, proposed, current))
      decreases if proposed <= l.latest then proposed - l.latest + TWO_64 else proposed - l.latest
    {
      var agreed, broke := CheckRound(s, env, proposed, hash, current);
      broken := broken || broke;
      if agreed {
        w := if proposed <= l.latest then Agreed(proposed) else Wrapped(proposed);
        BrokenAtEnd(l, w, current);
        return;
      }
      var next := Sub(proposed, 1);
      if next == l.latest {
        LapIsPassed(l, proposed, current);
        return WholeLap, broken;
      }
      NextIsPassed(l, proposed, current);
      proposed, hash := next, "";
    }
  }

  class ConsensusPoller {
    const group: Group
    const limits: Limits
    const banPeriod: Time

    var states: States
    var tracker: Tags
    var consensusGroup: seq<Backend>
    var notifications: nat

    ghost predicate Valid()
      reads this
    {
      states.Keys == group.Members()
    }

    constructor (group: Group, limits: Limits, banPeriod: Time)
      ensures Valid()
      ensures this.group == group && this.limits == limits && this.banPeriod == banPeriod
      ensures states == FreshStates(group.Members())
      ensures tracker == ConsensusTracker.ZERO_TAGS && consensusGroup == [] && notifications == 0
    {
      this.group, this.limits, this.banPeriod := group, limits, banPeriod;
      states, tracker, consensusGroup, notifications := map[], ConsensusTracker.ZERO_TAGS, [], 0;
      new;
      Reset();
    }

    method Reset()
      requires states.Keys <= group.Members()
      modifies this`states
      ensures Valid()
      ensures states == FreshStates(group.Members())
    {
      for i := 0 to |group.backends|
        invariant states.Keys <= group.Members()
        invariant forall j | 0 <= j < i :: group.backends[j] in states && states[group.backends[j]] == FRESH_STATE
      {
        states := states[group.backends[i] := FRESH_STATE];
      }
      assert forall be | be in states :: states[be] == FRESH_STATE;
    }

    method Ban(be: Backend, now: Time)
      requires Valid() && be in states
      modifies this`states
      ensures Valid()
      ensures states == Step(old(states), Event.Ban(be, now), banPeriod)
    {
      if be.forcedCandidate {
        return;
      }
      var bs := states[be];
      bs := bs.(bannedUntil := now + banPeriod);
      bs := bs.(latest := 0);
      bs := bs.(safe := 0);
      bs := bs.(finalized := 0);
      states := states[be := bs];
    }

    method Unban(be: Backend, now: Time)
      requires Valid() && be in states
      modifies this`states
      ensures Valid()
      ensures states == Step(old(states), Event.Unban(be, now), banPeriod)
    {
      states := states[be := states[be].(bannedUntil := now - TEN_HOURS)];
    }

    method UpdateBackend(be: Backend, p: Probe, at: Readings)
      requires Valid() && be in states
      modifies this`states
      ensures Valid()
      ensures states == Step(old(states), Update(be, p, at), banPeriod)
    {
      var bs := states[be];
      if IsBanned(bs, at.checked) {
        return;
      }
      if !p.healthy && !be.forcedCandidate {
        Ban(be, at.banned);
        return;
      }
      if p.inSync.Failed? {
        return;
      }
      var peerCount: uint64 := 0;
      if !be.skipPeerCountCheck {
        if p.peerCount.Failed? || p.peerCount.value == 0 {
          return;
        }
        peerCount := p.peerCount.value;
      }
      if p.latest.Failed? || p.latest.value.0 == 0 {
        return;
      }
      if p.safe.Failed? || p.safe.value == 0 {
        return;
      }
      if p.finalized.Failed? || p.finalized.value == 0 {
        return;
      }
      var (number, hash) := p.latest.value;
      states := states[be := BackendState(number, hash, p.safe.value, p.finalized.value, peerCount, p.inSync.value, at.stored, bs.bannedUntil)];
      if !ExpectedBlockTags(number, bs.safe, p.safe.value, bs.finalized, p.finalized.value) && !be.forcedCandidate {
        Ban(be, at.banned);
      }
    }

    method FilterCandidates(backends: seq<Backend>, healthy: set<Backend>, now: Time) returns (candidates: States)
      requires Valid() && forall be | be in backends :: be in states
      ensures IsFiltered(EligibleStates(states, backends, healthy, now, limits), limits.maxBlockLag, candidates)
    {
      candidates := map[];
      for i := 0 to |backends|
        invariant candidates == EligibleStates(states, backends[..i], healthy, now, limits)
      {
        var be := backends[i];
        if Eligible(be, states[be], healthy, now, limits) {
          candidates := candidates[be := states[be]];
        }
        assert backends[..i + 1] == backends[..i] + [be];
      }
      assert backends[..|backends|] == backends;
      var highest := HighestLatest(candidates);
      candidates := WithoutLagging(candidates, highest);
    }

    /** The highest latest block among the candidates. */
    method HighestLatest(candidates: States) returns (highest: uint64)
      ensures IsHighest(candidates, highest)
    {
      highest := 0;
      var rest := candidates.Keys;
      while rest != {}
        invariant rest <= candidates.Keys
        invariant forall be | be in candidates.Keys - rest :: candidates[be].latest <= highest
        invariant highest == 0 || exists be :: be in candidates && candidates[be].latest == highest
      {
        var be :| be in rest;
        if candidates[be].latest > highest {
          highest := candidates[be].latest;
        }
        rest := rest - {be};
      }
    }

    /** Collect the candidates that lag behind the highest block, then delete them. */
    method WithoutLagging(eligible: States, highest: uint64) returns (candidates: States)
      requires forall be | be in eligible :: eligible[be].latest <= highest
      ensures candidates == NotLagging(eligible, highest, limits.maxBlockLag)
    {
      var lagging: seq<Backend> := [];
      var rest := eligible.Keys;
      while rest != {}
        invariant rest <= eligible.Keys
        invariant forall be :: be in lagging <==> be in eligible && be !in rest && highest - eligible[be].latest > limits.maxBlockLag
      {
        var be :| be in rest;
        if Sub(highest, eligible[be].latest) > limits.maxBlockLag {
          lagging := lagging + [be];
        }
        rest := rest - {be};
      }
      candidates := eligible;
      for i := 0 to |lagging|
        invariant candidates == eligible - (set be | be in lagging[..i])
      {
        candidates := candidates - {lagging[i]};
        assert lagging[..i + 1] == lagging[..i] + [lagging[i]];
      }
      assert lagging[..|lagging|] == lagging;
    }

    method GetConsensusCandidates(healthy: set<Backend>, now: Time) returns (candidates: States)
      requires Valid()
      ensures IsCandidates(group, states, healthy, now, limits, candidates)
      ensures candidates.Keys <= group.Members()
    {
      var primaries := FilterCandidates(group.Primaries(), healthy, now);
      ghost var eligible := EligibleStates(states, group.Primaries(), healthy, now, limits);
      SurvivorsAgree(eligible, limits.maxBlockLag, primaries);
      if primaries.Keys != {} {
        assert |primaries| > 0 && eligible.Keys != {};
        GroupNeverMixes(group, states, healthy, now, limits, primaries);
        return primaries;
      }
      assert |primaries| == 0 && |eligible| == 0;
      candidates := FilterCandidates(group.Fallbacks(), healthy, now);
      GroupNeverMixes(group, states, healthy, now, limits, candidates);
    }

    method ScanLowest(candidates: States) returns (l: Lowest, ghost order: seq<Backend>)
      ensures IsOrder(candidates.Keys, order)
      ensures l == Scan(candidates, order)
    {
      l, order := UNSET, [];
      var rest := candidates.Keys;
      while rest != {}
        invariant rest <= candidates.Keys
        invariant IsOrder(candidates.Keys - rest, order)
        invariant l == Scan(candidates, order)
      {
        var be :| be in rest;
        var bs := candidates[be];
        ghost var before, previous := l, order;
        if l.latest == 0 || bs.latest < l.latest {
          l := l.(latest := bs.latest, hash := bs.hash);
        }
        if l.finalized == 0 || bs.finalized < l.finalized {
          l := l.(finalized := bs.finalized);
        }
        if l.safe == 0 || bs.safe < l.safe {
          l := l.(safe := bs.safe);
        }
        order := order + [be];
        assert order[..|order| - 1] == previous;
        rest := rest - {be};
      }
    }

    /** The reading half of UpdateBackendGroupConsensus: candidates, lowest heights, walk back. */
    method Propose(env: Answers, healthy: set<Backend>, now: Time)
      returns (candidates: States, p: Proposal, ghost order: seq<Backend>)
      requires Valid()
      ensures IsCandidates(group, states, healthy, now, limits, candidates)
      ensures candidates.Keys <= group.Members()
      ensures IsProposal(candidates, order, env, tracker.latest, p)
    {
      candidates := GetConsensusCandidates(healthy, now);
      var l, w, broken;
      l, order := ScanLowest(candidates);
      w, broken := Agreed(l.latest), false;
      if l.latest > 0 {
        w, broken := WalkBack(candidates.Keys, env, l, tracker.latest);
      }
      p := Proposal(l, w, broken);
    }

    /**
     One round of group consensus: publish, notify, and replace the consensus group.  After a
     whole lap without agreement the source is still walking, and nothing has changed.
     */
    method UpdateBackendGroupConsensus(env: Answers, healthy: set<Backend>, now: Time)
      returns (candidates: States, p: Proposal, ghost order: seq<Backend>)
      requires Valid()
      modifies this`tracker, this`consensusGroup, this`notifications
      ensures Valid()
      ensures IsCandidates(group, states, healthy, now, limits, candidates)
      ensures IsProposal(candidates, order, env, old(tracker).latest, p)
      ensures !p.walk.WholeLap? ==> tracker == ConsensusTracker.Tags(p.walk.block, p.lowest.safe, p.lowest.finalized)
      ensures !p.walk.WholeLap? ==> notifications == old(notifications) + if p.broken then 1 else 0
      ensures !p.walk.WholeLap? ==> forall be :: be in consensusGroup <==> be in candidates
      ensures !p.walk.WholeLap? ==> PublishedContext(p, 0).view == Rewriter.View(tracker.latest, tracker.safe, tracker.finalized)
      ensures p.walk.WholeLap? ==> unchanged(this)
      ensures (forall be | be in candidates :: candidates[be].latest == 0) ==> tracker.latest == 0 && notifications == old(notifications)
    {
      candidates, p, order := Propose(env, healthy, now);
      if forall be | be in candidates :: candidates[be].latest == 0 {
        ScanAllZero(candidates, order, Latest);
      }
      if !p.walk.WholeLap? {
        Publish(candidates, p);
      }
    }

    /** The writing half: listeners, tracker, consensus group. */
    method Publish(candidates: States, p: Proposal)
      requires candidates.Keys <= group.Members() && !p.walk.WholeLap?
      modifies this`tracker, this`consensusGroup, this`notifications
      ensures tracker == ConsensusTracker.Tags(p.walk.block, p.lowest.safe, p.lowest.finalized)
      ensures notifications == old(notifications) + if p.broken then 1 else 0
      ensures forall be :: be in consensusGroup <==> be in candidates
    {
      if p.broken {
        notifications := notifications + 1;
      }
      tracker := ConsensusTracker.Tags(p.walk.block, p.lowest.safe, p.lowest.finalized);
      consensusGroup := Serving(candidates);
      assert forall be | be in candidates :: be in candidates.Keys;
    }

    /** The members of the group that are candidates, in group order. */
    method Serving(candidates: States) returns (members: seq<Backend>)
      ensures forall be :: be in members <==> be in candidates && be in group.backends
    {
      members := [];
      for i := 0 to |group.backends|
        invariant forall be :: be in members <==> be in candidates && be in group.backends[..i]
      {
        if group.backends[i] in candidates {
          members := members + [group.backends[i]];
        }
        assert group.backends[..i + 1] == group.backends[..i] + [group.backends[i]];
      }
      assert group.backends[..|group.backends|] == group.backends;
    }
  }
}
