/** Which backends may serve: the outcome of FilterCandidates and getConsensusCandidates (consensus_poller.go). */
module Candidates {
  import opened Wrappers
  import opened Uint64
  import opened Durations
  import opened BackendStates

  datatype Limits = Limits(minPeerCount: uint64, maxUpdateThreshold: Time, maxBlockLag: uint64)

  /** The checks made before block lag is looked at; a forced candidate skips them all. */
  predicate Eligible(be: Backend, bs: BackendState, healthy: set<Backend>, now: Time, limits: Limits) {
    || be.forcedCandidate
    || (&& !IsBanned(bs, now)
        && be in healthy
        && (be.skipPeerCountCheck || bs.peerCount >= limits.minPeerCount)
        && bs.inSync
        && !(bs.lastUpdate + limits.maxUpdateThreshold < now))
  }

  function EligibleStates(s: States, backends: seq<Backend>, healthy: set<Backend>, now: Time, limits: Limits): States {
    map be | be in backends && be in s && Eligible(be, s[be], healthy, now, limits) :: s[be]
  }

  /** h is the greatest latest block in c, or zero when c is empty. */
  ghost predicate IsHighest(c: States, h: uint64) {
    && (forall be | be in c :: c[be].latest <= h)
    && (h == 0 || exists be :: be in c && c[be].latest == h)
  }

  function NotLagging(c: States, h: uint64, lag: uint64): States {
    map be | be in c && h - c[be].latest <= lag :: c[be]
  }

  /** r is what remains of c once the backends more than `lag` behind its highest block are deleted. */
  ghost predicate IsFiltered(c: States, lag: uint64, r: States) {
    exists h :: IsHighest(c, h) && r == NotLagging(c, h, lag)
  }

  /** The filter determines its survivors. */
  lemma FilteredIsUnique(c: States, lag: uint64, r: States, r': States)
    requires IsFiltered(c, lag, r) && IsFiltered(c, lag, r')
    ensures r == r'
  {
  }

  /**
   Filtering is sound and never empties: survivors keep their state, any two are within `lag`
   of each other, and one survives whenever there was one to begin with.
   */
  lemma SurvivorsAgree(c: States, lag: uint64, r: States)
    requires IsFiltered(c, lag, r)
    ensures r.Keys <= c.Keys && forall be | be in r :: r[be] == c[be]
    ensures forall b1, b2 | b1 in r && b2 in r :: r[b1].latest - r[b2].latest <= lag
    ensures |c| > 0 ==> |r| > 0
  {
  }

  /** A candidate without a known block survives, forced or not, exactly when the highest block is within `lag` of zero. */
  lemma ZeroBlockSurvivesIff(c: States, lag: uint64, r: States, h: uint64, zero: Backend)
    requires IsFiltered(c, lag, r) && IsHighest(c, h)
    requires zero in c && c[zero].latest == 0
    ensures zero in r <==> h <= lag
  {
  }

  /** A backend group: its members in order, and for each configured name whether it is a fallback. */
  datatype Group = Group(backends: seq<Backend>, fallback: map<string, bool>) {
    function Members(): set<Backend> {
      set be | be in backends
    }

    function Primaries(): seq<Backend> {
      Select(backends, false)
    }

    function Fallbacks(): seq<Backend> {
      Select(backends, true)
    }

    /** The members whose name is configured with the given flag, in group order. */
    function Select(bs: seq<Backend>, flag: bool): (r: seq<Backend>)
      ensures forall be :: be in r <==> be in bs && be.name in fallback && fallback[be.name] == flag
    {
      if bs == [] then []
      else
        var rest := Select(bs[..|bs| - 1], flag);
        var last := bs[|bs| - 1];
        if last.name in fallback && fallback[last.name] == flag then rest + [last] else rest
    }
  }

  /** c is the candidate set of the group: the filtered primaries or, when there are none, the filtered fallbacks. */
  ghost predicate IsCandidates(g: Group, s: States, healthy: set<Backend>, now: Time, limits: Limits, c: States) {
    var primaries := EligibleStates(s, g.Primaries(), healthy, now, limits);
    var fallbacks := EligibleStates(s, g.Fallbacks(), healthy, now, limits);
    if |primaries| > 0 then IsFiltered(primaries, limits.maxBlockLag, c)
    else IsFiltered(fallbacks, limits.maxBlockLag, c)
  }

  /**
   The serving group never mixes primaries with fallbacks, it holds fallbacks only when no
   primary is eligible, its members carry their recorded state and lie within maxBlockLag.
   */
  lemma GroupNeverMixes(g: Group, s: States, healthy: set<Backend>, now: Time, limits: Limits, c: States)
    requires IsCandidates(g, s, healthy, now, limits, c)
    ensures (forall be | be in c :: be in g.Primaries()) || (forall be | be in c :: be in g.Fallbacks())
    ensures (exists be :: be in c && be in g.Fallbacks()) ==>
      forall be | be in g.Primaries() && be in s :: !Eligible(be, s[be], healthy, now, limits)
    ensures forall be | be in c :: be in s && c[be] == s[be] && Eligible(be, s[be], healthy, now, limits)
    ensures forall b1, b2 | b1 in c && b2 in c :: c[b1].latest - c[b2].latest <= limits.maxBlockLag
  {
    var primaries := EligibleStates(s, g.Primaries(), healthy, now, limits);
    var fallbacks := EligibleStates(s, g.Fallbacks(), healthy, now, limits);
    if |primaries| > 0 {
      SurvivorsAgree(primaries, limits.maxBlockLag, c);
    } else {
      SurvivorsAgree(fallbacks, limits.maxBlockLag, c);
      assert primaries.Keys == {};
      forall be | be in g.Primaries() && be in s ensures !Eligible(be, s[be], healthy, now, limits) {
        assert be !in primaries;
      }
    }
  }

  /** The candidates do not depend on the order in which any map is visited. */
  lemma CandidatesAreUnique(g: Group, s: States, healthy: set<Backend>, now: Time, limits: Limits, c: States, c': States)
    requires IsCandidates(g, s, healthy, now, limits, c) && IsCandidates(g, s, healthy, now, limits, c')
    ensures c == c'
  {
    var primaries := EligibleStates(s, g.Primaries(), healthy, now, limits);
    var fallbacks := EligibleStates(s, g.Fallbacks(), healthy, now, limits);
    FilteredIsUnique(if |primaries| > 0 then primaries else fallbacks, limits.maxBlockLag, c, c');
  }

  /**
   Who may serve.  Before the lag filter exactly the forced members of the list and those that are
   not banned, healthy, in sync, updated within the threshold, and exempt from the peer check or
   with enough peers.
   */
  lemma EligibleIff(s: States, backends: seq<Backend>, healthy: set<Backend>, now: Time, limits: Limits, be: Backend)
    requires be in s
    ensures be in EligibleStates(s, backends, healthy, now, limits) <==>
      && be in backends
      && (|| be.forcedCandidate
          || (&& s[be].bannedUntil <= now && be in healthy && s[be].inSync
              && now - s[be].lastUpdate <= limits.maxUpdateThreshold
              && (be.skipPeerCountCheck || s[be].peerCount >= limits.minPeerCount)))
  {
  }

  /** No unforced candidate is banned, unhealthy, out of sync, stale or short of peers. */
  lemma CandidatesAreFit(g: Group, s: States, healthy: set<Backend>, now: Time, limits: Limits, c: States, be: Backend)
    requires IsCandidates(g, s, healthy, now, limits, c) && be in c
    ensures be in s && c[be] == s[be]
    ensures !be.forcedCandidate ==>
      && c[be].bannedUntil <= now && be in healthy && c[be].inSync
      && now - c[be].lastUpdate <= limits.maxUpdateThreshold
      && (be.skipPeerCountCheck || c[be].peerCount >= limits.minPeerCount)
  {
    GroupNeverMixes(g, s, healthy, now, limits, c);
    EligibleIff(s, g.backends, healthy, now, limits, be);
  }

  /**
   Over whole runs: an unforced candidate is one whose last recorded probe said it was in sync and
   had peers enough, at most the threshold ago; a backend that reported itself syncing is none.
   */
  lemma CandidateWasProbedInSync(g: Group, es: seq<Event>, banPeriod: Time, healthy: set<Backend>, now: Time, limits: Limits,
                                 c: States, be: Backend) returns (k: nat)
    requires Legal(g.Members(), es)
    requires IsCandidates(g, Run(FreshStates(g.Members()), es, banPeriod), healthy, now, limits, c)
    requires be in c && !be.forcedCandidate
    ensures ToldBy(FreshStates(g.Members()), es, be, banPeriod, k)
    ensures es[k].probe.inSync == Answered(true) && now - es[k].at.stored <= limits.maxUpdateThreshold
    ensures !be.skipPeerCountCheck ==> es[k].probe.peerCount.value >= limits.minPeerCount
  {
    var s := FreshStates(g.Members());
    CandidatesAreFit(g, Run(s, es, banPeriod), healthy, now, limits, c, be);
    StateTellsOneProbe(g.Members(), es, be, banPeriod);
    k :| ToldBy(s, es, be, banPeriod, k);
  }
}
