/**
 What the poller remembers about one backend, and what each poller operation does to that
 memory (consensus_poller.go).  The operations are values here, so that whole runs can be
 stated as folds; ConsensusPoller.dfy proves the imperative methods against them.
 */
module BackendStates {
  import opened Wrappers
  import opened Uint64
  import opened Durations

  const ZERO_TIME: Time := 0
  const TEN_HOURS: Time := 36_000_000_000_000

  datatype Backend = Backend(name: string, forcedCandidate: bool, skipPeerCountCheck: bool)

  datatype BackendState = BackendState(
    latest: uint64, hash: string, safe: uint64, finalized: uint64,
    peerCount: uint64, inSync: bool, lastUpdate: Time, bannedUntil: Time)

  const FRESH_STATE := BackendState(0, "", 0, 0, 0, false, ZERO_TIME, ZERO_TIME)

  predicate IsBanned(bs: BackendState, now: Time) {
    now < bs.bannedUntil
  }

  /** Everything UpdateBackend may learn from the backend, whether or not it gets to ask. */
  datatype Probe = Probe(
    healthy: bool, inSync: Reply<bool>, peerCount: Reply<uint64>,
    latest: Reply<(uint64, string)>, safe: Reply<uint64>, finalized: Reply<uint64>)

  /** The clock readings of one UpdateBackend: ban check, setBackendState, Ban. */
  datatype Readings = Readings(checked: Time, stored: Time, banned: Time)

  predicate ExpectedBlockTags(latest: uint64, oldSafe: uint64, safe: uint64, oldFinalized: uint64, finalized: uint64) {
    finalized >= oldFinalized && safe >= oldSafe && finalized <= safe && safe <= latest
  }

  /** The probe got far enough to be stored: every query answered, no zero count or height. */
  predicate Complete(be: Backend, p: Probe) {
    && p.inSync.Answered?
    && (be.skipPeerCountCheck || (p.peerCount.Answered? && p.peerCount.value != 0))
    && p.latest.Answered? && p.latest.value.0 != 0
    && p.safe.Answered? && p.safe.value != 0
    && p.finalized.Answered? && p.finalized.value != 0
  }

  function Store(be: Backend, bs: BackendState, p: Probe, now: Time): BackendState
    requires Complete(be, p)
  {
    BackendState(
      p.latest.value.0, p.latest.value.1, p.safe.value, p.finalized.value,
      if be.skipPeerCountCheck then 0 else p.peerCount.value, p.inSync.value, now, bs.bannedUntil)
  }

  function AfterBan(be: Backend, bs: BackendState, now: Time, banPeriod: Time): BackendState {
    if be.forcedCandidate then bs
    else bs.(bannedUntil := now + banPeriod, latest := 0, safe := 0, finalized := 0)
  }

  function AfterUnban(bs: BackendState, now: Time): BackendState {
    bs.(bannedUntil := now - TEN_HOURS)
  }

  function AfterUpdate(be: Backend, bs: BackendState, p: Probe, at: Readings, banPeriod: Time): BackendState {
    if IsBanned(bs, at.checked) then bs
    else if !p.healthy && !be.forcedCandidate then AfterBan(be, bs, at.banned, banPeriod)
    else if !Complete(be, p) then bs
    else
      var stored := Store(be, bs, p, at.stored);
      if ExpectedBlockTags(stored.latest, bs.safe, stored.safe, bs.finalized, stored.finalized)
      then stored
      else AfterBan(be, stored, at.banned, banPeriod)
  }

  // ---------------------------------------------------------------- runs

  datatype Event =
    | Update(be: Backend, probe: Probe, at: Readings)
    | Ban(be: Backend, now: Time)
    | Unban(be: Backend, now: Time)
    | Reset

  type States = map<Backend, BackendState>

  function FreshStates(backends: set<Backend>): (s: States)
    ensures s.Keys == backends
  {
    map be | be in backends :: FRESH_STATE
  }

  /** One poller operation; an operation on an unknown backend is a nil dereference in the source and excluded. */
  function Step(s: States, e: Event, banPeriod: Time): (s': States)
    requires e.Reset? || e.be in s
    ensures s'.Keys == s.Keys
  {
    match e
    case Update(be, p, at) => s[be := AfterUpdate(be, s[be], p, at, banPeriod)]
    case Ban(be, now) => s[be := AfterBan(be, s[be], now, banPeriod)]
    case Unban(be, now) => s[be := AfterUnban(s[be], now)]
    case Reset => FreshStates(s.Keys)
  }

  predicate Legal(backends: set<Backend>, es: seq<Event>) {
    forall i | 0 <= i < |es| :: es[i].Reset? || es[i].be in backends
  }

  function Run(s: States, es: seq<Event>, banPeriod: Time): (s': States)
    requires Legal(s.Keys, es)
    ensures s'.Keys == s.Keys
  {
    if es == [] then s else Run(Step(s, es[0], banPeriod), es[1..], banPeriod)
  }

  /** The three heights are known together or not at all; a backend that may be banned keeps them ordered. */
  predicate TagsSound(be: Backend, bs: BackendState) {
    && (bs.latest == 0 <==> bs.safe == 0)
    && (bs.safe == 0 <==> bs.finalized == 0)
    && (!be.forcedCandidate ==> bs.finalized <= bs.safe <= bs.latest)
  }

  predicate AllSound(s: States) {
    forall be | be in s :: TagsSound(be, s[be])
  }

  lemma StepKeepsSound(s: States, e: Event, banPeriod: Time)
    requires e.Reset? || e.be in s
    requires AllSound(s)
    ensures AllSound(Step(s, e, banPeriod))
  {
  }

  /** Over every run of updates, bans, unbans and resets the tags of every backend stay sound. */
  lemma {:induction false} RunKeepsTagsSound(backends: set<Backend>, es: seq<Event>, banPeriod: Time)
    requires Legal(backends, es)
    ensures AllSound(Run(FreshStates(backends), es, banPeriod))
  {
    RunFromSound(FreshStates(backends), es, banPeriod);
  }

  lemma {:induction false} RunFromSound(s: States, es: seq<Event>, banPeriod: Time)
    requires Legal(s.Keys, es) && AllSound(s)
    ensures AllSound(Run(s, es, banPeriod))
  {
    if es == [] {
    } else {
      StepKeepsSound(s, es[0], banPeriod);
      RunFromSound(Step(s, es[0], banPeriod), es[1..], banPeriod);
    }
  }

  predicate TagsZero(bs: BackendState) {
    bs.latest == 0 && bs.safe == 0 && bs.finalized == 0
  }

  /** An update that ends in a ban: the backend is unhealthy, or its complete probe is implausible. */
  predicate UpdateBans(be: Backend, bs: BackendState, p: Probe, at: Readings) {
    && !be.forcedCandidate && !IsBanned(bs, at.checked)
    && (|| !p.healthy
        || (Complete(be, p) && !ExpectedBlockTags(p.latest.value.0, bs.safe, p.safe.value, bs.finalized, p.finalized.value)))
  }

  /** The event resets the poller or bans this backend, by hand or at the end of an update. */
  predicate Clears(s: States, e: Event, be: Backend)
    requires be in s
  {
    e.Reset? || (e.be == be && (e.Ban? || (e.Update? && UpdateBans(be, s[be], e.probe, e.at))))
  }

  /** Safe and finalized of a bannable backend never fall in one step, except that a reset or a ban drops all tags to zero. */
  lemma StepKeepsOrZeroesTags(s: States, e: Event, be: Backend, banPeriod: Time)
    requires e.Reset? || e.be in s
    requires be in s && !be.forcedCandidate
    ensures
      var before, after := s[be], Step(s, e, banPeriod)[be];
      if Clears(s, e, be) then TagsZero(after) else after.safe >= before.safe && after.finalized >= before.finalized
  {
  }

  /** Event k of the run resets the poller or bans be, and leaves be's tags at zero. */
  ghost predicate ClearedBy(s: States, es: seq<Event>, be: Backend, banPeriod: Time, k: nat)
    requires Legal(s.Keys, es) && be in s
  {
    && k < |es|
    && Clears(Run(s, es[..k], banPeriod), es[k], be)
    && TagsZero(Run(s, es[..k + 1], banPeriod)[be])
  }

  lemma RunAfterFirst(s: States, es: seq<Event>, k: nat, banPeriod: Time)
    requires Legal(s.Keys, es) && 0 < k <= |es|
    ensures Run(s, es[..k], banPeriod) == Run(Step(s, es[0], banPeriod), es[1..][..k - 1], banPeriod)
  {
    assert es[..k][1..] == es[1..][..k - 1];
  }

  /**
   Safe and finalized of a bannable backend fall only to zero, and only by a reset or a ban: if
   either is lower at the end of a run than at its start, some event of the run reset the poller
   or banned the backend, and left all three tags at zero.
   */
  lemma {:induction false} TagsFallOnlyToZero(s: States, es: seq<Event>, be: Backend, banPeriod: Time)
    requires Legal(s.Keys, es) && be in s && !be.forcedCandidate
    requires Run(s, es, banPeriod)[be].safe < s[be].safe || Run(s, es, banPeriod)[be].finalized < s[be].finalized
    ensures exists k: nat :: ClearedBy(s, es, be, banPeriod, k)
  {
    var s1 := Step(s, es[0], banPeriod);
    StepKeepsOrZeroesTags(s, es[0], be, banPeriod);
    if Clears(s, es[0], be) {
      RunAfterFirst(s, es, 1, banPeriod);
      assert ClearedBy(s, es, be, banPeriod, 0);
    } else {
      TagsFallOnlyToZero(s1, es[1..], be, banPeriod);
      var k: nat :| ClearedBy(s1, es[1..], be, banPeriod, k);
      RunAfterFirst(s, es, k + 1, banPeriod);
      RunAfterFirst(s, es, k + 2, banPeriod);
      assert ClearedBy(s, es, be, banPeriod, k + 1);
    }
  }

  /** es touches be only through updates whose ban check reads the clock before `until`. */
  predicate OnlyEarlyUpdates(es: seq<Event>, be: Backend, until: Time) {
    forall i | 0 <= i < |es| ::
      && !es[i].Reset?
      && (es[i].be == be ==> es[i].Update? && es[i].at.checked < until)
  }

  /**
   A ban lasts exactly its period.  Whatever other backends do and however often this one is
   polled meanwhile, its state stays the banned one (so nothing extends the ban), and it counts
   as banned at precisely the instants before now + banPeriod.
   */
  lemma {:induction false} BanLastsItsPeriod(s: States, be: Backend, now: Time, es: seq<Event>, banPeriod: Time)
    requires be in s && !be.forcedCandidate && Legal(s.Keys, es)
    requires OnlyEarlyUpdates(es, be, now + banPeriod)
    ensures
      var banned := Run(s, [Ban(be, now)] + es, banPeriod)[be];
      && banned == AfterBan(be, s[be], now, banPeriod)
      && TagsZero(banned)
      && forall t :: IsBanned(banned, t) <==> t < now + banPeriod
  {
    var s1 := Step(s, Ban(be, now), banPeriod);
    assert ([Ban(be, now)] + es)[1..] == es;
    BannedStateIsFrozen(s1, be, es, banPeriod);
  }

  lemma {:induction false} BannedStateIsFrozen(s: States, be: Backend, es: seq<Event>, banPeriod: Time)
    requires be in s && Legal(s.Keys, es) && OnlyEarlyUpdates(es, be, s[be].bannedUntil)
    ensures Run(s, es, banPeriod)[be] == s[be]
  {
    if es == [] {
    } else {
      var s1 := Step(s, es[0], banPeriod);
      assert s1[be] == s[be];
      BannedStateIsFrozen(s1, be, es[1..], banPeriod);
    }
  }

  /** The update gets as far as recording the probe: the backend is not banned, serves, and answered everything. */
  predicate Records(be: Backend, bs: BackendState, p: Probe, at: Readings) {
    && bs.bannedUntil <= at.checked
    && (p.healthy || be.forcedCandidate)
    && Usable(be, p)
  }

  /** Every query was answered, with a positive number of peers, unless that is not asked for, and positive heights. */
  predicate Usable(be: Backend, p: Probe) {
    && p.inSync.Answered?
    && (be.skipPeerCountCheck || (p.peerCount.Answered? && p.peerCount.value > 0))
    && p.latest.Answered? && p.latest.value.0 > 0
    && p.safe.Answered? && p.safe.value > 0
    && p.finalized.Answered? && p.finalized.value > 0
  }

  /**
   The state tells one probe: sync, peers, hash and time are those of the probe, and the heights
   are the probe's or, after a ban, all zero.
   */
  predicate Tells(be: Backend, bs: BackendState, p: Probe, at: Readings) {
    && Usable(be, p)
    && bs.inSync == p.inSync.value
    && (bs.peerCount == if be.skipPeerCountCheck then 0 else p.peerCount.value)
    && bs.hash == p.latest.value.1
    && bs.lastUpdate == at.stored
    && (|| (bs.latest == p.latest.value.0 && bs.safe == p.safe.value && bs.finalized == p.finalized.value)
        || (bs.latest == 0 && bs.safe == 0 && bs.finalized == 0))
  }

  /**
   An update that records and finds the probe plausible leaves exactly the probe in the state, and
   the ban as it was; the heights are not zero.
   */
  lemma PlausibleProbeIsStored(be: Backend, bs: BackendState, p: Probe, at: Readings, banPeriod: Time)
    requires Records(be, bs, p, at)
    requires be.forcedCandidate ||
      (bs.finalized <= p.finalized.value <= p.safe.value <= p.latest.value.0 && bs.safe <= p.safe.value)
    ensures
      var after := AfterUpdate(be, bs, p, at, banPeriod);
      && Tells(be, after, p, at) && after.bannedUntil == bs.bannedUntil
      && after.latest == p.latest.value.0 > 0 && after.safe == p.safe.value > 0 && after.finalized == p.finalized.value > 0
  {
  }

  /**
   What bans a backend, and until when: an unforced one that is unhealthy, whatever it answers, and
   one whose recorded probe lowers safe or finalized or is out of order; for the period from the
   last clock reading.  An update that does neither record nor ban changes nothing.
   */
  lemma UpdateBansOrIgnores(be: Backend, bs: BackendState, p: Probe, at: Readings, banPeriod: Time)
    requires bs.bannedUntil <= at.checked
    ensures
      var after := AfterUpdate(be, bs, p, at, banPeriod);
      && (!be.forcedCandidate && !p.healthy ==>
            after == bs.(latest := 0, safe := 0, finalized := 0, bannedUntil := at.banned + banPeriod))
      && (!be.forcedCandidate && Records(be, bs, p, at) &&
          !(bs.finalized <= p.finalized.value <= p.safe.value <= p.latest.value.0 && bs.safe <= p.safe.value) ==>
            && Tells(be, after, p, at) && after.bannedUntil == at.banned + banPeriod
            && after.latest == 0 && after.safe == 0 && after.finalized == 0)
      && ((be.forcedCandidate || p.healthy) && !Usable(be, p) ==> after == bs)
  {
  }

  /** What one event does to be: it records a probe, resets, or leaves what is known of sync, peers, hash and time alone. */
  lemma StepTells(s: States, e: Event, be: Backend, banPeriod: Time)
    requires (e.Reset? || e.be in s) && be in s
    ensures
      var bs, after := s[be], Step(s, e, banPeriod)[be];
      if e.Reset? then after == FRESH_STATE
      else if e.be == be && e.Update? && Records(be, bs, e.probe, e.at) then Tells(be, after, e.probe, e.at)
      else
        && after.inSync == bs.inSync && after.peerCount == bs.peerCount && after.hash == bs.hash && after.lastUpdate == bs.lastUpdate
        && (|| (after.latest == bs.latest && after.safe == bs.safe && after.finalized == bs.finalized)
            || (after.latest == 0 && after.safe == 0 && after.finalized == 0))
  {
  }

  /** Event k of the run recorded the probe that be's state tells at the end. */
  ghost predicate ToldBy(s: States, es: seq<Event>, be: Backend, banPeriod: Time, k: nat)
    requires Legal(s.Keys, es) && be in s
  {
    && k < |es| && es[k].Update? && es[k].be == be
    && Records(be, Run(s, es[..k], banPeriod)[be], es[k].probe, es[k].at)
    && Tells(be, Run(s, es, banPeriod)[be], es[k].probe, es[k].at)
  }

  /** Nothing is known of the backend but perhaps a ban. */
  predicate Unknown(bs: BackendState) {
    bs == FRESH_STATE.(bannedUntil := bs.bannedUntil)
  }

  lemma RunSplitsAtLast(s: States, es: seq<Event>, banPeriod: Time)
    requires Legal(s.Keys, es) && es != []
    ensures Run(s, es, banPeriod) == Step(Run(s, es[..|es| - 1], banPeriod), es[|es| - 1], banPeriod)
  {
    if |es| == 1 {
      assert es[..0] == [];
    } else {
      var s1 := Step(s, es[0], banPeriod);
      RunSplitsAtLast(s1, es[1..], banPeriod);
      assert es[1..][..|es| - 2] == es[..|es| - 1][1..];
    }
  }

  /**
   Over every run from a reset poller, what is recorded of a backend is nothing, or exactly what
   one probe of the run said, except that a ban may have zeroed the heights since.
   */
  lemma {:induction false} StateTellsOneProbe(backends: set<Backend>, es: seq<Event>, be: Backend, banPeriod: Time)
    requires Legal(backends, es) && be in backends
    ensures
      var s := FreshStates(backends);
      Unknown(Run(s, es, banPeriod)[be]) || exists k: nat :: ToldBy(s, es, be, banPeriod, k)
  {
    var s := FreshStates(backends);
    if es == [] {
    } else {
      var init, last := es[..|es| - 1], es[|es| - 1];
      var before := Run(s, init, banPeriod);
      StateTellsOneProbe(backends, init, be, banPeriod);
      RunSplitsAtLast(s, es, banPeriod);
      StepTells(before, last, be, banPeriod);
      if last.Update? && last.be == be && Records(be, before[be], last.probe, last.at) {
        assert ToldBy(s, es, be, banPeriod, |es| - 1);
      } else if !last.Reset? && !Unknown(before[be]) {
        var k: nat :| ToldBy(s, init, be, banPeriod, k);
        assert init[..k] == es[..k];
        assert ToldBy(s, es, be, banPeriod, k);
      }
    }
  }

  /** An unbanned backend is not banned, from now on. */
  lemma UnbanLiftsTheBan(bs: BackendState, now: Time, t: Time)
    requires t >= now
    ensures !IsBanned(AfterUnban(bs, now), t)
    ensures AfterUnban(bs, now) == bs.(bannedUntil := now - 10 * 3600 * SECOND)
  {
  }

  /** A backend is given the chance to start from any block after a ban: nothing old is held against its next probe. */
  lemma BanEnds(be: Backend, bs: BackendState, now: Time, p: Probe, at: Readings, banPeriod: Time)
    requires !be.forcedCandidate && at.checked >= now + banPeriod
    requires p.healthy && Complete(be, p)
    requires p.finalized.value <= p.safe.value <= p.latest.value.0
    ensures
      var after := AfterUpdate(be, AfterBan(be, bs, now, banPeriod), p, at, banPeriod);
      after.latest == p.latest.value.0 && after.safe == p.safe.value && after.finalized == p.finalized.value
  {
  }
}
