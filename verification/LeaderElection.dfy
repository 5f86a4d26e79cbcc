/**
 Several proxy instances sharing one Redis (consensus_tracker.go).  Every Redis operation of a
 heartbeat is a step of its own, so heartbeats of different instances, lock expiry and expiry of
 published states interleave freely, and a stale leader may go on believing it leads.

 The lock obeys its specification: it is set only when absent and with a value never used before,
 and is extended or released only by an instance whose stored value matches.  An operation whose
 answer is lost may still have taken effect.
 */
module LeaderElection {
  import opened Wrappers
  import opened ConsensusTracker

  type Id = nat

  /** A value written to state:val, and by whom. */
  datatype Write = Write(val: LockValue, writer: Id, tags: Tags)

  /** Redis, with two histories: who acquired each lock value, and every write of a state key. */
  datatype Redis = Redis(
    lock: Option<LockValue>, states: map<LockValue, Tags>,
    acquirer: map<LockValue, Id>, written: set<Write>)

  datatype World = World(redis: Redis, insts: map<Id, Instance>)

  datatype Step =
    | ExpireLock
    | ExpireState(val: LockValue)
    | Poll(id: Id, tags: Tags)
    | ReadLock(id: Id, ok: bool)
    | Extend(id: Id, ok: bool)
    | Unlock(id: Id, deleted: bool, ok: bool)
    | ReadState(id: Id, ok: bool)
    | Lock(id: Id, val: LockValue, taken: bool, ok: bool)
    | PostState(id: Id, written: bool, ok: bool)
    | PostLeader(id: Id, ok: bool)

  predicate Internal(st: Step) {
    st.ExpireLock? || st.ExpireState?
  }

  predicate HoldsLock(r: Redis, i: Instance) {
    r.lock.Some? && r.lock == i.redlock
  }

  predicate Enabled(w: World, st: Step) {
    (!Internal(st) ==> st.id in w.insts) &&
    match st
    case ExpireLock => true
    case ExpireState(_) => true
    case Poll(_, _) => true
    case ReadLock(id, _) => w.insts[id].pc.Idle?
    case Extend(id, ok) => w.insts[id].pc.Extending? && (ok ==> HoldsLock(w.redis, w.insts[id]))
    case Unlock(id, deleted, ok) => w.insts[id].pc.Releasing? && (ok ==> deleted) && (deleted ==> HoldsLock(w.redis, w.insts[id]))
    case ReadState(id, _) => w.insts[id].pc.Following?
    case Lock(id, val, taken, ok) =>
      w.insts[id].pc.Locking? && (ok ==> taken) && (taken ==> w.redis.lock.None?) && val !in w.redis.acquirer
    case PostState(id, written, ok) => w.insts[id].pc.PostingState? && (ok ==> written)
    case PostLeader(id, _) => w.insts[id].pc.PostingLeader?
  }

  function NextRedis(w: World, st: Step): Redis
    requires Enabled(w, st)
  {
    var r := w.redis;
    match st
    case ExpireLock => r.(lock := None)
    case ExpireState(val) => r.(states := r.states - {val})
    case Unlock(_, deleted, _) => if deleted then r.(lock := None) else r
    case Lock(id, val, taken, _) => if taken then r.(lock := Some(val), acquirer := r.acquirer[val := id]) else r
    case PostState(id, written, _) =>
      var pc := w.insts[id].pc;
      if written then r.(states := r.states[pc.val := pc.snap], written := r.written + {Write(pc.val, id, pc.snap)}) else r
    case _ => r
  }

  function Stored(r: Redis, val: LockValue): Option<Tags> {
    if val in r.states then Some(r.states[val]) else None
  }

  function NextInstance(w: World, st: Step): Instance
    requires Enabled(w, st) && !Internal(st)
  {
    var i := w.insts[st.id];
    match st
    case Poll(_, tags) => i.(local := tags)
    case ReadLock(_, ok) => OnReadLock(i, if ok then Answered(w.redis.lock) else Failed)
    case Extend(_, ok) => OnExtend(i, ok)
    case Unlock(_, _, ok) => OnUnlock(i, ok)
    case ReadState(_, ok) => OnReadState(i, if ok then Answered(Stored(w.redis, i.pc.val)) else Failed)
    case Lock(_, val, _, ok) => OnLock(i, if ok then Answered(val) else Failed)
    case PostState(_, _, ok) => OnPostState(i, ok)
    case PostLeader(_, ok) => OnPostLeader(i, ok)
  }

  function Next(w: World, st: Step): World
    requires Enabled(w, st)
  {
    World(NextRedis(w, st), if Internal(st) then w.insts else w.insts[st.id := NextInstance(w, st)])
  }

  /** A run from w: every step enabled where it is taken. */
  ghost predicate IsRun(w: World, sts: seq<Step>)
    decreases sts
  {
    sts == [] || (Enabled(w, sts[0]) && IsRun(Next(w, sts[0]), sts[1..]))
  }

  function Run(w: World, sts: seq<Step>): World
    requires IsRun(w, sts)
    decreases sts
  {
    if sts == [] then w else Run(Next(w, sts[0]), sts[1..])
  }

  ghost predicate Initial(w: World) {
    w.redis == Redis(None, map[], map[], {}) && forall id | id in w.insts :: w.insts[id] == NEW_INSTANCE
  }

  // ---------------------------------------------------------------- the invariant

  predicate AcquiredBy(r: Redis, val: LockValue, id: Id) {
    val in r.acquirer && r.acquirer[val] == id
  }

  predicate RedisInv(r: Redis) {
    && (r.lock.Some? ==> r.lock.value in r.acquirer)
    && (forall wr | wr in r.written :: AcquiredBy(r, wr.val, wr.writer))
    && (forall val | val in r.states :: val in r.acquirer && Write(val, r.acquirer[val], r.states[val]) in r.written)
  }

  ghost predicate Provenance(r: Redis, tags: Tags) {
    tags == ZERO_TAGS || exists wr :: wr in r.written && wr.tags == tags && AcquiredBy(r, wr.val, wr.writer)
  }

  /** The state a new leader is about to publish: complete, and not behind the complete state it serves. */
  predicate TakeoverSafe(i: Instance, snap: Tags) {
    snap.Valid() && (i.remote.Valid() ==> !snap.Behind(i.remote))
  }

  ghost predicate InstanceInv(r: Redis, id: Id, i: Instance) {
    && (i.leader ==> i.redlock.Some?)
    && (i.redlock.Some? ==> AcquiredBy(r, i.redlock.value, id))
    && Provenance(r, i.remote)
    && match i.pc
       case Idle => true
       case Extending(val, _) => i.leader && (i.redlock == Some(val) || r.lock != i.redlock)
       case Releasing => i.leader
       case Following(val) => !i.leader && val in r.acquirer
       case Locking(snap) => TakeoverSafe(i, snap)
       case PostingState(val, snap, acquired) => i.leader && i.redlock == Some(val) && (acquired ==> TakeoverSafe(i, snap))
       case PostingLeader(val, snap, acquired) =>
         i.leader && i.redlock == Some(val) && Write(val, id, snap) in r.written && (acquired ==> TakeoverSafe(i, snap))
  }

  ghost predicate Inv(w: World) {
    RedisInv(w.redis) && forall id | id in w.insts :: InstanceInv(w.redis, id, w.insts[id])
  }

  /** How Redis changes in one step: histories grow, and the lock stays, goes, or gets a value never seen before. */
  predicate Evolves(r: Redis, r': Redis) {
    && (forall val | val in r.acquirer :: val in r'.acquirer && r'.acquirer[val] == r.acquirer[val])
    && r.written <= r'.written
    && (r'.lock == r.lock || r'.lock.None? || r'.lock.value !in r.acquirer)
  }

  lemma RedisStepKeepsInv(w: World, st: Step)
    requires Inv(w) && Enabled(w, st)
    ensures RedisInv(NextRedis(w, st)) && Evolves(w.redis, NextRedis(w, st))
  {
  }

  lemma BystanderKeepsInv(r: Redis, r': Redis, id: Id, i: Instance)
    requires InstanceInv(r, id, i) && Evolves(r, r')
    ensures InstanceInv(r', id, i)
  {
  }

  lemma ActorKeepsInv(w: World, st: Step)
    requires Inv(w) && Enabled(w, st) && !Internal(st)
    ensures InstanceInv(NextRedis(w, st), st.id, NextInstance(w, st))
  {
  }

  lemma StepKeepsInv(w: World, st: Step)
    requires Inv(w) && Enabled(w, st)
    ensures Inv(Next(w, st))
  {
    RedisStepKeepsInv(w, st);
    var w' := Next(w, st);
    forall id | id in w'.insts ensures InstanceInv(w'.redis, id, w'.insts[id]) {
      if !Internal(st) && id == st.id {
        ActorKeepsInv(w, st);
      } else {
        BystanderKeepsInv(w.redis, w'.redis, id, w.insts[id]);
      }
    }
  }

  lemma {:induction false} RunKeepsInv(w: World, sts: seq<Step>)
    requires Inv(w) && IsRun(w, sts)
    ensures Inv(Run(w, sts))
    decreases sts
  {
    if sts == [] {
    } else {
      StepKeepsInv(w, sts[0]);
      RunKeepsInv(Next(w, sts[0]), sts[1..]);
    }
  }

  lemma {:induction false} ReachableInv(w0: World, sts: seq<Step>)
    requires Initial(w0) && IsRun(w0, sts)
    ensures Inv(Run(w0, sts))
  {
    assert Inv(w0);
    RunKeepsInv(w0, sts);
  }

  // ---------------------------------------------------------------- what the protocol promises

  /**
   Provenance over all interleavings: a state key is only ever written by the instance that
   acquired its lock value, and every instance serves the initial zeros or a triple published by
   the acquirer of some lock value.
   */
  lemma ServedStateHasProvenance(w0: World, sts: seq<Step>)
    requires Initial(w0) && IsRun(w0, sts)
    ensures
      var w := Run(w0, sts);
      && (forall wr | wr in w.redis.written :: AcquiredBy(w.redis, wr.val, wr.writer))
      && (forall id | id in w.insts :: Provenance(w.redis, w.insts[id].remote))
      && (forall id | id in w.insts :: w.insts[id].leader ==> w.insts[id].redlock.Some?)
  {
    ReachableInv(w0, sts);
    var w := Run(w0, sts);
    forall id | id in w.insts
      ensures Provenance(w.redis, w.insts[id].remote) && (w.insts[id].leader ==> w.insts[id].redlock.Some?)
    {
      assert InstanceInv(w.redis, id, w.insts[id]);
    }
  }

  /** At most one instance holds the lock at any time, however many believe they lead. */
  lemma OneHolder(w0: World, sts: seq<Step>, id: Id, id': Id)
    requires Initial(w0) && IsRun(w0, sts)
    requires
      var w := Run(w0, sts);
      id in w.insts && id' in w.insts && HoldsLock(w.redis, w.insts[id]) && HoldsLock(w.redis, w.insts[id'])
    ensures id == id'
  {
    ReachableInv(w0, sts);
    var w := Run(w0, sts);
    assert InstanceInv(w.redis, id, w.insts[id]) && InstanceInv(w.redis, id', w.insts[id']);
  }

  /**
   Taking the lock over does not regress: in the heartbeat that acquired the lock, whatever the
   others do meanwhile, the step that changes the served state makes all three tags positive and,
   if the state served before was complete, lowers none of them.
   */
  lemma TakeoverDoesNotRegress(w0: World, sts: seq<Step>, id: Id, ok: bool)
    requires Initial(w0) && IsRun(w0, sts)
    requires
      var w := Run(w0, sts);
      id in w.insts && w.insts[id].pc.PostingLeader? && w.insts[id].pc.acquired
    ensures
      var w := Run(w0, sts);
      var before, after := w.insts[id], NextInstance(w, PostLeader(id, ok));
      if ok then
        && after.remote.Valid() && after.leader
        && (before.remote.Valid() ==>
              && after.remote.latest >= before.remote.latest
              && after.remote.safe >= before.remote.safe
              && after.remote.finalized >= before.remote.finalized)
      else after.remote == before.remote && !after.leader
  {
    ReachableInv(w0, sts);
    var w := Run(w0, sts);
    assert InstanceInv(w.redis, id, w.insts[id]);
  }

  /**
   What is published is followed: a follower that reads the lock and the state after a leader has
   posted under the lock serves exactly what the leader posted, as the leader does.
   */
  lemma FollowerServesWhatWasPosted(w: World, leader: Id, follower: Id)
    requires leader in w.insts && follower in w.insts && leader != follower
    requires w.insts[leader].pc.PostingState? && w.redis.lock == Some(w.insts[leader].pc.val)
    requires w.insts[follower].pc.Idle? && !w.insts[follower].leader
    ensures
      var w1 := Next(w, PostState(leader, true, true));
      var w2 := Next(w1, PostLeader(leader, true));
      var w3 := Next(w2, ReadLock(follower, true));
      var w4 := Next(w3, ReadState(follower, true));
      && w4.insts[follower].remote == w.insts[leader].pc.snap && w4.insts[leader].remote == w.insts[leader].pc.snap
      && w4.insts[follower].pc.Idle? && w4.redis.lock == w.redis.lock
  {
  }

  /** A state that has expired is not followed: the follower goes on serving what it had. */
  lemma ExpiredStateIsNotFollowed(w: World, follower: Id)
    requires follower in w.insts && w.insts[follower].pc.Following?
    ensures
      var w1 := Next(w, ExpireState(w.insts[follower].pc.val));
      var w2 := Next(w1, ReadState(follower, true));
      w2.insts[follower] == w.insts[follower].(pc := Idle)
  {
  }

  /** A lock that is released, or that expires, is free for the next instance. */
  lemma ReleasedLockIsFree(w: World, id: Id)
    requires id in w.insts && w.insts[id].pc.Releasing? && HoldsLock(w.redis, w.insts[id])
    ensures
      var w' := Next(w, Unlock(id, true, true));
      w'.redis.lock == None && !w'.insts[id].leader && Next(w, ExpireLock).redis.lock == None
  {
  }

  /**
   An instance that believes it leads under a lock value that is no longer the lock, wherever in
   its heartbeat it stands; only one that has just found the lock absent, and is about to take it,
   is not counted.
   */
  predicate Stale(w: World, id: Id) {
    && id in w.insts
    && var i := w.insts[id];
       i.leader && i.redlock.Some? && w.redis.lock != i.redlock && !i.pc.Locking?
  }

  /** The snapshot an instance is in the middle of publishing. */
  function Pending(i: Instance): set<Tags> {
    if i.pc.PostingState? || i.pc.PostingLeader? then {i.pc.snap} else {}
  }

  /** No step of the run lets id find the lock absent. */
  ghost predicate NeverSeesLockFree(w: World, sts: seq<Step>, id: Id)
    requires IsRun(w, sts)
    decreases sts
  {
    sts == [] ||
    (!(sts[0] == ReadLock(id, true) && w.redis.lock.None?) && NeverSeesLockFree(Next(w, sts[0]), sts[1..], id))
  }

  /** An instance without the power to publish anything but what is pending: a stale leader or no leader, not about to take the lock. */
  predicate Powerless(w: World, id: Id) {
    id in w.insts && !w.insts[id].pc.Locking? && (w.insts[id].leader ==> Stale(w, id))
  }

  /** What id has written in w' and not yet in w was pending in w. */
  predicate WritesOnlyPending(w: World, w': World, id: Id)
    requires id in w.insts
  {
    forall wr | wr in w'.redis.written && wr !in w.redis.written && wr.writer == id :: wr.tags in Pending(w.insts[id])
  }

  /** What w' may differ in from w as far as a powerless instance goes. */
  predicate NothingNew(w: World, w': World, id: Id)
    requires id in w.insts && id in w'.insts
  {
    var i, i' := w.insts[id], w'.insts[id];
    && (i'.leader ==> i.leader && i'.remote in {i.remote} + Pending(i))
    && Pending(i') <= Pending(i)
    && WritesOnlyPending(w, w', id)
  }

  lemma PowerlessStep(w: World, st: Step, id: Id)
    requires Inv(w) && Powerless(w, id) && Enabled(w, st)
    requires !(st == ReadLock(id, true) && w.redis.lock.None?)
    ensures Powerless(Next(w, st), id) && NothingNew(w, Next(w, st), id)
  {
    assert InstanceInv(w.redis, id, w.insts[id]);
    RedisStepKeepsInv(w, st);
  }

  lemma NothingNewChains(w: World, w': World, w'': World, id: Id)
    requires id in w.insts && id in w'.insts && id in w''.insts
    requires NothingNew(w, w', id) && NothingNew(w', w'', id)
    ensures NothingNew(w, w'', id)
  {
  }

  lemma {:induction false} PowerlessRun(w: World, sts: seq<Step>, id: Id)
    requires Inv(w) && Powerless(w, id)
    requires IsRun(w, sts) && NeverSeesLockFree(w, sts, id)
    ensures Powerless(Run(w, sts), id) && NothingNew(w, Run(w, sts), id)
    decreases sts
  {
    if sts == [] {
    } else {
      var w1 := Next(w, sts[0]);
      PowerlessStep(w, sts[0], id);
      StepKeepsInv(w, sts[0]);
      PowerlessRun(w1, sts[1..], id);
      NothingNewChains(w, w1, Run(w, sts), id);
    }
  }

  /**
   A leader that has lost its lock, at whatever point of its heartbeat, starts no publication and
   does not follow until it finds the lock absent: all it writes is the one snapshot it was
   already publishing, if any, and as long as it believes it leads it serves what it served before
   or that snapshot.
   */
  lemma StaleLeaderStartsNothing(w: World, sts: seq<Step>, id: Id)
    requires Inv(w) && Stale(w, id)
    requires IsRun(w, sts) && NeverSeesLockFree(w, sts, id)
    ensures id in Run(w, sts).insts
    ensures
      var i, i' := w.insts[id], Run(w, sts).insts[id];
      && (i'.leader ==> Stale(Run(w, sts), id) && i'.remote in {i.remote} + Pending(i))
      && Pending(i') <= Pending(i)
      && WritesOnlyPending(w, Run(w, sts), id)
  {
    PowerlessRun(w, sts, id);
  }

  /** In particular one that is not publishing serves exactly the triple it had. */
  lemma StaleLeaderIsFrozen(w: World, sts: seq<Step>, id: Id)
    requires Inv(w) && Stale(w, id) && Pending(w.insts[id]) == {}
    requires IsRun(w, sts) && NeverSeesLockFree(w, sts, id)
    ensures id in Run(w, sts).insts
    ensures
      var i, i' := w.insts[id], Run(w, sts).insts[id];
      i'.leader ==> Stale(Run(w, sts), id) && i'.remote == i.remote
  {
    StaleLeaderStartsNothing(w, sts, id);
  }

  lemma Prepended(w: World, st: Step, sts: seq<Step>) returns (all: seq<Step>)
    requires Enabled(w, st) && IsRun(Next(w, st), sts)
    ensures IsRun(w, all) && Run(w, all) == Run(Next(w, st), sts) && all != [] && all[0] == st && all[1..] == sts
  {
    all := [st] + sts;
    assert all[1..] == sts;
  }

  /** A new instance has taken the lock with these tags, and is about to publish them. */
  function LockTaken(tags: Tags): World {
    World(
      Redis(Some(0), map[], map[0 := 0], {}),
      map[0 := Instance(true, Some(0), tags, ZERO_TAGS, PostingState(0, tags, true))])
  }

  /** A run to there, and on. */
  lemma TakesTheLock(tags: Tags, rest: seq<Step>) returns (w0: World, sts: seq<Step>)
    requires tags.Valid() && IsRun(LockTaken(tags), rest)
    ensures Initial(w0) && IsRun(w0, sts) && Run(w0, sts) == Run(LockTaken(tags), rest)
  {
    w0 := World(Redis(None, map[], map[], {}), map[0 := NEW_INSTANCE]);
    var w1 := Next(w0, Poll(0, tags));
    var w2 := Next(w1, ReadLock(0, true));
    assert Next(w2, Lock(0, 0, true, true)) == LockTaken(tags);
    sts := Prepended(w2, Lock(0, 0, true, true), rest);
    sts := Prepended(w1, ReadLock(0, true), sts);
    sts := Prepended(w0, Poll(0, tags), sts);
  }

  /** An instance takes the lock and publishes; the lock expires before its next heartbeat. */
  lemma LeaderBecomesStale(tags: Tags) returns (w0: World, sts: seq<Step>)
    requires tags.Valid()
    ensures Initial(w0) && IsRun(w0, sts)
    ensures
      var w := Run(w0, sts);
      Stale(w, 0) && Pending(w.insts[0]) == {} && w.insts[0].remote == tags
  {
    var w := LockTaken(tags);
    var w1 := Next(w, PostState(0, true, true));
    var w2 := Next(w1, PostLeader(0, true));
    var rest := Prepended(w2, ExpireLock, []);
    rest := Prepended(w1, PostLeader(0, true), rest);
    rest := Prepended(w, PostState(0, true, true), rest);
    w0, sts := TakesTheLock(tags, rest);
  }

  /**
   The lock expires in the middle of a publication: the leader is stale and serves zeros, and it
   publishes and serves its snapshot all the same, without having read the lock again.
   */
  lemma StaleLeaderFinishesPublishing(tags: Tags) returns (w0: World, sts: seq<Step>, tail: seq<Step>)
    requires tags.Valid()
    ensures Initial(w0) && IsRun(w0, sts) && IsRun(Run(w0, sts), tail)
    ensures
      var w := Run(w0, sts);
      var w' := Run(w, tail);
      && Stale(w, 0) && w.insts[0].remote == ZERO_TAGS && Pending(w.insts[0]) == {tags} && NeverSeesLockFree(w, tail, 0)
      && Stale(w', 0) && w'.insts[0].remote == tags && Write(0, 0, tags) in w'.redis.written
  {
    var w := LockTaken(tags);
    var w1 := Next(w, ExpireLock);
    var w2 := Next(w1, PostState(0, true, true));
    sts := Prepended(w, ExpireLock, []);
    w0, sts := TakesTheLock(tags, sts);
    tail := Prepended(w2, PostLeader(0, true), []);
    assert NeverSeesLockFree(w2, tail, 0);
    tail := Prepended(w1, PostState(0, true, true), tail);
  }
}
