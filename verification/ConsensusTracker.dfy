/**
 One proxy instance of the shared tracker (consensus_tracker.go): what it serves, whether it
 believes it leads, and how a heartbeat proceeds from one Redis operation to the next.
 */
module ConsensusTracker {
  import opened Wrappers
  import opened Uint64

  datatype Tags = Tags(latest: uint64, safe: uint64, finalized: uint64) {
    predicate Valid() {
      latest > 0 && safe > 0 && finalized > 0
    }

    predicate Behind(other: Tags) {
      latest < other.latest || safe < other.safe || finalized < other.finalized
    }
  }

  const ZERO_TAGS := Tags(0, 0, 0)

  /** The random value under which a lock is held; redsync draws a new one for every lock. */
  type LockValue = nat

  /**
   Where a heartbeat stands between two Redis operations.  `snap` is the local state as the
   heartbeat sees it; `acquired` tells a publication right after taking the lock from one after
   extending it.
   */
  datatype Pc =
    | Idle
    | Extending(val: LockValue, snap: Tags)
    | Releasing
    | Following(val: LockValue)
    | Locking(snap: Tags)
    | PostingState(val: LockValue, snap: Tags, acquired: bool)
    | PostingLeader(val: LockValue, snap: Tags, acquired: bool)

  datatype Instance = Instance(leader: bool, redlock: Option<LockValue>, local: Tags, remote: Tags, pc: Pc)

  const NEW_INSTANCE := Instance(false, None, ZERO_TAGS, ZERO_TAGS, Idle)

  /** GET of the mutex key: the first operation of a heartbeat. */
  function OnReadLock(i: Instance, reply: Reply<Option<LockValue>>): Instance
    requires i.pc.Idle?
  {
    match reply
    case Failed => if i.leader then i.(pc := Releasing) else i
    case Answered(Some(val)) => if i.leader then i.(pc := Extending(val, i.local)) else i.(pc := Following(val))
    case Answered(None) =>
      if !i.local.Valid() || (i.remote.Valid() && i.local.Behind(i.remote)) then i
      else i.(pc := Locking(i.local))
  }

  function OnExtend(i: Instance, ok: bool): Instance
    requires i.pc.Extending?
  {
    if ok then i.(pc := PostingState(i.pc.val, i.pc.snap, false)) else i.(pc := Releasing)
  }

  function OnUnlock(i: Instance, ok: bool): Instance
    requires i.pc.Releasing?
  {
    i.(leader := i.leader && !ok, pc := Idle)
  }

  /** GET of state:val by a follower; a missing key leaves the served state alone. */
  function OnReadState(i: Instance, reply: Reply<Option<Tags>>): Instance
    requires i.pc.Following?
  {
    match reply
    case Answered(Some(tags)) => i.(remote := tags, pc := Idle)
    case _ => i.(pc := Idle)
  }

  /** SET NX of the mutex key; the answer is the lock value on success. */
  function OnLock(i: Instance, reply: Reply<LockValue>): Instance
    requires i.pc.Locking?
  {
    match reply
    case Failed => i.(leader := false, pc := Idle)
    case Answered(v) => i.(leader := true, redlock := Some(v), pc := PostingState(v, i.pc.snap, true))
  }

  function OnPostState(i: Instance, ok: bool): Instance
    requires i.pc.PostingState?
  {
    if ok then i.(pc := PostingLeader(i.pc.val, i.pc.snap, i.pc.acquired)) else i.(leader := false, pc := Idle)
  }

  function OnPostLeader(i: Instance, ok: bool): Instance
    requires i.pc.PostingLeader?
  {
    if ok then i.(remote := i.pc.snap, pc := Idle) else i.(leader := false, pc := Idle)
  }

  /** The answers Redis gives during one heartbeat, whichever of them are asked for. */
  datatype Replies = Replies(
    lock: Reply<Option<LockValue>>, extended: bool, unlocked: bool, state: Reply<Option<Tags>>,
    locked: Reply<LockValue>, postedState: bool, postedLeader: bool)

  function Rank(pc: Pc): nat {
    match pc
    case Idle => 0
    case PostingLeader(_, _, _) => 1
    case PostingState(_, _, _) => 2
    case Releasing => 1
    case Following(_) => 1
    case Extending(_, _) => 3
    case Locking(_) => 3
  }

  /** The next operation of a heartbeat under way. */
  function Advance(i: Instance, r: Replies): (i': Instance)
    ensures !i.pc.Idle? ==> Rank(i'.pc) < Rank(i.pc)
  {
    match i.pc
    case Idle => i
    case Extending(_, _) => OnExtend(i, r.extended)
    case Releasing => OnUnlock(i, r.unlocked)
    case Following(_) => OnReadState(i, r.state)
    case Locking(_) => OnLock(i, r.locked)
    case PostingState(_, _, _) => OnPostState(i, r.postedState)
    case PostingLeader(_, _, _) => OnPostLeader(i, r.postedLeader)
  }

  /** The rest of a heartbeat, up to its end. */
  function Finish(i: Instance, r: Replies): Instance
    decreases Rank(i.pc)
  {
    if i.pc.Idle? then i else Finish(Advance(i, r), r)
  }

  /** No heartbeat takes more than three operations after reading the lock. */
  lemma FinishInThree(i: Instance, r: Replies)
    ensures Finish(i, r) == Advance(Advance(Advance(i, r), r), r)
  {
    var i1 := Advance(i, r);
    var i2 := Advance(i1, r);
    assert Finish(i, r) == Finish(i1, r) == Finish(i2, r) == Finish(Advance(i2, r), r);
  }

  /**
   What a whole heartbeat comes to.  A follower serves what it read under the current lock value; a
   leader serves its local state after extending the lock and publishing; an instance that finds
   the lock free tries for it exactly when its local state is complete and, if the served one is
   complete too, at least as high in all three tags; and in every other case the served state stays.
   */
  lemma HeartbeatOutcome(i: Instance, r: Replies)
    requires i.pc.Idle?
    ensures
      var after := Finish(OnReadLock(i, r.lock), r);
      var published := r.postedState && r.postedLeader;
      && after.pc.Idle? && after.local == i.local
      && match r.lock
         case Failed => after.remote == i.remote && after.leader == (i.leader && !r.unlocked)
         case Answered(Some(val)) =>
           if !i.leader then
             after == if r.state.Answered? && r.state.value.Some? then i.(remote := r.state.value.value) else i
           else if !r.extended then after == i.(leader := !r.unlocked)
           else if published then after == i.(remote := i.local)
           else after == i.(leader := false)
         case Answered(None) =>
           var local, remote := i.local, i.remote;
           var complete := local.latest > 0 && local.safe > 0 && local.finalized > 0;
           var level := local.latest >= remote.latest && local.safe >= remote.safe && local.finalized >= remote.finalized;
           var served := remote.latest > 0 && remote.safe > 0 && remote.finalized > 0;
           if !(complete && (served ==> level)) then after == i
           else if r.locked.Failed? then after == i.(leader := false)
           else after == i.(leader := published, redlock := Some(r.locked.value), remote := if published then i.local else i.remote)
  {
    FinishInThree(OnReadLock(i, r.lock), r);
  }

  /** With the lock free and both states complete, an instance tries for the lock if and only if no tag of its own is lower. */
  lemma TriesForFreeLockIff(i: Instance)
    requires i.pc.Idle?
    requires i.local.latest > 0 && i.local.safe > 0 && i.local.finalized > 0
    requires i.remote.latest > 0 && i.remote.safe > 0 && i.remote.finalized > 0
    ensures OnReadLock(i, Answered(None)).pc.Locking? <==>
      i.local.latest >= i.remote.latest && i.local.safe >= i.remote.safe && i.local.finalized >= i.remote.finalized
  {
  }

  class RedisConsensusTracker {
    var leader: bool
    var redlock: Option<LockValue>
    var local: Tags
    var remote: Tags

    function State(): Instance
      reads this
    {
      Instance(leader, redlock, local, remote, Idle)
    }

    /** A set leader flag always comes with a stored lock, so that extending and releasing have one. */
    predicate Valid()
      reads this
    {
      leader ==> redlock.Some?
    }

    constructor ()
      ensures Valid() && State() == NEW_INSTANCE
    {
      leader, redlock, local, remote := false, None, ZERO_TAGS, ZERO_TAGS;
    }

    /** stateHeartbeat, given what Redis answers. */
    method StateHeartbeat(r: Replies)
      requires Valid()
      modifies this
      ensures Valid()
      ensures State() == Finish(OnReadLock(old(State()), r.lock), r)
      ensures local == old(local)
    {
      FinishInThree(OnReadLock(State(), r.lock), r);
      if r.lock.Failed? {
        if leader {
          if !r.unlocked {
            return;
          }
          leader := false;
        }
        return;
      }
      if r.lock.value.Some? {
        var val := r.lock.value.value;
        if leader {
          if !r.extended {
            if !r.unlocked {
              return;
            }
            leader := false;
            return;
          }
          PostPayload(val, false, r);
        } else {
          if r.state.Failed? || r.state.value.None? {
            return;
          }
          remote := r.state.value.value;
        }
      } else {
        if !local.Valid() {
          return;
        }
        if remote.Valid() && local.Behind(remote) {
          return;
        }
        if r.locked.Failed? {
          leader := false;
          return;
        }
        redlock := Some(r.locked.value);
        leader := true;
        PostPayload(r.locked.value, true, r);
      }
    }

    method PostPayload(val: LockValue, ghost acquired: bool, r: Replies)
      requires Valid()
      modifies this`leader, this`remote
      ensures Valid()
      ensures State() == Finish(old(State()).(pc := PostingState(val, old(local), acquired)), r)
    {
      FinishInThree(State().(pc := PostingState(val, local, acquired)), r);
      if !r.postedState {
        leader := false;
        return;
      }
      if !r.postedLeader {
        leader := false;
        return;
      }
      remote := local;
    }
  }
}
