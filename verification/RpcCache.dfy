/**
 The response cache (cache.go, methods.go) and the way requests reach it (server.go, backend.go):
 a request is looked up as the client sent it, rewritten and translated in place on its way to a
 backend, and stored as it was sent.
 */
module RpcCache {
  import opened Wrappers

  /** A JSON result: an array, any other value, or the wrapper put around translated receipts. */
  datatype Result = Array(items: seq<string>) | Value(text: string) | Wrapped(target: string, inner: Result)

  /** Something a backend answered to exactly this method and params. */
  datatype Answer = Answer(name: string, params: string, result: Result)

  const CONSENSUS_GET_RECEIPTS := "consensus_getReceipts"
  const DEBUG_GET_RAW_RECEIPTS := "debug_getRawReceipts"

  const STATIC_METHODS: set<string> := {
    "eth_chainId", "net_version", "eth_getBlockTransactionCountByHash", "eth_getUncleCountByBlockHash",
    "eth_getBlockByHash", "eth_getTransactionByBlockHashAndIndex", "eth_getUncleByBlockHashAndIndex"}

  const RECEIPTS_TARGETS: set<string> := {
    DEBUG_GET_RAW_RECEIPTS, "eth_getBlockReceipts", "parity_getBlockReceipts", "alchemy_getTransactionReceipts"}

  // ---------------------------------------------------------------- keys

  /** SHA-256 in hex, as far as it matters here: 64 characters.  Different params may well share them. */
  ghost predicate IsSignature(sig: string -> string) {
    forall p :: |sig(p)| == 64
  }

  function Key(sig: string -> string, name: string, params: string): string {
    "cache:" + name + ":" + sig(params)
  }

  /** Two requests share a key exactly when method and signature are the same, even for method names with colons in them. */
  lemma SameKeyIff(sig: string -> string, name: string, params: string, name': string, params': string)
    requires IsSignature(sig)
    ensures Key(sig, name, params) == Key(sig, name', params') <==> name == name' && sig(params) == sig(params')
  {
    var k, k' := Key(sig, name, params), Key(sig, name', params');
    assert k[6..6 + |name|] == name && k'[6..6 + |name'|] == name';
    assert k[|k| - 64..] == sig(params) && k'[|k'| - 64..] == sig(params');
  }

  /** For any params there is a signature that nothing else shares with them. */
  lemma SignatureExists(params: string) returns (sig: string -> string)
    ensures IsSignature(sig) && forall p :: sig(p) == sig(params) ==> p == params
  {
    var zeros, ones := seq(64, _ => '0'), seq(64, _ => '1');
    assert zeros[0] != ones[0];
    sig := p => if p == params then ones else zeros;
  }

  // ---------------------------------------------------------------- requests

  class Request {
    var name: string
    var params: string

    constructor (name: string, params: string)
      ensures this.name == name && this.params == params
    {
      this.name, this.params := name, params;
    }
  }

  /** What one backend does with a request: its receipts target, and its result, if it gave one (an RPC error and null are none), or failure. */
  datatype Backend = Backend(receiptsTarget: string, answer: Reply<Option<Result>>)

  /** The failures of the two cache layers during one operation. */
  datatype Faults = Faults(primary: bool, secondary: bool)

  function Lookup(layer: map<string, Result>, key: string): Option<Result> {
    if key in layer then Some(layer[key]) else None
  }

  /** Backends answer with JSON, never with the proxy's own wrapper. */
  predicate WellTyped(backends: seq<Backend>) {
    forall k | 0 <= k < |backends| ::
      backends[k].answer.Answered? && backends[k].answer.value.Some? ==> !backends[k].answer.value.value.Wrapped?
  }

  /** A request as it stands at some moment. */
  datatype Form = Form(name: string, params: string)

  class RPCCache {
    const sig: string -> string
    /** The params are a list of exactly one block hash. */
    const oneHash: string -> bool
    /** The params of a receipts request can be read, and what they become for a given target. */
    const readable: string -> bool
    const translate: (string, string) -> string

    var primary: map<string, Result>
    var secondary: map<string, Result>

    /** Every answer any backend ever gave. */
    ghost var given: set<Answer>

    ghost predicate Faithful(layer: map<string, Result>)
      reads this`given
    {
      forall k | k in layer :: exists a :: a in given && k == Key(sig, a.name, a.params) && layer[k] == a.result && MayBeHeld(a)
    }

    /** The cache may hold this answer: it is not wrapped, its method is one of eight, and raw receipts are by hash and not empty. */
    predicate MayBeHeld(a: Answer) {
      && !a.result.Wrapped?
      && a.name in {
        "eth_chainId", "net_version", "eth_getBlockTransactionCountByHash", "eth_getUncleCountByBlockHash",
        "eth_getBlockByHash", "eth_getTransactionByBlockHashAndIndex", "eth_getUncleByBlockHashAndIndex",
        "debug_getRawReceipts"}
      && (a.name == "debug_getRawReceipts" ==> oneHash(a.params) && a.result.Array? && |a.result.items| > 0)
    }

    /** No backend has answered other params with the signature of these. */
    ghost predicate NoCollision(params: string)
      reads this`given
    {
      forall a | a in given :: sig(a.params) == sig(params) ==> a.params == params
    }

    /** A backend gave this result to that method, for params with this signature. */
    ghost predicate GivenFor(name: string, params: string, result: Result)
      reads this`given
    {
      exists a :: a in given && a.name == name && sig(a.params) == sig(params) && a.result == result
    }

    /** Whatever either layer holds is an unwrapped answer a backend gave to a request of its key. */
    ghost predicate Valid()
      reads this
    {
      IsSignature(sig) && Faithful(primary) && Faithful(secondary)
    }

    constructor (sig: string -> string, oneHash: string -> bool, readable: string -> bool, translate: (string, string) -> string)
      requires IsSignature(sig)
      ensures Valid() && given == {} && primary == map[] && secondary == map[]
    {
      this.sig, this.oneHash, this.readable, this.translate := sig, oneHash, readable, translate;
      primary, secondary, given := map[], map[], {};
    }

    /** Entries expire or are evicted from either layer at any time. */
    method Evict(fromPrimary: set<string>, fromSecondary: set<string>)
      requires Valid()
      modifies this`primary, this`secondary
      ensures Valid()
      ensures primary == old(primary) - fromPrimary && secondary == old(secondary) - fromSecondary
    {
      primary, secondary := primary - fromPrimary, secondary - fromSecondary;
    }

    /** fallbackCache.Get: the second layer answers only when the first one fails. */
    method Get(key: string, f: Faults) returns (r: Reply<Option<Result>>)
      ensures !f.primary ==> r == Answered(Lookup(primary, key))
      ensures f.primary && !f.secondary ==> r == Answered(Lookup(secondary, key))
      ensures f.primary && f.secondary ==> r.Failed?
    {
      if f.primary {
        if f.secondary {
          return Failed;
        }
        return Answered(Lookup(secondary, key));
      }
      return Answered(Lookup(primary, key));
    }

    /** fallbackCache.Put */
    method Put(key: string, value: Result, f: Faults)
      modifies this`primary, this`secondary
      ensures primary == if f.primary then old(primary) else old(primary)[key := value]
      ensures secondary == if f.primary && !f.secondary then old(secondary)[key := value] else old(secondary)
    {
      if f.primary {
        if !f.secondary {
          secondary := secondary[key := value];
        }
        return;
      }
      primary := primary[key := value];
    }

    predicate Cacheable(name: string, params: string) {
      name in STATIC_METHODS || (name == DEBUG_GET_RAW_RECEIPTS && oneHash(params))
    }

    /** The response filter: receipts only as a non-empty array. */
    predicate Storable(name: string, result: Result) {
      name == DEBUG_GET_RAW_RECEIPTS ==> result.Array? && |result.items| > 0
    }

    /** The entry a lookup of this request finds: in the first layer or, when that fails, in the second. */
    function Entry(q: Form, f: Faults): Option<Result>
      reads this`primary, this`secondary
    {
      if !Cacheable(q.name, q.params) || (f.primary && f.secondary) then None
      else Lookup(if f.primary then secondary else primary, Key(sig, q.name, q.params))
    }

    /** Which requests are looked up: those of seven methods that name their block by hash or none, and raw receipts of one block hash. */
    lemma CacheableIff(name: string, params: string)
      ensures Cacheable(name, params) <==>
        || name in {
             "eth_chainId", "net_version", "eth_getBlockTransactionCountByHash", "eth_getUncleCountByBlockHash",
             "eth_getBlockByHash", "eth_getTransactionByBlockHashAndIndex", "eth_getUncleByBlockHashAndIndex"}
        || (name == "debug_getRawReceipts" && oneHash(params))
    {
    }

    /** Which answers are stored: all but raw receipts that are no array or an empty one. */
    lemma StorableIff(name: string, result: Result)
      ensures Storable(name, result) <==> name != "debug_getRawReceipts" || (result.Array? && result.items != [])
    {
    }

    /** GetRPC: a hit is an answer some backend gave to this method, and to exactly these params unless signatures collide. */
    method GetRPC(req: Request, f: Faults) returns (hit: Option<Result>)
      requires Valid()
      ensures hit == Entry(Form(req.name, req.params), f)
      ensures hit.Some? ==> GivenFor(req.name, req.params, hit.value) && !hit.value.Wrapped?
      ensures hit.Some? && req.name == "debug_getRawReceipts" ==> oneHash(req.params) && hit.value.Array? && |hit.value.items| > 0
      ensures hit.Some? && NoCollision(req.params) ==> Answer(req.name, req.params, hit.value) in given
    {
      if !Cacheable(req.name, req.params) {
        return None;
      }
      var key := Key(sig, req.name, req.params);
      var r := Get(key, f);
      if r.Failed? {
        return None;
      }
      hit := r.value;
      if hit.Some? {
        ghost var a :| a in given && key == Key(sig, a.name, a.params) && hit.value == a.result && MayBeHeld(a);
        SameKeyIff(sig, req.name, req.params, a.name, a.params);
        assert NoCollision(req.params) ==> a == Answer(req.name, req.params, hit.value);
      }
    }

    /** A layer after a store that reached it. */
    function AfterPut(layer: map<string, Result>, q: Form, result: Result): map<string, Result> {
      if Cacheable(q.name, q.params) && Storable(q.name, result) then layer[Key(sig, q.name, q.params) := result] else layer
    }

    /**
     Signatures are all the cache goes by: what was stored for a request is found by exactly the
     requests of its method and signature.
     */
    lemma StoredIsFoundIff(q: Form, result: Result, q': Form)
      requires IsSignature(sig) && Cacheable(q.name, q.params) && Storable(q.name, result)
      ensures Key(sig, q'.name, q'.params) in AfterPut(map[], q, result) <==> q'.name == q.name && sig(q'.params) == sig(q.params)
    {
      SameKeyIff(sig, q.name, q.params, q'.name, q'.params);
    }

    /** PutRPC with the request as it is now. */
    method PutRPC(req: Request, result: Result, f: Faults)
      requires Valid()
      requires result.Wrapped? ==> req.name in RECEIPTS_TARGETS
      requires Cacheable(req.name, req.params) && !result.Wrapped? ==> Answer(req.name, req.params, result) in given
      modifies this`primary, this`secondary
      ensures Valid()
      ensures result.Wrapped? ==> primary == old(primary) && secondary == old(secondary)
      ensures primary == if f.primary then old(primary) else AfterPut(old(primary), Form(req.name, req.params), result)
      ensures secondary == if f.primary && !f.secondary then AfterPut(old(secondary), Form(req.name, req.params), result) else old(secondary)
    {
      if !Cacheable(req.name, req.params) || !Storable(req.name, result) {
        return;
      }
      assert MayBeHeld(Answer(req.name, req.params, result));
      Put(Key(sig, req.name, req.params), result, f);
    }

    /** A receipts request this backend can take: not part of a batch, a known target, a readable parameter. */
    predicate Translatable(isBatch: bool, target: string, params: string) {
      !isBatch && readable(params) && target in RECEIPTS_TARGETS
    }

    /** The request as this backend leaves it: a receipts request is renamed, and translated if that is possible. */
    function Left(q: Form, isBatch: bool, be: Backend): Form {
      if q.name != CONSENSUS_GET_RECEIPTS || isBatch then q
      else if Translatable(isBatch, be.receiptsTarget, q.params) then Form(be.receiptsTarget, translate(be.receiptsTarget, q.params))
      else Form(be.receiptsTarget, q.params)
    }

    /** The refusals that stop the search for a backend: receipts in a batch, and a target the proxy does not know. */
    predicate Stops(q: Form, isBatch: bool, be: Backend) {
      q.name == CONSENSUS_GET_RECEIPTS && (isBatch || (readable(q.params) && be.receiptsTarget !in RECEIPTS_TARGETS))
    }

    /** What comes back from this backend: its own answer, wrapped if this backend translated the request. */
    function Given(q: Form, isBatch: bool, be: Backend): Reply<Option<Result>> {
      if q.name != CONSENSUS_GET_RECEIPTS then be.answer
      else if be.answer.Failed? || !Translatable(isBatch, be.receiptsTarget, q.params) then Failed
      else Answered(Some(Wrapped(be.receiptsTarget, if be.answer.value.Some? then be.answer.value.value else Value("null"))))
    }

    /**
     doForward for a single request: a receipts request is translated in place to the backend's
     own method, then sent, and its answer comes back wrapped; any other request is sent as it is.
     */
    method DoForward(req: Request, isBatch: bool, be: Backend) returns (fatal: bool, res: Reply<Option<Result>>)
      requires Valid() && WellTyped([be])
      modifies req, this`given
      ensures Valid()
      ensures Form(req.name, req.params) == Left(old(Form(req.name, req.params)), isBatch, be)
      ensures fatal == Stops(old(Form(req.name, req.params)), isBatch, be)
      ensures res == Given(old(Form(req.name, req.params)), isBatch, be)
      ensures res.Answered? && res.value.Some? ==>
        if res.value.value.Wrapped? then req.name in RECEIPTS_TARGETS
        else Answer(req.name, req.params, res.value.value) in given
      ensures given == old(given) + if res.Answered? && be.answer.value.Some? then {Answer(req.name, req.params, be.answer.value.value)} else {}
    {
      assert [be][0] == be;
      fatal := false;
      var translated := false;
      if req.name == CONSENSUS_GET_RECEIPTS {
        if isBatch {
          return true, Failed;
        }
        translated := true;
        req.name := be.receiptsTarget;
        if !readable(req.params) {
          return false, Failed;
        }
        if req.name !in RECEIPTS_TARGETS {
          return true, Failed;
        }
        req.params := translate(req.name, req.params);
      }
      if be.answer.Failed? {
        return false, Failed;
      }
      if be.answer.value.None? {
        return false, Answered(if translated then Some(Wrapped(req.name, Value("null"))) else None);
      }
      var result := be.answer.value.value;
      given := given + {Answer(req.name, req.params, result)};
      res := Answered(Some(if translated then Wrapped(req.name, result) else result));
    }

    // ------------------------------------------------------------ failover

    /** The request as backend k finds it, after the backends before it have had it. */
    function Found(q: Form, isBatch: bool, backends: seq<Backend>, k: nat): Form
      requires k <= |backends|
    {
      if k == 0 then q else Left(Found(q, isBatch, backends, k - 1), isBatch, backends[k - 1])
    }

    /** Backend k neither answers nor stops the search. */
    predicate PassedOver(q: Form, isBatch: bool, backends: seq<Backend>, k: nat)
      requires k < |backends|
    {
      var f := Found(q, isBatch, backends, k);
      !Stops(f, isBatch, backends[k]) && Given(f, isBatch, backends[k]).Failed?
    }

    /** The first k backends are passed over. */
    predicate AllPassedOver(q: Form, isBatch: bool, backends: seq<Backend>, k: nat)
      requires k <= |backends|
    {
      forall j | 0 <= j < k :: PassedOver(q, isBatch, backends, j)
    }

    /** Backend k is the first not passed over; k is their number when all are. */
    predicate SettledBy(q: Form, isBatch: bool, backends: seq<Backend>, k: nat) {
      && k <= |backends|
      && AllPassedOver(q, isBatch, backends, k)
      && (k < |backends| ==> !PassedOver(q, isBatch, backends, k))
    }

    /** What the client gets when backend k settles the search. */
    function Outcome(q: Form, isBatch: bool, backends: seq<Backend>, k: nat): Reply<Option<Result>>
      requires k <= |backends|
    {
      if k == |backends| then Failed else Given(Found(q, isBatch, backends, k), isBatch, backends[k])
    }

    /**
     What a first attempt makes of a receipts request.  In a batch it is refused and left alone.
     With params that cannot be read it fails, renamed to the backend's target.  For an unknown
     target it is refused.  Otherwise it is translated, and its answer comes back under the name of
     the method that was called, with null for no result.
     */
    lemma FirstAttempt(q: Form, isBatch: bool, be: Backend)
      requires q.name == "consensus_getReceipts"
      ensures
        var known := be.receiptsTarget in {
          "debug_getRawReceipts", "eth_getBlockReceipts", "parity_getBlockReceipts", "alchemy_getTransactionReceipts"};
        if isBatch then Stops(q, isBatch, be) && Given(q, isBatch, be).Failed? && Left(q, isBatch, be) == q
        else if !readable(q.params) then
          !Stops(q, isBatch, be) && Given(q, isBatch, be).Failed? && Left(q, isBatch, be) == Form(be.receiptsTarget, q.params)
        else if !known then Stops(q, isBatch, be) && Given(q, isBatch, be).Failed?
        else
          && !Stops(q, isBatch, be)
          && Left(q, isBatch, be) == Form(be.receiptsTarget, translate(be.receiptsTarget, q.params))
          && match be.answer
             case Failed => Given(q, isBatch, be).Failed?
             case Answered(None) => Given(q, isBatch, be) == Answered(Some(Wrapped(be.receiptsTarget, Value("null"))))
             case Answered(Some(result)) => Given(q, isBatch, be) == Answered(Some(Wrapped(be.receiptsTarget, result)))
    {
    }

    /** An ordinary request reaches every backend as it is, so the client gets the first answer there is. */
    lemma {:induction false} OrdinaryIsUntouched(q: Form, isBatch: bool, backends: seq<Backend>, k: nat)
      requires q.name != CONSENSUS_GET_RECEIPTS && k <= |backends|
      ensures Found(q, isBatch, backends, k) == q
      ensures k < |backends| ==> (PassedOver(q, isBatch, backends, k) <==> backends[k].answer.Failed?)
      ensures Outcome(q, isBatch, backends, k) == if k == |backends| then Failed else backends[k].answer
    {
      if k == 0 {
      } else {
        OrdinaryIsUntouched(q, isBatch, backends, k - 1);
      }
    }

    /**
     A receipts request is translated by the first backend only: later ones find that backend's
     method and params, whatever their own target, and their answers are not wrapped.
     */
    lemma {:induction false} ReceiptsAreTranslatedOnce(q: Form, backends: seq<Backend>, k: nat)
      requires q.name == CONSENSUS_GET_RECEIPTS && readable(q.params)
      requires 0 < k <= |backends| && backends[0].receiptsTarget in RECEIPTS_TARGETS
      ensures
        var target := backends[0].receiptsTarget;
        Found(q, false, backends, k) == Form(target, translate(target, q.params))
      ensures Outcome(q, false, backends, k) == if k == |backends| then Failed else backends[k].answer
    {
      if k == 1 {
        assert Found(q, false, backends, 0) == q;
      } else {
        ReceiptsAreTranslatedOnce(q, backends, k - 1);
      }
    }

    /** So the wrapper the client expects is there exactly when the first backend answered. */
    lemma WrappedIff(q: Form, backends: seq<Backend>, k: nat)
      requires WellTyped(backends) && SettledBy(q, false, backends, k)
      requires q.name == CONSENSUS_GET_RECEIPTS && readable(q.params)
      requires backends != [] && backends[0].receiptsTarget in RECEIPTS_TARGETS
      ensures
        var res := Outcome(q, false, backends, k);
        res.Answered? && res.value.Some? ==> (res.value.value.Wrapped? <==> backends[0].answer.Answered?)
    {
      assert Found(q, false, backends, 0) == q;
      if k > 0 {
        assert PassedOver(q, false, backends, 0);
        ReceiptsAreTranslatedOnce(q, backends, k);
      }
    }

    /** A first backend that fails and a second that answers: the client gets the bare result. */
    lemma FailoverLosesTheWrapper(q: Form, target: string, result: Result)
      requires q.name == CONSENSUS_GET_RECEIPTS && readable(q.params) && target in RECEIPTS_TARGETS
      ensures
        var backends := [Backend(target, Failed), Backend(target, Answered(Some(result)))];
        SettledBy(q, false, backends, 1) && Outcome(q, false, backends, 1) == Answered(Some(result))
    {
      var backends := [Backend(target, Failed), Backend(target, Answered(Some(result)))];
      assert Found(q, false, backends, 0) == q;
      ReceiptsAreTranslatedOnce(q, backends, 1);
    }

    /** The backends in turn, until one answers or stops the search. */
    method Forward(req: Request, isBatch: bool, backends: seq<Backend>) returns (res: Reply<Option<Result>>, ghost k: nat)
      requires Valid() && WellTyped(backends)
      modifies req, this`given
      ensures Valid() && given >= old(given)
      ensures
        var q := old(Form(req.name, req.params));
        && SettledBy(q, isBatch, backends, k) && res == Outcome(q, isBatch, backends, k)
        && Form(req.name, req.params) == Found(q, isBatch, backends, if k < |backends| then k + 1 else k)
      ensures res.Answered? && res.value.Some? ==>
        if res.value.value.Wrapped? then req.name in RECEIPTS_TARGETS
        else Answer(req.name, req.params, res.value.value) in given
    {
      ghost var q := Form(req.name, req.params);
      res, k := Failed, 0;
      for i := 0 to |backends|
        invariant Valid() && given >= old(given)
        invariant res.Failed? && k == i
        invariant Form(req.name, req.params) == Found(q, isBatch, backends, i)
        invariant AllPassedOver(q, isBatch, backends, i)
      {
        var fatal;
        fatal, res := DoForward(req, isBatch, backends[i]);
        NextFound(q, isBatch, backends, i);
        if fatal || res.Answered? {
          return;
        }
        k := i + 1;
      }
    }

    /** One backend further. */
    lemma NextFound(q: Form, isBatch: bool, backends: seq<Backend>, i: nat)
      requires i < |backends| && AllPassedOver(q, isBatch, backends, i)
      ensures
        var f := Found(q, isBatch, backends, i);
        && Found(q, isBatch, backends, i + 1) == Left(f, isBatch, backends[i])
        && (if !Stops(f, isBatch, backends[i]) && Given(f, isBatch, backends[i]).Failed? then AllPassedOver(q, isBatch, backends, i + 1)
            else SettledBy(q, isBatch, backends, i) && Outcome(q, isBatch, backends, i) == Given(f, isBatch, backends[i]))
    {
    }

    /** What storing the reply makes of a layer the store reaches: an unwrapped result is put under the request as sent. */
    function AfterStore(layer: map<string, Result>, sent: Form, res: Reply<Option<Result>>): map<string, Result> {
      if res.Answered? && res.value.Some? && !res.value.value.Wrapped? then AfterPut(layer, sent, res.value.value) else layer
    }

    /**
     One request through the server: look it up, rewrite it in place, try the backends in turn,
     store the first answer under the request as it was sent.
     */
    method Serve(req: Request, isBatch: bool, rewritten: Option<string>, backends: seq<Backend>, onGet: Faults, onPut: Faults)
      returns (hit: bool, res: Reply<Option<Result>>, ghost k: nat)
      requires Valid() && WellTyped(backends)
      modifies req, this`given, this`primary, this`secondary
      ensures Valid() && given >= old(given)
      ensures hit == old(Entry(Form(req.name, req.params), onGet)).Some?
      ensures hit ==>
        && res == Answered(old(Entry(Form(req.name, req.params), onGet)))
        && old(GivenFor(req.name, req.params, Entry(Form(req.name, req.params), onGet).value))
        && (old(NoCollision(req.params)) ==> Answer(old(req.name), old(req.params), res.value.value) in old(given))
        && req.name == old(req.name) && req.params == old(req.params) && primary == old(primary) && secondary == old(secondary)
      ensures !hit ==>
        var q := Form(old(req.name), if rewritten.Some? then rewritten.value else old(req.params));
        var sent := Form(req.name, req.params);
        && SettledBy(q, isBatch, backends, k) && res == Outcome(q, isBatch, backends, k)
        && sent == Found(q, isBatch, backends, if k < |backends| then k + 1 else k)
        && primary == (if onPut.primary then old(primary) else AfterStore(old(primary), sent, res))
        && secondary == (if onPut.primary && !onPut.secondary then AfterStore(old(secondary), sent, res) else old(secondary))
      ensures !hit && res.Answered? && res.value.Some? && !res.value.value.Wrapped? ==>
        Answer(req.name, req.params, res.value.value) in given
    {
      var cached := GetRPC(req, onGet);
      if cached.Some? {
        return true, Answered(cached), 0;
      }
      if rewritten.Some? {
        req.params := rewritten.value;
      }
      hit := false;
      res, k := Forward(req, isBatch, backends);
      if res.Answered? && res.value.Some? {
        PutRPC(req, res.value.value, onPut);
      }
    }
  }
}
