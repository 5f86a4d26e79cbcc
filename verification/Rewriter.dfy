/**
 Rewriting of block tags (rewriter.go): a request read against the consensus view becomes one
 that every backend reads the same way.  Parameters are JSON values; decoding and encoding the
 raw text, and the block number type of go-ethereum's rpc package, are modelled by their results.
 */
module Rewriter {
  import opened Wrappers
  import opened Uint64
  import Hex

  datatype Json =
    | JNull
    | JBool(b: bool)
    | JString(s: string)
    | JObject(fields: map<string, Json>)
    | JOther(text: string)

  /** The params of a request: not a JSON array, or its items (null counts as no items). */
  datatype Params = Malformed | Items(items: seq<Json>)

  // ---------------------------------------------------------------- block numbers (go-ethereum rpc)

  const EARLIEST := 0
  const PENDING := -1
  const LATEST := -2
  const FINALIZED := -3
  const SAFE := -4

  /** The conversion int64(x). */
  function Int64(x: uint64): int {
    if x < TWO_63 then x else x - TWO_64
  }

  function TagNumber(s: string): Option<int> {
    if s == "earliest" then Some(EARLIEST)
    else if s == "pending" then Some(PENDING)
    else if s == "latest" then Some(LATEST)
    else if s == "finalized" then Some(FINALIZED)
    else if s == "safe" then Some(SAFE)
    else None
  }

  /** A block number: a tag, or a hex quantity below 2^63. */
  function ParseNumber(s: string): Option<int> {
    if TagNumber(s).Some? then TagNumber(s)
    else
      match Hex.Decode(s)
      case Some(n) => if n < TWO_63 then Some(n) else None
      case None => None
  }

  function NumberString(n: int): string {
    if n == EARLIEST then "earliest"
    else if n == PENDING then "pending"
    else if n == LATEST then "latest"
    else if n == FINALIZED then "finalized"
    else if n == SAFE then "safe"
    else if 0 <= n < TWO_64 then Hex.Encode(n)
    else "<invalid>"
  }

  predicate IsHash(s: string) {
    |s| == 66 && Hex.HasPrefix(s) && forall k | 2 <= k < 66 :: Hex.DigitValue(s[k]).Some?
  }

  /** rpc.BlockNumberOrHash, as EIP-1898 defines it; neither part is set for null and for an empty object. */
  datatype NumberOrHash = NumberOrHash(number: Option<int>, hash: Option<string>, requireCanonical: bool)

  function Field(fields: map<string, Json>, key: string): Json {
    if key in fields then fields[key] else JNull
  }

  function ParseObject(fields: map<string, Json>): Option<NumberOrHash> {
    var number := Field(fields, "blockNumber");
    var hash := Field(fields, "blockHash");
    var canonical := Field(fields, "requireCanonical");
    if !(number.JNull? || (number.JString? && ParseNumber(number.s).Some?)) then None
    else if !(hash.JNull? || (hash.JString? && IsHash(hash.s))) then None
    else if !(canonical.JNull? || canonical.JBool?) then None
    else if number.JString? && hash.JString? then None
    else Some(NumberOrHash(
      if number.JString? then ParseNumber(number.s) else None,
      if hash.JString? then Some(hash.s) else None,
      canonical.JBool? && canonical.b))
  }

  function ParseString(s: string): Option<NumberOrHash> {
    if TagNumber(s).None? && |s| == 66 then
      if IsHash(s) then Some(NumberOrHash(None, Some(s), false)) else None
    else
      match ParseNumber(s)
      case Some(n) => Some(NumberOrHash(Some(n), None, false))
      case None => None
  }

  /** remarshalBlockNumberOrHash */
  function Parse(j: Json): Option<NumberOrHash> {
    match j
    case JNull => Some(NumberOrHash(None, None, false))
    case JString(s) => ParseString(s)
    case JObject(fields) => ParseObject(fields)
    case _ => None
  }

  function MarshalNumber(n: int): Json {
    JObject(map["blockNumber" := JString(NumberString(n))])
  }

  // ---------------------------------------------------------------- meaning

  /** What a node knows its tags to be. */
  datatype View = View(latest: uint64, safe: uint64, finalized: uint64)

  datatype Meaning = Number(n: int) | ByHash(hash: string, canonical: bool) | Pending | Unreadable

  /** The block a parameter denotes on a node with the given view; a parameter that names no block means the latest. */
  function Resolve(v: View, j: Json): Meaning {
    match Parse(j)
    case None => Unreadable
    case Some(b) =>
      if b.hash.Some? then ByHash(b.hash.value, b.requireCanonical)
      else if b.number.None? || b.number.value == LATEST then Number(v.latest)
      else if b.number.value == SAFE then Number(v.safe)
      else if b.number.value == FINALIZED then Number(v.finalized)
      else if b.number.value == PENDING then Pending
      else Number(b.number.value)
  }

  /** The parameter names a number, a tag or a hash. */
  predicate NamesBlock(j: Json) {
    Parse(j).Some? ==> Parse(j).value.number.Some? || Parse(j).value.hash.Some?
  }

  datatype Context = Context(view: View, maxBlockRange: uint64) {
    /** Consensus tags as the poller publishes them, inside the range of a block number. */
    predicate Ordered() {
      view.safe <= view.latest && view.finalized <= view.latest && view.latest < TWO_63
    }
  }

  // ---------------------------------------------------------------- one parameter

  datatype Error = ParseError | OutOfRange | RangeTooLarge

  datatype TagOutcome = Keep | Replace(block: uint64) | TooHigh

  /** The switch shared by rewriteTag and rewriteTagBlockNumberOrHash. */
  function RewriteNumber(ctx: Context, number: Option<int>): TagOutcome {
    match number
    case None => Keep
    case Some(n) =>
      if n == PENDING || n == EARLIEST then Keep
      else if n == FINALIZED then Replace(ctx.view.finalized)
      else if n == SAFE then Replace(ctx.view.safe)
      else if n == LATEST then Replace(ctx.view.latest)
      else if n > Int64(ctx.view.latest) then TooHigh
      else Keep
  }

  datatype ValueOutcome = Unchanged | Changed(value: Json) | Rejected(error: Error)

  /** rewriteTag on a string, rewriteTagBlockNumberOrHash on anything that parses as one. */
  function RewriteValue(ctx: Context, j: Json, numberOrHash: bool): ValueOutcome {
    if !numberOrHash && !j.JString? then Rejected(ParseError)
    else
      match Parse(j)
      case None => Rejected(ParseError)
      case Some(b) =>
        match RewriteNumber(ctx, b.number)
        case Keep => Unchanged
        case TooHigh => Rejected(OutOfRange)
        case Replace(block) => Changed(if numberOrHash then MarshalNumber(Int64(block)) else JString(Hex.Encode(block)))
  }

  datatype Outcome = Forward(params: Params) | Refuse(error: Error) | Panic

  /** rewriteParam: the forwarded params, unchanged for RewriteNone. */
  function RewriteParam(ctx: Context, params: Params, pos: nat, required: bool, numberOrHash: bool): Outcome {
    if params.Malformed? then Refuse(ParseError)
    else
      var items := params.items;
      if |items| < pos || (|items| == pos && required) then Forward(params)
      else
        var p := if |items| == pos then items + [JString("latest")] else items;
        match RewriteValue(ctx, p[pos], numberOrHash)
        case Unchanged => Forward(params)
        case Changed(value) => Forward(Items(p[pos := value]))
        case Rejected(e) => Refuse(e)
  }

  /** A rewritten number reads back as itself, written either way. */
  lemma ReplacementParses(block: uint64)
    requires block < TWO_63
    ensures Parse(JString(Hex.Encode(block))) == Some(NumberOrHash(Some(block), None, false))
    ensures Parse(MarshalNumber(block)) == Some(NumberOrHash(Some(block), None, false))
  {
    Hex.RoundTrip(block);
    var s := Hex.Encode(block);
    assert s[1] == 'x';
    assert TagNumber(s).None?;
    assert ParseNumber(s) == Some(block);
    assert ParseNumber(NumberString(block)) == Some(block);
  }

  /** A rewritten value denotes on every node what the original denotes in the consensus view, or is unchanged. */
  lemma ValueKeepsMeaning(ctx: Context, j: Json, numberOrHash: bool, v: View)
    requires ctx.Ordered() && NamesBlock(j)
    ensures
      match RewriteValue(ctx, j, numberOrHash)
      case Unchanged => Resolve(v, j) == Resolve(ctx.view, j)
      case Changed(value) => Resolve(v, value) == Resolve(ctx.view, j) && NamesBlock(value)
      case Rejected(_) => true
  {
    var out := RewriteValue(ctx, j, numberOrHash);
    if out.Changed? {
      ReplacementParses(RewriteNumber(ctx, Parse(j).value.number).block);
    }
  }

  /** A rewritten value is left alone when it is rewritten again in the same context. */
  lemma ValueIsStable(ctx: Context, j: Json, numberOrHash: bool)
    requires ctx.Ordered() && RewriteValue(ctx, j, numberOrHash).Changed?
    ensures RewriteValue(ctx, RewriteValue(ctx, j, numberOrHash).value, numberOrHash) == Unchanged
  {
    ReplacementParses(RewriteNumber(ctx, Parse(j).value.number).block);
  }

  /** The block parameter as the proxy understands it: absent means latest. */
  function Original(items: seq<Json>, pos: nat): Json {
    if pos < |items| then items[pos] else JString("latest")
  }

  predicate Rewritable(params: Params, pos: nat, required: bool) {
    params.Items? && (pos < |params.items| || (pos == |params.items| && !required))
  }

  /** The forwarded block parameter means to v what the original means in the consensus view. */
  predicate MeansTheSame(ctx: Context, original: Json, forwarded: Json, v: View) {
    Resolve(v, forwarded) == Resolve(ctx.view, original)
  }

  /**
   Rewriting preserves meaning.  Of a request that is forwarded, every backend reads the block
   parameter as the consensus view reads the original, if and only if the parameter names a
   block at all (an EIP-1898 object or null that names none is passed on and means each
   backend's own latest).  The other parameters are untouched, and a forwarded literal block
   number is never above the consensus latest.
   */
  lemma ParamKeepsMeaningIff(ctx: Context, params: Params, pos: nat, required: bool, numberOrHash: bool)
    requires ctx.Ordered() && Rewritable(params, pos, required)
    requires RewriteParam(ctx, params, pos, required, numberOrHash).Forward?
    ensures
      var original := Original(params.items, pos);
      var forwarded := RewriteParam(ctx, params, pos, required, numberOrHash).params;
      && forwarded.Items? && |forwarded.items| == (if pos < |params.items| then |params.items| else pos + 1)
      && (forall k | 0 <= k < |params.items| && k != pos :: forwarded.items[k] == params.items[k])
      && ((forall v :: MeansTheSame(ctx, original, forwarded.items[pos], v)) <==> NamesBlock(original))
      && (Resolve(ctx.view, original).Number? ==> Resolve(ctx.view, original).n <= ctx.view.latest)
  {
    var original := Original(params.items, pos);
    var forwarded := RewriteParam(ctx, params, pos, required, numberOrHash).params;
    assert ParseString("latest") == Some(NumberOrHash(Some(LATEST), None, false));
    if NamesBlock(original) {
      forall v ensures MeansTheSame(ctx, original, forwarded.items[pos], v) {
        ValueKeepsMeaning(ctx, original, numberOrHash, v);
      }
    } else {
      var other := View(ctx.view.latest + 1, 0, 0);
      assert !MeansTheSame(ctx, original, forwarded.items[pos], other);
    }
  }

  /**
   A request is refused exactly when its params or its block parameter cannot be read, or when it
   asks for a block above the consensus latest.
   */
  lemma ParamRefusedIff(ctx: Context, params: Params, pos: nat, required: bool, numberOrHash: bool)
    requires ctx.Ordered()
    ensures RewriteParam(ctx, params, pos, required, numberOrHash).Refuse? <==>
      || params.Malformed?
      || (Rewritable(params, pos, required) &&
          var original := Original(params.items, pos);
          var meaning := Resolve(ctx.view, original);
          || (!numberOrHash && !original.JString?)
          || meaning.Unreadable?
          || (meaning.Number? && meaning.n > ctx.view.latest))
    ensures RewriteParam(ctx, params, pos, required, numberOrHash) == Refuse(OutOfRange) ==>
      Rewritable(params, pos, required) && Resolve(ctx.view, Original(params.items, pos)).Number?
  {
  }

  /** Rewriting again with the same context changes nothing. */
  lemma ParamIsIdempotent(ctx: Context, params: Params, pos: nat, required: bool, numberOrHash: bool)
    requires ctx.Ordered()
    requires RewriteParam(ctx, params, pos, required, numberOrHash).Forward?
    ensures
      var forwarded := RewriteParam(ctx, params, pos, required, numberOrHash).params;
      RewriteParam(ctx, forwarded, pos, required, numberOrHash) == Forward(forwarded)
  {
    if Rewritable(params, pos, required) {
      var original := Original(params.items, pos);
      if RewriteValue(ctx, original, numberOrHash).Changed? {
        ValueIsStable(ctx, original, numberOrHash);
      }
    }
  }

  // ---------------------------------------------------------------- block ranges

  predicate Unspecified(m: map<string, Json>, key: string) {
    Field(m, key) == JNull || Field(m, key) == JString("")
  }

  /** rewriteTagMap */
  function RewriteBound(ctx: Context, m: map<string, Json>, key: string): ValueOutcome {
    if Unspecified(m, key) then Unchanged else RewriteValue(ctx, m[key], false)
  }

  function Apply(m: map<string, Json>, key: string, out: ValueOutcome): map<string, Json> {
    if out.Changed? then m[key := out.value] else m
  }

  /** blockNumber: pending counts as the block after latest, computed in 64 bits. */
  function BoundNumber(m: map<string, Json>, key: string, latest: uint64): Option<uint64> {
    var current := Field(m, key);
    if !current.JString? then None
    else if current.s == "earliest" then Some(0)
    else if current.s == "pending" then Some((latest + 1) % TWO_64)
    else Hex.Decode(current.s)
  }

  /** A filter that names one bound gets "latest" for the other. */
  function WithDefaults(m: map<string, Json>): map<string, Json> {
    if "fromBlock" in m && "toBlock" !in m then m["toBlock" := JString("latest")]
    else if "toBlock" in m && "fromBlock" !in m then m["fromBlock" := JString("latest")]
    else m
  }

  predicate NamesBound(m: map<string, Json>) {
    "fromBlock" in m || "toBlock" in m
  }

  predicate RangeAccepted(ctx: Context, m: map<string, Json>) {
    var from := BoundNumber(m, "fromBlock", ctx.view.latest);
    var to := BoundNumber(m, "toBlock", ctx.view.latest);
    from.Some? && to.Some? && Sub(to.value, from.value) <= ctx.maxBlockRange
  }

  datatype FilterOutcome = Filter(m: map<string, Json>) | FilterError(error: Error)

  /** The bounds of a log filter defaulted and rewritten, before the range check. */
  function RewriteBounds(ctx: Context, m0: map<string, Json>): FilterOutcome {
    var m1 := WithDefaults(m0);
    var from := RewriteBound(ctx, m1, "fromBlock");
    if from.Rejected? then FilterError(from.error)
    else
      var m2 := Apply(m1, "fromBlock", from);
      var to := RewriteBound(ctx, m2, "toBlock");
      if to.Rejected? then FilterError(to.error)
      else Filter(Apply(m2, "toBlock", to))
  }

  /** What rewriteRange does to one log filter. */
  function RewriteFilter(ctx: Context, m0: map<string, Json>): FilterOutcome {
    var out := RewriteBounds(ctx, m0);
    if out.Filter? && ctx.maxBlockRange > 0 && NamesBound(m0) && !RangeAccepted(ctx, out.m) then
      FilterError(
        if BoundNumber(out.m, "fromBlock", ctx.view.latest).Some? && BoundNumber(out.m, "toBlock", ctx.view.latest).Some?
        then RangeTooLarge else ParseError)
    else out
  }

  predicate IsFilter(j: Json) {
    j.JObject? || j.JNull?
  }

  /** rewriteRange: the first filter decides; an empty list of filters is indexed out of bounds. */
  function RewriteRange(ctx: Context, params: Params): Outcome {
    if params.Malformed? || exists k | 0 <= k < |params.items| :: !IsFilter(params.items[k]) then Refuse(ParseError)
    else if params.items == [] then Panic
    else
      var first := params.items[0];
      match RewriteFilter(ctx, if first.JObject? then first.fields else map[])
      case FilterError(e) => Refuse(e)
      case Filter(m) => Forward(if first.JObject? then Items(params.items[0 := JObject(m)]) else params)
  }

  /** The block a filter bound denotes; an unspecified bound means the node's latest. */
  function Bound(v: View, m: map<string, Json>, key: string): Meaning {
    if Unspecified(m, key) then Number(v.latest) else Resolve(v, m[key])
  }

  /** What a node looks for: the logs of one block, of a range, or nothing because hash and range exclude each other. */
  datatype Selection = OfBlock(hash: Json) | Between(from: Meaning, to: Meaning) | Conflicting

  function Selected(v: View, m: map<string, Json>): Selection {
    if Field(m, "blockHash") == JNull then Between(Bound(v, m, "fromBlock"), Bound(v, m, "toBlock"))
    else if Unspecified(m, "fromBlock") && Unspecified(m, "toBlock") then OfBlock(m["blockHash"])
    else Conflicting
  }

  predicate SelectsTheSame(ctx: Context, m: map<string, Json>, forwarded: map<string, Json>, v: View) {
    Selected(v, forwarded) == Selected(ctx.view, m)
  }

  /**
   The filter pins down what it selects: both bounds of a range are specified, one of them perhaps
   by default; and a filter by block hash is not given a bound by default.
   */
  predicate Pinned(m: map<string, Json>) {
    var m1 := WithDefaults(m);
    if Field(m, "blockHash") == JNull then !Unspecified(m1, "fromBlock") && !Unspecified(m1, "toBlock")
    else Unspecified(m, "fromBlock") && Unspecified(m, "toBlock") ==> m1 == m
  }

  /** The rewritten bound, in isolation. */
  lemma BoundKeepsMeaning(ctx: Context, m: map<string, Json>, key: string, v: View)
    requires ctx.Ordered() && !Unspecified(m, key) && !RewriteBound(ctx, m, key).Rejected?
    ensures !Unspecified(Apply(m, key, RewriteBound(ctx, m, key)), key)
    ensures Bound(v, Apply(m, key, RewriteBound(ctx, m, key)), key) == Bound(ctx.view, m, key)
  {
    ValueKeepsMeaning(ctx, m[key], false, v);
  }

  /**
   Of a forwarded log filter every backend selects what the consensus view selects by the
   original, if and only if the filter is pinned: not if a bound is null or empty or both are
   missing, since each backend then reads its own latest block, and not if a filter by block hash
   names one bound without a value, since the default for the other contradicts the hash.
   */
  lemma FilterKeepsMeaningIff(ctx: Context, m: map<string, Json>)
    requires ctx.Ordered() && RewriteFilter(ctx, m).Filter?
    ensures
      var forwarded := RewriteFilter(ctx, m).m;
      && forwarded - {"fromBlock", "toBlock"} == m - {"fromBlock", "toBlock"}
      && ((forall v :: SelectsTheSame(ctx, m, forwarded, v)) <==> Pinned(m))
  {
    OtherFieldsStay(ctx, m);
    if Field(m, "blockHash") == JNull {
      RangeFilterKeepsMeaningIff(ctx, m);
    } else {
      forall v ensures SelectsTheSame(ctx, m, RewriteBounds(ctx, m).m, v) <==> Pinned(m) {
        HashFilterKeepsMeaningIff(ctx, m, v);
      }
      assert SelectsTheSame(ctx, m, RewriteBounds(ctx, m).m, ctx.view) <==> Pinned(m);
    }
  }

  lemma OtherFieldsStay(ctx: Context, m: map<string, Json>)
    requires RewriteBounds(ctx, m).Filter?
    ensures RewriteBounds(ctx, m).m - {"fromBlock", "toBlock"} == m - {"fromBlock", "toBlock"}
  {
  }

  lemma RangeFilterKeepsMeaningIff(ctx: Context, m: map<string, Json>)
    requires ctx.Ordered() && RewriteBounds(ctx, m).Filter? && Field(m, "blockHash") == JNull
    ensures (forall v :: SelectsTheSame(ctx, m, RewriteBounds(ctx, m).m, v)) <==> Pinned(m)
  {
    var forwarded := RewriteBounds(ctx, m).m;
    SpecifiedStays(ctx, m, "fromBlock");
    SpecifiedStays(ctx, m, "toBlock");
    if Pinned(m) {
      forall v ensures SelectsTheSame(ctx, m, forwarded, v) {
        RewrittenBoundsKeepMeaning(ctx, m, v);
      }
    } else {
      DefaultsKeepMeaning(ctx.view, m);
      var other := View(ctx.view.latest + 1, 0, 0);
      assert !SelectsTheSame(ctx, m, forwarded, other);
    }
  }

  lemma HashFilterKeepsMeaningIff(ctx: Context, m: map<string, Json>, v: View)
    requires ctx.Ordered() && RewriteBounds(ctx, m).Filter? && Field(m, "blockHash") != JNull
    ensures SelectsTheSame(ctx, m, RewriteBounds(ctx, m).m, v) <==> Pinned(m)
  {
    SpecifiedStays(ctx, m, "fromBlock");
    SpecifiedStays(ctx, m, "toBlock");
  }

  /** Rewriting leaves a bound unspecified exactly when defaulting did. */
  lemma SpecifiedStays(ctx: Context, m: map<string, Json>, key: string)
    requires ctx.Ordered() && RewriteBounds(ctx, m).Filter? && key in {"fromBlock", "toBlock"}
    ensures Unspecified(RewriteBounds(ctx, m).m, key) <==> Unspecified(WithDefaults(m), key)
    ensures Field(RewriteBounds(ctx, m).m, "blockHash") == Field(m, "blockHash")
  {
    var m1 := WithDefaults(m);
    var m2 := Apply(m1, "fromBlock", RewriteBound(ctx, m1, "fromBlock"));
    if !Unspecified(m1, "fromBlock") {
      BoundKeepsMeaning(ctx, m1, "fromBlock", ctx.view);
    }
    if !Unspecified(m2, "toBlock") {
      BoundKeepsMeaning(ctx, m2, "toBlock", ctx.view);
    }
  }

  lemma RewrittenBoundsKeepMeaning(ctx: Context, m: map<string, Json>, v: View)
    requires ctx.Ordered() && RewriteBounds(ctx, m).Filter?
    requires !Unspecified(WithDefaults(m), "fromBlock") && !Unspecified(WithDefaults(m), "toBlock")
    ensures
      var forwarded := RewriteBounds(ctx, m).m;
      && Bound(v, forwarded, "fromBlock") == Bound(ctx.view, m, "fromBlock")
      && Bound(v, forwarded, "toBlock") == Bound(ctx.view, m, "toBlock")
  {
    var m1 := WithDefaults(m);
    var m2 := Apply(m1, "fromBlock", RewriteBound(ctx, m1, "fromBlock"));
    var m3 := Apply(m2, "toBlock", RewriteBound(ctx, m2, "toBlock"));
    DefaultsKeepMeaning(ctx.view, m);
    BoundKeepsMeaning(ctx, m1, "fromBlock", v);
    BoundKeepsMeaning(ctx, m2, "toBlock", v);
    assert Field(m3, "fromBlock") == Field(m2, "fromBlock");
  }

  /** A filter without bounds is forwarded as it is, whatever the maximum range, and each backend reads its own latest block. */
  lemma EmptyFilterIsForwarded(ctx: Context, v: View)
    requires ctx.Ordered()
    ensures RewriteFilter(ctx, map[]) == Filter(map[])
    ensures SelectsTheSame(ctx, map[], map[], v) <==> v.latest == ctx.view.latest
  {
  }

  lemma DefaultsKeepMeaning(v: View, m: map<string, Json>)
    ensures Bound(v, WithDefaults(m), "fromBlock") == Bound(v, m, "fromBlock")
    ensures Bound(v, WithDefaults(m), "toBlock") == Bound(v, m, "toBlock")
  {
  }

  /** A bound that went through rewriting is at most the block after latest. */
  lemma BoundNumberIsBounded(ctx: Context, m: map<string, Json>, key: string)
    requires ctx.Ordered() && !RewriteBound(ctx, m, key).Rejected?
    ensures
      var n := BoundNumber(Apply(m, key, RewriteBound(ctx, m, key)), key, ctx.view.latest);
      n.Some? ==> n.value <= ctx.view.latest + 1
  {
    var out := RewriteBound(ctx, m, key);
    if out.Changed? {
      var block := RewriteNumber(ctx, Parse(m[key]).value.number).block;
      Hex.RoundTrip(block);
    } else if !Unspecified(m, key) && |m[key].s| == 66 {
      Hex.LongIsNoQuantity(m[key].s);
    }
  }

  /**
   The accepted range is bounded although the difference is taken modulo 2^64.  A filter that
   names a bound is accepted exactly when its rewritten bounds are readable and
   from <= to <= from + maxBlockRange, so every inverted range is refused, as long as the maximum
   is below 2^63; a larger one admits an inverted range as well when it exceeds the wrapped
   difference.  No bound is more than one past the latest block.
   */
  lemma AcceptedRangeIff(ctx: Context, m: map<string, Json>)
    requires ctx.Ordered() && 0 < ctx.maxBlockRange && NamesBound(m)
    requires RewriteBounds(ctx, m).Filter?
    ensures
      var rewritten := RewriteBounds(ctx, m).m;
      var from := BoundNumber(rewritten, "fromBlock", ctx.view.latest);
      var to := BoundNumber(rewritten, "toBlock", ctx.view.latest);
      && (RewriteFilter(ctx, m).Filter? <==>
            from.Some? && to.Some? &&
            (|| from.value <= to.value <= from.value + ctx.maxBlockRange
             || (to.value < from.value && ctx.maxBlockRange >= TWO_63 && from.value - to.value >= TWO_64 - ctx.maxBlockRange)))
      && (RewriteFilter(ctx, m).Filter? ==> RewriteFilter(ctx, m).m == rewritten && to.value <= ctx.view.latest + 1)
  {
    var m1 := WithDefaults(m);
    var m2 := Apply(m1, "fromBlock", RewriteBound(ctx, m1, "fromBlock"));
    var m3 := Apply(m2, "toBlock", RewriteBound(ctx, m2, "toBlock"));
    BoundNumberIsBounded(ctx, m1, "fromBlock");
    BoundNumberIsBounded(ctx, m2, "toBlock");
    assert Field(m3, "fromBlock") == Field(m2, "fromBlock");
  }

  /** Without a maximum range empty and null bounds are forwarded as they are, not taken for unreadable ones. */
  lemma EmptyBoundsAreForwarded(ctx: Context, bound: Json)
    requires ctx.maxBlockRange == 0 && (bound == JString("") || bound == JNull)
    ensures
      var m := map["fromBlock" := bound, "toBlock" := bound];
      RewriteFilter(ctx, m) == Filter(m)
  {
  }

  /** With the largest maximum any inverted range at or below latest is accepted. */
  lemma InvertedRangeAccepted(ctx: Context, from: uint64, to: uint64)
    requires ctx.Ordered() && 0 < to < from <= ctx.view.latest && ctx.maxBlockRange == TWO_64 - 1
    ensures
      var m := map["fromBlock" := JString(Hex.Encode(from)), "toBlock" := JString(Hex.Encode(to))];
      RewriteFilter(ctx, m) == Filter(m)
  {
    LiteralIsKept(ctx, from);
    LiteralIsKept(ctx, to);
  }

  lemma LiteralIsKept(ctx: Context, n: uint64)
    requires ctx.Ordered() && 0 < n <= ctx.view.latest
    ensures RewriteValue(ctx, JString(Hex.Encode(n)), false) == Unchanged
    ensures Hex.Encode(n) != "" && Hex.Encode(n) != "earliest" && Hex.Encode(n) != "pending" && Hex.Decode(Hex.Encode(n)) == Some(n)
  {
    ReplacementParses(n);
    Hex.RoundTrip(n);
    assert Hex.Encode(n)[1] == 'x';
  }

  /** A rewritten bound is left alone the next time. */
  lemma BoundIsStable(ctx: Context, m: map<string, Json>, key: string, again: map<string, Json>)
    requires ctx.Ordered() && !RewriteBound(ctx, m, key).Rejected?
    requires Field(again, key) == Field(Apply(m, key, RewriteBound(ctx, m, key)), key)
    ensures RewriteBound(ctx, again, key) == Unchanged
  {
    if RewriteBound(ctx, m, key).Changed? {
      ValueIsStable(ctx, m[key], false);
    }
  }

  lemma FilterIsIdempotent(ctx: Context, m: map<string, Json>)
    requires ctx.Ordered() && RewriteFilter(ctx, m).Filter?
    ensures RewriteFilter(ctx, RewriteFilter(ctx, m).m) == RewriteFilter(ctx, m)
  {
    var m1 := WithDefaults(m);
    var m2 := Apply(m1, "fromBlock", RewriteBound(ctx, m1, "fromBlock"));
    var m3 := Apply(m2, "toBlock", RewriteBound(ctx, m2, "toBlock"));
    assert WithDefaults(m3) == m3;
    BoundIsStable(ctx, m1, "fromBlock", m3);
    BoundIsStable(ctx, m2, "toBlock", m3);
  }

  lemma RangeIsIdempotent(ctx: Context, params: Params)
    requires ctx.Ordered() && RewriteRange(ctx, params).Forward?
    ensures RewriteRange(ctx, RewriteRange(ctx, params).params) == RewriteRange(ctx, params)
  {
    if params.items[0].JObject? {
      FilterIsIdempotent(ctx, params.items[0].fields);
    }
  }

  // ---------------------------------------------------------------- requests

  datatype Shape = BlockRange | BlockParam(pos: nat, required: bool, numberOrHash: bool) | Untouched

  function ShapeOf(name: string): Shape {
    if name in {"eth_getLogs", "eth_newFilter"} then BlockRange
    else if name in {"debug_getRawReceipts", "consensus_getReceipts"} then BlockParam(0, true, false)
    else if name in {"eth_getBalance", "eth_getCode", "eth_getTransactionCount", "eth_call"} then BlockParam(1, false, true)
    else if name in {"eth_getStorageAt", "eth_getProof"} then BlockParam(2, false, true)
    else if name in {
      "eth_getBlockTransactionCountByNumber", "eth_getUncleCountByBlockNumber", "eth_getBlockByNumber",
      "eth_getTransactionByBlockNumberAndIndex", "eth_getUncleByBlockNumberAndIndex"}
    then BlockParam(0, false, false)
    else Untouched
  }

  function RewriteRequest(ctx: Context, name: string, params: Params): Outcome {
    match ShapeOf(name)
    case BlockRange => RewriteRange(ctx, params)
    case BlockParam(pos, required, numberOrHash) => RewriteParam(ctx, params, pos, required, numberOrHash)
    case Untouched => Forward(params)
  }

  /** How the tags, a number and a hash are read. */
  lemma TagsResolve(v: View, n: uint64, hash: string)
    requires n < TWO_63 && IsHash(hash)
    ensures Resolve(v, JString("latest")) == Number(v.latest)
    ensures Resolve(v, JString("safe")) == Number(v.safe)
    ensures Resolve(v, JString("finalized")) == Number(v.finalized)
    ensures Resolve(v, JString("earliest")) == Number(0)
    ensures Resolve(v, JString("pending")) == Pending
    ensures Resolve(v, JString(Hex.Encode(n))) == Number(n) && Resolve(v, MarshalNumber(n)) == Number(n)
    ensures Resolve(v, JString(hash)) == ByHash(hash, false)
  {
    ReplacementParses(n);
    assert TagNumber(hash).None?;
  }

  /** A hash is 0x and 64 hexadecimal digits; without either a string of that length cannot be read. */
  lemma OnlyHashesAreThatLong(v: View, s: string)
    requires |s| == 66
    ensures Resolve(v, JString(s)) ==
      if s[0] == '0' && s[1] in {'x', 'X'} && (forall k | 2 <= k < 66 :: s[k] in "0123456789abcdefABCDEF") then ByHash(s, false)
      else Unreadable
  {
    assert TagNumber(s).None?;
    forall k | 2 <= k < 66 ensures Hex.DigitValue(s[k]).Some? <==> s[k] in "0123456789abcdefABCDEF" {
      DigitsAre(s[k]);
    }
  }

  lemma DigitsAre(c: char)
    ensures Hex.DigitValue(c).Some? <==> c in "0123456789abcdefABCDEF"
  {
    var digits := "0123456789abcdefABCDEF";
    assert forall k | 0 <= k < 22 :: Hex.DigitValue(digits[k]).Some?;
    if Hex.DigitValue(c).Some? {
      var k := if c <= '9' then (c - '0') as int else if c >= 'a' then 10 + (c - 'a') as int else 16 + (c - 'A') as int;
      assert digits[k] == c;
    }
  }

  /** How an EIP-1898 object is read: by its number, by its hash, and not at all with both. */
  lemma ObjectsResolve(v: View, n: uint64, hash: string, canonical: bool)
    requires n < TWO_63 && IsHash(hash)
    ensures
      var number := map["blockNumber" := JString(Hex.Encode(n))];
      && Resolve(v, JObject(number)) == Number(n)
      && Resolve(v, JObject(map["blockHash" := JString(hash), "requireCanonical" := JBool(canonical)])) == ByHash(hash, canonical)
      && Resolve(v, JObject(number["blockHash" := JString(hash)])) == Unreadable
  {
    ReplacementParses(n);
    var s := Hex.Encode(n);
    assert ParseNumber(s) == Some(n) by {
      Hex.RoundTrip(n);
      assert s[1] == 'x' && TagNumber(s).None?;
    }
    var byHash := map["blockHash" := JString(hash), "requireCanonical" := JBool(canonical)];
    assert Field(byHash, "blockNumber") == JNull && Field(byHash, "blockHash") == JString(hash);
    assert Field(byHash, "requireCanonical") == JBool(canonical);
    var both := map["blockNumber" := JString(s)]["blockHash" := JString(hash)];
    assert Field(both, "blockNumber") == JString(s) && Field(both, "blockHash") == JString(hash);
  }

  /**
   The block parameter at `pos` of the forwarded params means to v what the original means in the
   consensus view, if it names a block; with too few params nothing changes, a missing parameter
   that is not required counts as "latest", and the other parameters are as they were.
   */
  predicate BlockMeansTheSame(ctx: Context, params: Params, forwarded: Params, pos: nat, required: bool, v: View) {
    && params.Items? && forwarded.Items?
    && if |params.items| < pos || (|params.items| == pos && required) then forwarded == params
       else
         var original := if |params.items| == pos then JString("latest") else params.items[pos];
         && |forwarded.items| == (if |params.items| == pos then pos + 1 else |params.items|)
         && (forall k | 0 <= k < |params.items| && k != pos :: forwarded.items[k] == params.items[k])
         && (NamesBlock(original) ==> Resolve(v, forwarded.items[pos]) == Resolve(ctx.view, original))
  }

  /** The first filter of the forwarded params selects for v what the original selects in the consensus view, if it is pinned. */
  predicate FilterMeansTheSame(ctx: Context, params: Params, forwarded: Params, v: View) {
    && params.Items? && forwarded.Items? && |forwarded.items| == |params.items| > 0
    && forwarded.items[1..] == params.items[1..]
    && if params.items[0].JObject? then
         && forwarded.items[0].JObject?
         && (Pinned(params.items[0].fields) ==>
               Selected(v, forwarded.items[0].fields) == Selected(ctx.view, params.items[0].fields))
       else forwarded == params
  }

  /**
   Which parameter of which method is the block: the forwarded request means to v what the
   original means in the consensus view, and a request of any other method is forwarded as it is.
   */
  predicate RequestMeansTheSame(ctx: Context, name: string, params: Params, forwarded: Params, v: View) {
    if name in {"eth_getLogs", "eth_newFilter"} then FilterMeansTheSame(ctx, params, forwarded, v)
    else if name in {"debug_getRawReceipts", "consensus_getReceipts"} then BlockMeansTheSame(ctx, params, forwarded, 0, true, v)
    else if name in {"eth_getBalance", "eth_getCode", "eth_getTransactionCount", "eth_call"}
    then BlockMeansTheSame(ctx, params, forwarded, 1, false, v)
    else if name in {"eth_getStorageAt", "eth_getProof"} then BlockMeansTheSame(ctx, params, forwarded, 2, false, v)
    else if name in {
      "eth_getBlockTransactionCountByNumber", "eth_getUncleCountByBlockNumber", "eth_getBlockByNumber",
      "eth_getTransactionByBlockNumberAndIndex", "eth_getUncleByBlockNumberAndIndex"}
    then BlockMeansTheSame(ctx, params, forwarded, 0, false, v)
    else forwarded == params
  }

  lemma ParamForwardKeepsMeaning(ctx: Context, params: Params, pos: nat, required: bool, numberOrHash: bool, v: View)
    requires ctx.Ordered() && RewriteParam(ctx, params, pos, required, numberOrHash).Forward?
    ensures BlockMeansTheSame(ctx, params, RewriteParam(ctx, params, pos, required, numberOrHash).params, pos, required, v)
  {
    if Rewritable(params, pos, required) {
      ParamKeepsMeaningIff(ctx, params, pos, required, numberOrHash);
      var original := Original(params.items, pos);
      var forwarded := RewriteParam(ctx, params, pos, required, numberOrHash).params;
      assert NamesBlock(original) ==> MeansTheSame(ctx, original, forwarded.items[pos], v);
    }
  }

  lemma RangeForwardKeepsMeaning(ctx: Context, params: Params, v: View)
    requires ctx.Ordered() && RewriteRange(ctx, params).Forward?
    ensures FilterMeansTheSame(ctx, params, RewriteRange(ctx, params).params, v)
  {
    if params.items[0].JObject? {
      var m := params.items[0].fields;
      FilterKeepsMeaningIff(ctx, m);
      assert Pinned(m) ==> SelectsTheSame(ctx, m, RewriteFilter(ctx, m).m, v);
    }
  }

  /** Rewriting preserves the meaning of every request it forwards, method by method. */
  lemma RequestKeepsMeaning(ctx: Context, name: string, params: Params, v: View)
    requires ctx.Ordered() && RewriteRequest(ctx, name, params).Forward?
    ensures RequestMeansTheSame(ctx, name, params, RewriteRequest(ctx, name, params).params, v)
  {
    match ShapeOf(name)
    case BlockRange => RangeForwardKeepsMeaning(ctx, params, v);
    case BlockParam(pos, required, numberOrHash) => ParamForwardKeepsMeaning(ctx, params, pos, required, numberOrHash, v);
    case Untouched =>
  }

  /** Why a block parameter is refused, if it is: it cannot be read, or it means a block above the consensus latest. */
  function RefusalOf(ctx: Context, j: Json, hashAllowed: bool): Option<Error> {
    if !hashAllowed && !j.JString? then Some(ParseError)
    else
      match Resolve(ctx.view, j)
      case Unreadable => Some(ParseError)
      case Number(n) => if n > ctx.view.latest then Some(OutOfRange) else None
      case _ => None
  }

  /** Why the block at `pos` is refused; too few params are not. */
  function RefusalAt(ctx: Context, params: Params, pos: nat, required: bool, hashAllowed: bool): Option<Error> {
    if params.Malformed? then Some(ParseError)
    else if |params.items| < pos || (|params.items| == pos && required) then None
    else RefusalOf(ctx, if |params.items| == pos then JString("latest") else params.items[pos], hashAllowed)
  }

  /** The number a log bound stands for in the range check: the block it means, and one past latest for the pending block. */
  function NumberMeant(ctx: Context, m: map<string, Json>, key: string): Option<int> {
    if Unspecified(m, key) then None
    else
      match Resolve(ctx.view, m[key])
      case Number(n) => Some(n)
      case Pending => Some(ctx.view.latest + 1)
      case _ => None
  }

  function BoundRefusal(ctx: Context, m: map<string, Json>, key: string): Option<Error> {
    if Unspecified(m, key) then None else RefusalOf(ctx, m[key], false)
  }

  /** The range is too large: its length, which wraps when it is inverted, is above the maximum. */
  predicate TooLarge(from: int, to: int, max: int) {
    if from <= to then to - from > max else to - from + TWO_64 > max
  }

  /** Why a log filter is refused: a bound, first the lower one; or, if it names a bound and a maximum is set, its range. */
  function FilterRefusal(ctx: Context, m: map<string, Json>): Option<Error> {
    var m1 := WithDefaults(m);
    if BoundRefusal(ctx, m1, "fromBlock").Some? then BoundRefusal(ctx, m1, "fromBlock")
    else if BoundRefusal(ctx, m1, "toBlock").Some? then BoundRefusal(ctx, m1, "toBlock")
    else if ctx.maxBlockRange == 0 || !("fromBlock" in m || "toBlock" in m) then None
    else
      match (NumberMeant(ctx, m1, "fromBlock"), NumberMeant(ctx, m1, "toBlock"))
      case (Some(from), Some(to)) => if TooLarge(from, to, ctx.maxBlockRange) then Some(RangeTooLarge) else None
      case _ => Some(ParseError)
  }

  function RangeRefusal(ctx: Context, params: Params): Option<Error> {
    if params.Malformed? || (exists k | 0 <= k < |params.items| :: !(params.items[k].JObject? || params.items[k].JNull?)) then Some(ParseError)
    else if params.items == [] || params.items[0].JNull? then None
    else FilterRefusal(ctx, params.items[0].fields)
  }

  /** Why a request is refused, method by method. */
  function RequestRefusal(ctx: Context, name: string, params: Params): Option<Error> {
    if name in {"eth_getLogs", "eth_newFilter"} then RangeRefusal(ctx, params)
    else if name in {"debug_getRawReceipts", "consensus_getReceipts"} then RefusalAt(ctx, params, 0, true, false)
    else if name in {"eth_getBalance", "eth_getCode", "eth_getTransactionCount", "eth_call"} then RefusalAt(ctx, params, 1, false, true)
    else if name in {"eth_getStorageAt", "eth_getProof"} then RefusalAt(ctx, params, 2, false, true)
    else if name in {
      "eth_getBlockTransactionCountByNumber", "eth_getUncleCountByBlockNumber", "eth_getBlockByNumber",
      "eth_getTransactionByBlockNumberAndIndex", "eth_getUncleByBlockNumberAndIndex"}
    then RefusalAt(ctx, params, 0, false, false)
    else None
  }

  lemma ValueRefusedIff(ctx: Context, j: Json, numberOrHash: bool)
    requires ctx.Ordered()
    ensures
      match RewriteValue(ctx, j, numberOrHash)
      case Rejected(e) => RefusalOf(ctx, j, numberOrHash) == Some(e)
      case _ => RefusalOf(ctx, j, numberOrHash) == None
  {
  }

  lemma ParamRefusedExactly(ctx: Context, params: Params, pos: nat, required: bool, numberOrHash: bool)
    requires ctx.Ordered()
    ensures
      match RewriteParam(ctx, params, pos, required, numberOrHash)
      case Refuse(e) => RefusalAt(ctx, params, pos, required, numberOrHash) == Some(e)
      case _ => RefusalAt(ctx, params, pos, required, numberOrHash) == None
  {
    if Rewritable(params, pos, required) {
      ValueRefusedIff(ctx, Original(params.items, pos), numberOrHash);
    }
  }

  /** The number read off a rewritten bound is the number it meant. */
  lemma BoundNumberIsMeant(ctx: Context, m: map<string, Json>, key: string)
    requires ctx.Ordered() && !RewriteBound(ctx, m, key).Rejected?
    ensures BoundNumber(Apply(m, key, RewriteBound(ctx, m, key)), key, ctx.view.latest) == NumberMeant(ctx, m, key)
  {
    var out := RewriteBound(ctx, m, key);
    if Unspecified(m, key) {
      assert Hex.Decode("").None?;
    } else if out.Changed? {
      var block := RewriteNumber(ctx, Parse(m[key]).value.number).block;
      LiteralReads(block);
    } else {
      LiteralBoundIsMeant(ctx, m[key].s);
    }
  }

  lemma LiteralReads(n: uint64)
    ensures Hex.Decode(Hex.Encode(n)) == Some(n) && Hex.Encode(n) != "earliest" && Hex.Encode(n) != "pending"
  {
    Hex.RoundTrip(n);
    assert Hex.Encode(n)[1] == 'x';
  }

  /** A bound left alone: earliest, pending, a hash, or a number not above latest. */
  lemma LiteralBoundIsMeant(ctx: Context, s: string)
    requires ctx.Ordered() && s != "" && RewriteValue(ctx, JString(s), false) == Unchanged
    ensures
      var m := map["k" := JString(s)];
      BoundNumber(m, "k", ctx.view.latest) == NumberMeant(ctx, m, "k")
  {
    if TagNumber(s).None? {
      if |s| == 66 {
        Hex.LongIsNoQuantity(s);
      }
      assert s != "earliest" && s != "pending";
    }
  }

  /** A bound of the defaulted filter is looked at in the same way whether or not the other one has been rewritten. */
  lemma BoundOnItsOwn(ctx: Context, m: map<string, Json>, m': map<string, Json>, key: string)
    requires Field(m, key) == Field(m', key)
    ensures RewriteBound(ctx, m, key) == RewriteBound(ctx, m', key)
    ensures BoundRefusal(ctx, m, key) == BoundRefusal(ctx, m', key) && NumberMeant(ctx, m, key) == NumberMeant(ctx, m', key)
    ensures BoundNumber(m, key, ctx.view.latest) == BoundNumber(m', key, ctx.view.latest)
  {
  }

  lemma BoundsRefusedExactly(ctx: Context, m: map<string, Json>)
    requires ctx.Ordered()
    ensures
      var from, to := BoundRefusal(ctx, WithDefaults(m), "fromBlock"), BoundRefusal(ctx, WithDefaults(m), "toBlock");
      match RewriteBounds(ctx, m)
      case FilterError(e) => Some(e) == if from.Some? then from else to
      case Filter(_) => from == None && to == None
  {
    var m1 := WithDefaults(m);
    BoundRefusedIff(ctx, m1, "fromBlock");
    var m2 := Apply(m1, "fromBlock", RewriteBound(ctx, m1, "fromBlock"));
    BoundOnItsOwn(ctx, m1, m2, "toBlock");
    BoundRefusedIff(ctx, m2, "toBlock");
  }

  lemma BoundsAreMeant(ctx: Context, m: map<string, Json>)
    requires ctx.Ordered() && RewriteBounds(ctx, m).Filter?
    ensures
      var rewritten := RewriteBounds(ctx, m).m;
      && BoundNumber(rewritten, "fromBlock", ctx.view.latest) == NumberMeant(ctx, WithDefaults(m), "fromBlock")
      && BoundNumber(rewritten, "toBlock", ctx.view.latest) == NumberMeant(ctx, WithDefaults(m), "toBlock")
  {
    var m1 := WithDefaults(m);
    var m2 := Apply(m1, "fromBlock", RewriteBound(ctx, m1, "fromBlock"));
    var m3 := Apply(m2, "toBlock", RewriteBound(ctx, m2, "toBlock"));
    BoundNumberIsMeant(ctx, m1, "fromBlock");
    BoundNumberIsMeant(ctx, m2, "toBlock");
    BoundOnItsOwn(ctx, m1, m2, "toBlock");
    BoundOnItsOwn(ctx, m2, m3, "fromBlock");
  }

  lemma FilterRefusedExactly(ctx: Context, m: map<string, Json>)
    requires ctx.Ordered()
    ensures
      match RewriteFilter(ctx, m)
      case FilterError(e) => FilterRefusal(ctx, m) == Some(e)
      case Filter(_) => FilterRefusal(ctx, m) == None
  {
    BoundsRefusedExactly(ctx, m);
    if RewriteBounds(ctx, m).Filter? {
      BoundsAreMeant(ctx, m);
    }
  }

  lemma BoundRefusedIff(ctx: Context, m: map<string, Json>, key: string)
    requires ctx.Ordered()
    ensures
      match RewriteBound(ctx, m, key)
      case Rejected(e) => BoundRefusal(ctx, m, key) == Some(e)
      case _ => BoundRefusal(ctx, m, key) == None
  {
    if !Unspecified(m, key) {
      ValueRefusedIff(ctx, m[key], false);
    }
  }

  lemma RangeRefusedExactly(ctx: Context, params: Params)
    requires ctx.Ordered()
    ensures
      match RewriteRange(ctx, params)
      case Refuse(e) => RangeRefusal(ctx, params) == Some(e)
      case _ => RangeRefusal(ctx, params) == None
  {
    if params.Items? && params.items != [] && forall k | 0 <= k < |params.items| :: IsFilter(params.items[k]) {
      assert IsFilter(params.items[0]);
      FilterRefusedExactly(ctx, if params.items[0].JObject? then params.items[0].fields else map[]);
    }
  }

  /** A request is refused with exactly the error its meaning calls for, method by method. */
  lemma RequestRefusedExactly(ctx: Context, name: string, params: Params)
    requires ctx.Ordered()
    ensures
      match RewriteRequest(ctx, name, params)
      case Refuse(e) => RequestRefusal(ctx, name, params) == Some(e)
      case _ => RequestRefusal(ctx, name, params) == None
  {
    match ShapeOf(name)
    case BlockRange => RangeRefusedExactly(ctx, params);
    case BlockParam(pos, required, numberOrHash) => ParamRefusedExactly(ctx, params, pos, required, numberOrHash);
    case Untouched =>
  }

  /** Rewriting any request a second time in the same context changes nothing. */
  lemma RewriteIsIdempotent(ctx: Context, name: string, params: Params)
    requires ctx.Ordered() && RewriteRequest(ctx, name, params).Forward?
    ensures RewriteRequest(ctx, name, RewriteRequest(ctx, name, params).params) == RewriteRequest(ctx, name, params)
  {
    match ShapeOf(name)
    case BlockRange => RangeIsIdempotent(ctx, params);
    case BlockParam(pos, required, numberOrHash) => ParamIsIdempotent(ctx, params, pos, required, numberOrHash);
    case Untouched =>
  }

  // ---------------------------------------------------------------- where the promises end

  /** A null block parameter is forwarded as it is, and means to each node its own latest block. */
  lemma NullMeansEachNodesLatest(ctx: Context, address: Json, v: View)
    requires ctx.Ordered()
    ensures
      var params := Items([address, JNull]);
      && RewriteRequest(ctx, "eth_getBalance", params) == Forward(params)
      && (MeansTheSame(ctx, JNull, JNull, v) <==> v.latest == ctx.view.latest)
  {
  }

  /**
   Rewriting against a latest block of 2^64 - 1, which as an int64 is -1.  Every block number but
   zero is refused as too high; "latest" becomes a quantity no node reads or, where hashes are
   allowed, the pending block.
   */
  lemma WrappedLatestBreaksRewriting(ctx: Context, n: uint64, numberOrHash: bool, v: View)
    requires ctx.view.latest == TWO_64 - 1
    ensures 0 < n < TWO_63 ==> RewriteValue(ctx, JString(Hex.Encode(n)), numberOrHash) == Rejected(OutOfRange)
    ensures
      var out := RewriteValue(ctx, JString("latest"), numberOrHash);
      out.Changed? && Resolve(v, out.value) == if numberOrHash then Pending else Unreadable
  {
    if 0 < n < TWO_63 {
      ReplacementParses(n);
    }
    assert Parse(JString("latest")) == Some(NumberOrHash(Some(LATEST), None, false));
    LargestQuantityIsNoBlock(v);
    MinusOneIsPending(v);
  }

  lemma LargestQuantityIsNoBlock(v: View)
    ensures Resolve(v, JString(Hex.Encode(TWO_64 - 1))) == Unreadable
  {
    Hex.RoundTrip(TWO_64 - 1);
    var s := Hex.Encode(TWO_64 - 1);
    assert s[1] == 'x';
    assert TagNumber(s).None?;
    assert ParseNumber(s).None?;
  }

  lemma MinusOneIsPending(v: View)
    ensures Resolve(v, MarshalNumber(-1)) == Pending
  {
    var fields := map["blockNumber" := JString("pending")];
    assert MarshalNumber(-1) == JObject(fields);
    assert Field(fields, "blockNumber") == JString("pending") && ParseNumber("pending") == Some(PENDING);
    assert Field(fields, "blockHash") == JNull && Field(fields, "requireCanonical") == JNull;
  }

  /** An empty parameter list is indexed out of bounds, for log queries and filters only. */
  lemma PanicsIff(ctx: Context, name: string, params: Params)
    ensures RewriteRequest(ctx, name, params).Panic? <==> name in {"eth_getLogs", "eth_newFilter"} && params == Items([])
  {
  }

  class RPCReq {
    const id: string
    var name: string
    var params: Params

    constructor (id: string, name: string, params: Params)
      ensures this.id == id && this.name == name && this.params == params
    {
      this.id, this.name, this.params := id, name, params;
    }
  }

  datatype RewriteResult =
    | RewriteNone
    | RewriteOverrideError(error: Error)
    | RewriteOverrideRequest
    | RewriteOverrideResponse(latest: uint64)
    | RewritePanic

  /** The result and the new params are those of the given outcome; a request that is not rewritten keeps its params. */
  predicate Realizes(out: Outcome, result: RewriteResult, before: Params, after: Params) {
    match out
    case Forward(p) => after == p && (result == RewriteOverrideRequest || (result == RewriteNone && p == before))
    case Refuse(e) => result == RewriteOverrideError(e) && after == before
    case Panic => result == RewritePanic && after == before
  }

  /** RewriteTags: eth_blockNumber is answered from the context, other requests are rewritten in place. */
  method RewriteTags(ctx: Context, req: RPCReq) returns (result: RewriteResult)
    modifies req`params
    ensures req.name == "eth_blockNumber" ==> result == RewriteOverrideResponse(ctx.view.latest) && req.params == old(req.params)
    ensures req.name != "eth_blockNumber" ==> Realizes(RewriteRequest(ctx, req.name, old(req.params)), result, old(req.params), req.params)
  {
    if req.name == "eth_blockNumber" {
      return RewriteOverrideResponse(ctx.view.latest);
    }
    match ShapeOf(req.name)
    case BlockRange => result := RewriteRangeInPlace(ctx, req);
    case BlockParam(pos, required, numberOrHash) => result := RewriteParamInPlace(ctx, req, pos, required, numberOrHash);
    case Untouched => result := RewriteNone;
  }

  method RewriteParamInPlace(ctx: Context, req: RPCReq, pos: nat, required: bool, numberOrHash: bool) returns (result: RewriteResult)
    modifies req`params
    ensures Realizes(RewriteParam(ctx, old(req.params), pos, required, numberOrHash), result, old(req.params), req.params)
  {
    if req.params.Malformed? {
      return RewriteOverrideError(ParseError);
    }
    var p := req.params.items;
    if |p| == pos && !required {
      p := p + [JString("latest")];
    } else if |p| <= pos {
      return RewriteNone;
    }
    var out := RewriteValue(ctx, p[pos], numberOrHash);
    if out.Rejected? {
      return RewriteOverrideError(out.error);
    }
    if out.Changed? {
      p := p[pos := out.value];
      req.params := Items(p);
      return RewriteOverrideRequest;
    }
    assert ParseString("latest") == Some(NumberOrHash(Some(LATEST), None, false));
    return RewriteNone;
  }

  method RewriteRangeInPlace(ctx: Context, req: RPCReq) returns (result: RewriteResult)
    modifies req`params
    ensures Realizes(RewriteRange(ctx, old(req.params)), result, old(req.params), req.params)
  {
    if req.params.Malformed? || exists k | 0 <= k < |req.params.items| :: !IsFilter(req.params.items[k]) {
      return RewriteOverrideError(ParseError);
    }
    var p := req.params.items;
    if |p| == 0 {
      return RewritePanic;
    }
    var out, modified := RewriteFilterMap(ctx, if p[0].JObject? then p[0].fields else map[]);
    if out.FilterError? {
      return RewriteOverrideError(out.error);
    }
    if modified {
      req.params := Items(p[0 := JObject(out.m)]);
      return RewriteOverrideRequest;
    }
    return RewriteNone;
  }

  /** The filter itself: default the missing bound, rewrite both, check the range. */
  method RewriteFilterMap(ctx: Context, m0: map<string, Json>) returns (out: FilterOutcome, modified: bool)
    ensures out == RewriteFilter(ctx, m0)
    ensures out.Filter? ==> if modified then NamesBound(m0) else out.m == m0
  {
    var m, hasFrom, hasTo := m0, "fromBlock" in m0, "toBlock" in m0;
    if hasFrom && !hasTo {
      m := m["toBlock" := JString("latest")];
    } else if hasTo && !hasFrom {
      m := m["fromBlock" := JString("latest")];
    }
    var from := RewriteBound(ctx, m, "fromBlock");
    if from.Rejected? {
      return FilterError(from.error), false;
    }
    m := Apply(m, "fromBlock", from);
    var to := RewriteBound(ctx, m, "toBlock");
    if to.Rejected? {
      return FilterError(to.error), false;
    }
    m := Apply(m, "toBlock", to);
    if ctx.maxBlockRange > 0 && (hasFrom || hasTo) {
      var fromNumber := BoundNumber(m, "fromBlock", ctx.view.latest);
      if fromNumber.None? {
        return FilterError(ParseError), false;
      }
      var toNumber := BoundNumber(m, "toBlock", ctx.view.latest);
      if toNumber.None? {
        return FilterError(ParseError), false;
      }
      if Sub(toNumber.value, fromNumber.value) > ctx.maxBlockRange {
        return FilterError(RangeTooLarge), false;
      }
    }
    return Filter(m), from.Changed? || to.Changed?;
  }
}
