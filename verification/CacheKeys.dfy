/** Which requests may be answered from the cache, and under which key. */
module CacheKeys {
  import opened JsonRpc
  import opened Text

  datatype Cacheability = NotCacheable | AlwaysCacheable | CacheableWithBlockNumber | CacheableWithBlockRange

  const ALWAYS: set<string> := {
    "eth_getBlockByHash", "eth_getTransactionByHash", "eth_getTransactionReceipt",
    "eth_getBlockTransactionCountByHash", "eth_getTransactionByBlockHashAndIndex", "eth_chainId", "net_version",
    "debug_traceBlockByHash", "debug_traceTransaction", "trace_transaction", "trace_block", "trace_replayTransaction"
  }

  const BY_BLOCK_NUMBER: set<string> := {
    "eth_getBlockByNumber", "eth_getCode", "eth_getBalance", "eth_getStorageAt", "eth_getTransactionCount",
    "eth_call", "eth_getBlockTransactionCountByNumber", "eth_getTransactionByBlockNumberAndIndex",
    "eth_getBlockReceipts", "eth_getProof", "debug_traceBlockByNumber", "debug_traceCall", "trace_call",
    "trace_callMany", "trace_replayBlockTransactions"
  }

  const BY_BLOCK_RANGE: set<string> := {"eth_getLogs", "trace_filter"}

  const DYNAMIC_TAGS: set<string> := {"latest", "pending", "earliest", "safe", "finalized"}

  function Rule(rpcMethod: string): Cacheability {
    if rpcMethod in ALWAYS then AlwaysCacheable
    else if rpcMethod in BY_BLOCK_NUMBER then CacheableWithBlockNumber
    else if rpcMethod in BY_BLOCK_RANGE then CacheableWithBlockRange
    else NotCacheable
  }

  /** Position of the block parameter, -1 for methods without one. */
  function BlockParamIndex(rpcMethod: string): int {
    if rpcMethod in {"eth_getBlockByNumber", "eth_getBlockTransactionCountByNumber",
                     "eth_getTransactionByBlockNumberAndIndex", "eth_getBlockReceipts",
                     "debug_traceBlockByNumber", "trace_replayBlockTransactions"} then 0
    else if rpcMethod in {"eth_getCode", "eth_getBalance", "eth_getTransactionCount", "eth_call",
                          "debug_traceCall", "trace_call", "trace_callMany"} then 1
    else if rpcMethod in {"eth_getStorageAt", "eth_getProof"} then 2
    else -1
  }

  predicate IsDynamicTag(s: string) { ToLower(s) in DYNAMIC_TAGS }

  predicate IsDynamicString(j: Json) { j.Str? && IsDynamicTag(j.s) }

  /** A null decodes as the empty string, which is no tag; other scalars and arrays do not decode. */
  predicate IsDynamicBlockParam(p: Json) {
    match p
    case Str(s) => IsDynamicTag(s)
    case Null => false
    case Obj(f) => "blockNumber" in f && IsDynamicString(f["blockNumber"])
    case _ => true
  }

  predicate ContainsDynamicBlockTag(rpcMethod: string, params: Option<Json>) {
    if params.None? || !(params.value.Arr? || params.value.Null?) then true else
      var items := if params.value.Arr? then params.value.items else [];
      var i := BlockParamIndex(rpcMethod);
      if i < 0 then false else if i >= |items| then true else IsDynamicBlockParam(items[i])
  }

  predicate ContainsDynamicBlockRange(params: Option<Json>) {
    if params.None? || !params.value.Arr? || params.value.items == [] || !params.value.items[0].Obj? then true else
      var f := params.value.items[0].fields;
      || "fromBlock" !in f || IsDynamicString(f["fromBlock"])
      || "toBlock" !in f || IsDynamicString(f["toBlock"])
  }

  predicate IsCacheable(disabled: set<string>, rpcMethod: string, params: Option<Json>) {
    && rpcMethod !in disabled
    && match Rule(rpcMethod)
       case AlwaysCacheable => true
       case CacheableWithBlockNumber => !ContainsDynamicBlockTag(rpcMethod, params)
       case CacheableWithBlockRange => !ContainsDynamicBlockRange(params)
       case NotCacheable => false
  }

  lemma DynamicTagIsFolded(s: string)
    ensures IsDynamicTag(s) <==> exists tag :: tag in DYNAMIC_TAGS && EqualFold(s, tag)
  {
    forall tag | tag in DYNAMIC_TAGS ensures EqualFold(s, tag) <==> ToLower(s) == tag {
      assert ToLower(tag) == tag;
      LowerDecidesEqualFold(s, tag);
    }
  }

  /** Text that is no capitalisation of a dynamic tag. */
  predicate FixedText(s: string) {
    forall tag :: tag in DYNAMIC_TAGS ==> !EqualFold(s, tag)
  }

  /**
   The block parameters that let a request be cached: fixed text, null, and objects whose blockNumber is absent,
   fixed text or no text at all.
   */
  predicate AcceptedBlock(j: Json) {
    || j.Null?
    || (j.Str? && FixedText(j.s))
    || (j.Obj? && ("blockNumber" in j.fields && j.fields["blockNumber"].Str? ==> FixedText(j.fields["blockNumber"].s)))
  }

  /** A block-number request is cacheable exactly when an accepted block parameter is in its place. */
  lemma CacheableBlocks(disabled: set<string>, rpcMethod: string, params: Option<Json>)
    requires rpcMethod !in disabled && Rule(rpcMethod) == CacheableWithBlockNumber
    ensures var i := BlockParamIndex(rpcMethod);
      IsCacheable(disabled, rpcMethod, params) <==>
        params.Some? && params.value.Arr? && 0 <= i < |params.value.items| && AcceptedBlock(params.value.items[i])
  {
    var i := BlockParamIndex(rpcMethod);
    EveryBlockMethodHasItsIndex(rpcMethod);
    if params.Some? && params.value.Arr? && i < |params.value.items| {
      var p := params.value.items[i];
      if p.Str? { DynamicTagIsFolded(p.s); }
      if p.Obj? && "blockNumber" in p.fields && p.fields["blockNumber"].Str? {
        DynamicTagIsFolded(p.fields["blockNumber"].s);
      }
    }
  }

  // ----- The same by method names and tags

  /** No capitalisation of one of the five tags that name a moving block. */
  predicate NoTag(s: string) {
    && !EqualFold(s, "latest") && !EqualFold(s, "pending") && !EqualFold(s, "earliest")
    && !EqualFold(s, "safe") && !EqualFold(s, "finalized")
  }

  lemma FixedTextHasNoTag(s: string)
    ensures FixedText(s) <==> NoTag(s)
  {
  }

  /** The item at position k names a block that does not move, as far as a cache may tell. */
  predicate NamesFixedBlock(items: seq<Json>, k: nat) {
    && k < |items|
    && match items[k]
       case Null => true
       case Str(s) => NoTag(s)
       case Obj(f) => "blockNumber" in f && f["blockNumber"].Str? ==> NoTag(f["blockNumber"].s)
       case _ => false
  }

  /** Each method looks for its block in its own position; there, and only there, a fixed block lets it be cached. */
  lemma BlockMethodsByName(disabled: set<string>, m: string, params: Option<Json>, k: nat)
    requires m !in disabled
    requires
      || (k == 0 && m in {"eth_getBlockByNumber", "eth_getBlockTransactionCountByNumber",
                          "eth_getTransactionByBlockNumberAndIndex", "eth_getBlockReceipts",
                          "debug_traceBlockByNumber", "trace_replayBlockTransactions"})
      || (k == 1 && m in {"eth_getCode", "eth_getBalance", "eth_getTransactionCount", "eth_call", "debug_traceCall",
                          "trace_call", "trace_callMany"})
      || (k == 2 && m in {"eth_getStorageAt", "eth_getProof"})
    ensures IsCacheable(disabled, m, params) <==>
      params.Some? && params.value.Arr? && NamesFixedBlock(params.value.items, k)
  {
    assert BlockParamIndex(m) == k;
    CacheableBlocks(disabled, m, params);
    if params.Some? && params.value.Arr? && k < |params.value.items| {
      var p := params.value.items[k];
      if p.Str? { FixedTextHasNoTag(p.s); }
      if p.Obj? && "blockNumber" in p.fields && p.fields["blockNumber"].Str? {
        FixedTextHasNoTag(p.fields["blockNumber"].s);
      }
    }
  }

  /** Logs and trace filters need both bounds of their filter object, and neither may be a tag. */
  lemma RangeMethodsByName(disabled: set<string>, m: string, params: Option<Json>)
    requires m !in disabled && (m == "eth_getLogs" || m == "trace_filter")
    ensures IsCacheable(disabled, m, params) <==>
      && params.Some? && params.value.Arr? && |params.value.items| > 0 && params.value.items[0].Obj?
      && var f := params.value.items[0].fields;
         && "fromBlock" in f && (f["fromBlock"].Str? ==> NoTag(f["fromBlock"].s))
         && "toBlock" in f && (f["toBlock"].Str? ==> NoTag(f["toBlock"].s))
  {
    CacheableRanges(disabled, m, params);
  }

  /** Twelve methods are cached whatever they ask for; a method in none of the lists, or disabled, never is. */
  lemma OtherMethodsByName(disabled: set<string>, m: string, params: Option<Json>)
    requires m !in {"eth_getBlockByNumber", "eth_getBlockTransactionCountByNumber",
                    "eth_getTransactionByBlockNumberAndIndex", "eth_getBlockReceipts", "debug_traceBlockByNumber",
                    "trace_replayBlockTransactions", "eth_getCode", "eth_getBalance", "eth_getTransactionCount",
                    "eth_call", "debug_traceCall", "trace_call", "trace_callMany", "eth_getStorageAt", "eth_getProof",
                    "eth_getLogs", "trace_filter"} || m in disabled
    ensures IsCacheable(disabled, m, params) <==>
      m !in disabled
      && m in {"eth_getBlockByHash", "eth_getTransactionByHash", "eth_getTransactionReceipt",
               "eth_getBlockTransactionCountByHash", "eth_getTransactionByBlockHashAndIndex", "eth_chainId",
               "net_version", "debug_traceBlockByHash", "debug_traceTransaction", "trace_transaction", "trace_block",
               "trace_replayTransaction"}
  {
  }

  /** A null block parameter, which a node reads as the latest block, is accepted. */
  lemma NullBlockIsCached(call: Json)
    ensures IsCacheable({}, "eth_call", Some(Arr([call, Null])))
  {
    var i := BlockParamIndex("eth_call");
    assert i == 1;
    CacheableBlocks({}, "eth_call", Some(Arr([call, Null])));
  }

  /** A bound of a block range that lets the request be cached: present, and no capitalisation of a dynamic tag. */
  predicate AcceptedBound(f: map<string, Json>, k: string) {
    k in f && (f[k].Str? ==> FixedText(f[k].s))
  }

  /** A block-range request is cacheable exactly when it has a filter object with two accepted bounds. */
  lemma CacheableRanges(disabled: set<string>, rpcMethod: string, params: Option<Json>)
    requires rpcMethod !in disabled && Rule(rpcMethod) == CacheableWithBlockRange
    ensures IsCacheable(disabled, rpcMethod, params) <==>
      && params.Some? && params.value.Arr? && |params.value.items| > 0 && params.value.items[0].Obj?
      && AcceptedBound(params.value.items[0].fields, "fromBlock") && AcceptedBound(params.value.items[0].fields, "toBlock")
  {
    if params.Some? && params.value.Arr? && |params.value.items| > 0 && params.value.items[0].Obj? {
      var f := params.value.items[0].fields;
      if "fromBlock" in f && f["fromBlock"].Str? { DynamicTagIsFolded(f["fromBlock"].s); }
      if "toBlock" in f && f["toBlock"].Str? { DynamicTagIsFolded(f["toBlock"].s); }
    }
  }

  /** Null bounds pass like a null block does. */
  lemma NullRangeIsCached(filter: map<string, Json>)
    ensures IsCacheable({}, "eth_getLogs", Some(Arr([Obj(filter["fromBlock" := Null]["toBlock" := Null])])))
  {
    CacheableRanges({}, "eth_getLogs", Some(Arr([Obj(filter["fromBlock" := Null]["toBlock" := Null])])));
  }

  /** No other parameter is looked at: the remaining methods are cached always or never. */
  lemma OtherMethodsIgnoreParameters(disabled: set<string>, rpcMethod: string, params: Option<Json>)
    requires rpcMethod !in disabled && rpcMethod !in BY_BLOCK_NUMBER && rpcMethod !in BY_BLOCK_RANGE
    ensures IsCacheable(disabled, rpcMethod, params) <==> rpcMethod in ALWAYS
  {
  }

  /** In particular trace_block is cached although its parameter may be a dynamic tag. */
  lemma TaggedTraceBlockIsCached(tag: string)
    ensures IsCacheable({}, "trace_block", Some(Arr([Str(tag)])))
  {
  }

  // ----- Normalisation

  function Normalize(v: Json): Json {
    match v
    case Str(s) => Str(ToLower(s))
    case Arr(items) => Arr(seq(|items|, i requires 0 <= i < |items| => Normalize(items[i])))
    case Obj(f) => Obj(map k | k in f :: Normalize(f[k]))
    case _ => v
  }

  /** Missing parameters are normalised like an empty list. */
  function NormalizeParams(params: Option<Json>): Json {
    match params
    case None => Arr([])
    case Some(v) => Normalize(v)
  }

  method NormalizeArray(v: Json) returns (r: seq<Json>)
    requires v.Arr?
    ensures Arr(r) == Normalize(v)
    decreases v, 0
  {
    var items := v.items;
    r := [];
    for i := 0 to |items|
      invariant |r| == i && forall j :: 0 <= j < i ==> r[j] == Normalize(items[j])
    {
      var x := NormalizeValue(items[i]);
      r := r + [x];
    }
  }

  /** Keys are visited in some order; a map has none to remember. */
  method NormalizeMap(v: Json) returns (r: map<string, Json>)
    requires v.Obj?
    ensures Obj(r) == Normalize(v)
    decreases v, 0
  {
    var f := v.fields;
    r := map[];
    var keys := f.Keys;
    while keys != {}
      invariant keys <= f.Keys
      invariant r == map k | k in f && k !in keys :: Normalize(f[k])
      decreases keys
    {
      var k :| k in keys;
      var x := NormalizeValue(v.fields[k]);
      r := r[k := x];
      keys := keys - {k};
    }
  }

  method NormalizeValue(v: Json) returns (r: Json)
    ensures r == Normalize(v)
    decreases v, 1
  {
    match v
    case Obj(_) =>
      var m := NormalizeMap(v);
      r := Obj(m);
    case Arr(_) =>
      var a := NormalizeArray(v);
      r := Arr(a);
    case Str(s) => r := Str(ToLower(s));
    case _ => r := v;
  }

  /** Structural equality up to the case of string values; object keys must match exactly. */
  ghost predicate SameUpToCase(v: Json, w: Json) {
    match v
    case Str(s) => w.Str? && EqualFold(s, w.s)
    case Arr(items) => w.Arr? && |items| == |w.items|
      && forall i :: 0 <= i < |items| ==> SameUpToCase(items[i], w.items[i])
    case Obj(f) => w.Obj? && f.Keys == w.fields.Keys
      && forall k :: k in f ==> SameUpToCase(f[k], w.fields[k])
    case _ => v == w
  }

  lemma NormalArraysEqual(v: Json, w: Json)
    requires v.Arr? && w.Arr?
    ensures Normalize(v) == Normalize(w) <==>
      |v.items| == |w.items|
      && forall i :: 0 <= i < |v.items| ==> Normalize(v.items[i]) == Normalize(w.items[i])
  {
    var a, b := Normalize(v).items, Normalize(w).items;
    assert |a| == |v.items| && |b| == |w.items|;
    assert a == b <==> |a| == |b| && forall i :: 0 <= i < |a| ==> a[i] == b[i];
    assert forall i :: 0 <= i < |a| ==> a[i] == Normalize(v.items[i]);
    assert forall i :: 0 <= i < |b| ==> b[i] == Normalize(w.items[i]);
  }

  lemma NormalMapsEqual(v: Json, w: Json)
    requires v.Obj? && w.Obj?
    ensures Normalize(v) == Normalize(w) <==>
      v.fields.Keys == w.fields.Keys
      && forall k :: k in v.fields && k in w.fields ==> Normalize(v.fields[k]) == Normalize(w.fields[k])
  {
    var a, b := Normalize(v).fields, Normalize(w).fields;
    assert a.Keys == v.fields.Keys && b.Keys == w.fields.Keys;
    assert a == b <==> a.Keys == b.Keys && forall k :: k in a && k in b ==> a[k] == b[k];
    assert forall k :: k in v.fields ==> a[k] == Normalize(v.fields[k]);
    assert forall k :: k in w.fields ==> b[k] == Normalize(w.fields[k]);
  }

  /** Two values normalise equally exactly when they are the same up to string case. */
  lemma {:induction false} NormalizeDecidesSame(v: Json, w: Json)
    ensures Normalize(v) == Normalize(w) <==> SameUpToCase(v, w)
  {
    match v
    case Str(s) =>
      if w.Str? { LowerDecidesEqualFold(s, w.s); }
    case Arr(items) =>
      if w.Arr? {
        NormalArraysEqual(v, w);
        forall i | 0 <= i < |items| && i < |w.items|
          ensures Normalize(items[i]) == Normalize(w.items[i]) <==> SameUpToCase(items[i], w.items[i])
        {
          NormalizeDecidesSame(items[i], w.items[i]);
        }
      }
    case Obj(f) =>
      if w.Obj? {
        NormalMapsEqual(v, w);
        forall k | k in f && k in w.fields
          ensures Normalize(f[k]) == Normalize(w.fields[k]) <==> SameUpToCase(f[k], w.fields[k])
        {
          NormalizeDecidesSame(f[k], w.fields[k]);
        }
      }
    case _ =>
  }

  lemma {:induction false} NormalizeIdempotent(v: Json)
    ensures Normalize(Normalize(v)) == Normalize(v)
  {
    match v
    case Str(s) => LowerDecidesEqualFold(s, s);
    case Arr(items) =>
      forall i | 0 <= i < |items| ensures Normalize(Normalize(items[i])) == Normalize(items[i]) {
        NormalizeIdempotent(items[i]);
      }
    case Obj(f) =>
      forall k | k in f ensures Normalize(Normalize(f[k])) == Normalize(f[k]) {
        NormalizeIdempotent(f[k]);
      }
    case _ =>
  }

  // ----- One key never mixes cacheable and uncacheable requests

  lemma NormalStringsAgree(v: Json, w: Json)
    requires Normalize(v) == Normalize(w)
    ensures IsDynamicString(v) <==> IsDynamicString(w)
  {
  }

  lemma NormalBlockParamsAgree(v: Json, w: Json)
    requires Normalize(v) == Normalize(w)
    ensures IsDynamicBlockParam(v) <==> IsDynamicBlockParam(w)
  {
    if v.Obj? {
      assert Normalize(v).fields.Keys == v.fields.Keys && Normalize(w).fields.Keys == w.fields.Keys;
      if "blockNumber" in v.fields {
        assert Normalize(v).fields["blockNumber"] == Normalize(w).fields["blockNumber"];
        NormalStringsAgree(v.fields["blockNumber"], w.fields["blockNumber"]);
      }
    }
  }

  lemma NormalFilterFieldsAgree(v: Json, w: Json, k: string)
    requires v.Obj? && Normalize(v) == Normalize(w)
    ensures w.Obj? && (k in v.fields <==> k in w.fields)
    ensures k in v.fields ==> (IsDynamicString(v.fields[k]) <==> IsDynamicString(w.fields[k]))
  {
    assert Normalize(v).fields.Keys == v.fields.Keys && Normalize(w).fields.Keys == w.fields.Keys;
    if k in v.fields {
      assert Normalize(v).fields[k] == Normalize(w).fields[k];
      NormalStringsAgree(v.fields[k], w.fields[k]);
    }
  }

  lemma NormalItemsAgree(p: Json, q: Json, i: nat)
    requires p.Arr? && Normalize(p) == Normalize(q)
    ensures q.Arr? && |q.items| == |p.items|
    ensures i < |p.items| ==> Normalize(p.items[i]) == Normalize(q.items[i])
  {
    assert |Normalize(p).items| == |p.items| && |Normalize(q).items| == |q.items|;
    if i < |p.items| {
      assert Normalize(p).items[i] == Normalize(p.items[i]);
      assert Normalize(q).items[i] == Normalize(q.items[i]);
    }
  }

  /** The parameters as a list, the way the code sees them. */
  function Explicit(params: Option<Json>): Json {
    if params.None? then Arr([]) else params.value
  }

  lemma EveryBlockMethodHasItsIndex(rpcMethod: string)
    requires rpcMethod in BY_BLOCK_NUMBER
    ensures BlockParamIndex(rpcMethod) >= 0
  {
  }

  /** Parameters with equal normal forms are cacheable or not together. */
  lemma CacheabilityDependsOnKey(disabled: set<string>, rpcMethod: string, p: Option<Json>, q: Option<Json>)
    requires NormalizeParams(p) == NormalizeParams(q)
    ensures IsCacheable(disabled, rpcMethod, p) <==> IsCacheable(disabled, rpcMethod, q)
  {
    var v, w := Explicit(p), Explicit(q);
    assert Normalize(v) == Normalize(w);
    if rpcMethod in BY_BLOCK_NUMBER {
      EveryBlockMethodHasItsIndex(rpcMethod);
      var i := BlockParamIndex(rpcMethod);
      if v.Arr? {
        NormalItemsAgree(v, w, i);
        if i < |v.items| { NormalBlockParamsAgree(v.items[i], w.items[i]); }
      }
    }
    if v.Arr? {
      NormalItemsAgree(v, w, 0);
      if |v.items| > 0 && v.items[0].Obj? {
        NormalFilterFieldsAgree(v.items[0], w.items[0], "fromBlock");
        NormalFilterFieldsAgree(v.items[0], w.items[0], "toBlock");
      }
    }
  }

  // ----- Keys

  /** hash stands for the first eight bytes of a SHA-256 digest, in hexadecimal. */
  function CacheKey(hash: Json -> string, group: string, rpcMethod: string, params: Option<Json>): string {
    group + ":" + rpcMethod + ":" + hash(NormalizeParams(params))
  }

  lemma AlwaysHasNoColon(rpcMethod: string)
    requires rpcMethod in ALWAYS
    ensures NoColon(rpcMethod)
  {
  }

  lemma ByNumberHasNoColon(rpcMethod: string)
    requires rpcMethod in BY_BLOCK_NUMBER
    ensures NoColon(rpcMethod)
  {
  }

  lemma ByRangeHasNoColon(rpcMethod: string)
    requires rpcMethod in BY_BLOCK_RANGE
    ensures NoColon(rpcMethod)
  {
  }

  lemma CacheableMethodsHaveNoColon(rpcMethod: string)
    requires Rule(rpcMethod) != NotCacheable
    ensures NoColon(rpcMethod)
  {
    if rpcMethod in ALWAYS {
      AlwaysHasNoColon(rpcMethod);
    } else if rpcMethod in BY_BLOCK_NUMBER {
      ByNumberHasNoColon(rpcMethod);
    } else {
      ByRangeHasNoColon(rpcMethod);
    }
  }

  /** A request without parameters shares its key with one whose parameters are an empty list. */
  lemma MissingParamsAreEmpty(hash: Json -> string, g: string, m: string)
    ensures CacheKey(hash, g, m, None) == CacheKey(hash, g, m, Some(Arr([])))
  {
    assert Normalize(Arr([])) == Arr([]);
  }

  /** The digests of the two normalised parameter lists are colon-free, as hexadecimal is, and do not collide. */
  predicate Separates(hash: Json -> string, p: Option<Json>, q: Option<Json>) {
    && NoColon(hash(NormalizeParams(p))) && NoColon(hash(NormalizeParams(q)))
    && (hash(NormalizeParams(p)) == hash(NormalizeParams(q)) ==> NormalizeParams(p) == NormalizeParams(q))
  }

  /**
   Two requests for cacheable methods whose parameters do not collide share a key exactly when group and method
   are equal and the parameters are the same up to string case. Group names may contain anything.
   */
  lemma KeysIdentifyRequests(hash: Json -> string, g: string, m: string, p: Option<Json>,
                             g': string, m': string, p': Option<Json>)
    requires Rule(m) != NotCacheable && Rule(m') != NotCacheable && Separates(hash, p, p')
    ensures CacheKey(hash, g, m, p) == CacheKey(hash, g', m', p') <==>
      g == g' && m == m' && SameUpToCase(Explicit(p), Explicit(p'))
  {
    NormalizeDecidesSame(Explicit(p), Explicit(p'));
    KeysSplit(hash, g, m, p, g', m', p');
  }

  /** Without any assumption on collisions: a key is exactly group, method and digest. */
  lemma KeysSplit(hash: Json -> string, g: string, m: string, p: Option<Json>, g': string, m': string, p': Option<Json>)
    requires Rule(m) != NotCacheable && Rule(m') != NotCacheable
    requires NoColon(hash(NormalizeParams(p))) && NoColon(hash(NormalizeParams(p')))
    ensures CacheKey(hash, g, m, p) == CacheKey(hash, g', m', p') <==>
      g == g' && m == m' && hash(NormalizeParams(p)) == hash(NormalizeParams(p'))
  {
    CacheableMethodsHaveNoColon(m);
    CacheableMethodsHaveNoColon(m');
    TwoColons(g, m, hash(NormalizeParams(p)), g', m', hash(NormalizeParams(p')));
  }

  /** Without colons in the last two parts, the three parts of a key are determined by it. */
  lemma TwoColons(a: string, b: string, c: string, a': string, b': string, c': string)
    requires NoColon(b) && NoColon(c) && NoColon(b') && NoColon(c')
    ensures a + ":" + b + ":" + c == a' + ":" + b' + ":" + c' <==> a == a' && b == b' && c == c'
  {
    var front, front' := a + ":" + b, a' + ":" + b';
    if front + ":" + c == front' + ":" + c' {
      LastColonSplits(front, c, front', c');
      LastColonSplits(a, b, a', b');
    }
  }
}
