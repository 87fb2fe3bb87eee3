/** The cache of recognised frames (QuickDesk/src/api/OcrCache.cpp) and the recognition that all its
    call sites share. */
module OcrCache {
  import opened Options
  import opened Sequences

  const MAX_ENTRIES: nat := 30

  /** The fields of the cache, as a value. */
  datatype Cache<R> = Cache(data: map<string, R>, order: seq<string>)

  datatype Op<R> = Put(hash: string, result: R) | Clear

  /** The queue holds each cached key once and nothing else, and is not too long. */
  ghost predicate Consistent<R>(c: Cache<R>) {
    && Distinct(c.order)
    && (forall h :: h in c.order <==> h in c.data)
    && |c.order| <= MAX_ENTRIES
    && |c.data| == |c.order|
  }

  function Evict<R>(c: Cache<R>): (r: Cache<R>) {
    if |c.order| >= MAX_ENTRIES then Cache(c.data - {c.order[0]}, c.order[1..]) else c
  }

  function After<R>(c: Cache<R>, op: Op<R>): (r: Cache<R>) {
    match op
    case Clear => Cache(map[], [])
    case Put(hash, result) =>
      if hash == "" then c
      else if hash in c.data then c.(data := c.data[hash := result])
      else Cache(Evict(c).data[hash := result], Evict(c).order + [hash])
  }

  lemma EvictKeepsConsistent<R>(c: Cache<R>)
    requires Consistent(c)
    ensures Consistent(Evict(c)) && |Evict(c).order| < MAX_ENTRIES
    ensures forall h :: h in Evict(c).data ==> h in c.data && Evict(c).data[h] == c.data[h]
  {
    if |c.order| >= MAX_ENTRIES {
      DistinctTail(c.order);
      hide Distinct;
      var first := c.order[0];
      assert (c.data - {first}).Keys == c.data.Keys - {first};
      assert |(c.data - {first}).Keys| == |c.data.Keys| - 1;
    }
  }

  lemma AddKeepsConsistent<R>(c: Cache<R>, hash: string, result: R)
    requires Consistent(c) && |c.order| < MAX_ENTRIES && hash !in c.data
    ensures Consistent(Cache(c.data[hash := result], c.order + [hash]))
  {
    DistinctSnoc(c.order, hash);
    hide Distinct;
    var d := c.data[hash := result];
    assert d.Keys == c.data.Keys + {hash};
    assert |d.Keys| == |c.data.Keys| + 1;
  }

  lemma UpdateKeepsConsistent<R>(c: Cache<R>, hash: string, result: R)
    requires Consistent(c) && hash in c.data
    ensures Consistent(c.(data := c.data[hash := result]))
  {
    hide Distinct;
    var d := c.data[hash := result];
    assert d.Keys == c.data.Keys;
    assert |d.Keys| == |c.data.Keys|;
  }

  lemma AfterKeepsConsistent<R>(c: Cache<R>, op: Op<R>)
    requires Consistent(c)
    ensures Consistent(After(c, op))
  {
    if op.Clear? {
    } else if op.hash == "" {
    } else if op.hash in c.data {
      hide Consistent;
      UpdateKeepsConsistent(c, op.hash, op.result);
    } else {
      EvictKeepsConsistent(c);
      hide Consistent, Evict;
      AddKeepsConsistent(Evict(c), op.hash, op.result);
    }
  }

  class Table<R> {
    var data: map<string, R>
    var order: seq<string>

    ghost function Value(): (c: Cache<R>)
      reads this
    {
      Cache(data, order)
    }

    ghost predicate Valid()
      reads this
    {
      Consistent(Value())
    }

    constructor ()
      ensures Valid() && Value() == Cache(map[], [])
    {
      data, order := map[], [];
    }

    method Get(hash: string) returns (r: Option<R>)
      requires Valid()
      ensures r == if hash != "" && hash in data then Some(data[hash]) else None
    {
      if hash == "" || hash !in data {
        return None;
      }
      r := Some(data[hash]);
    }

    /** Evicts until there is room; the loop runs once at most. */
    method Put(hash: string, result: R)
      requires Valid()
      modifies this
      ensures Valid() && Value() == After(old(Value()), Op.Put(hash, result))
    {
      AfterKeepsConsistent(Value(), Op.Put(hash, result));
      if hash == "" {
        return;
      }
      if hash in data {
        data := data[hash := result];
        return;
      }
      EvictKeepsConsistent(Value());
      while |data| >= MAX_ENTRIES && order != []
        invariant Valid()
        invariant Value() == old(Value()) || Value() == Evict(old(Value()))
        invariant |data| >= MAX_ENTRIES ==> Value() == old(Value())
        decreases |order|
      {
        data, order := data - {order[0]}, order[1..];
        assert Value() == Evict(old(Value()));
      }
      data := data[hash := result];
      order := order + [hash];
    }

    method Clear()
      modifies this
      ensures Valid() && Value() == After(old(Value()), Op.Clear)
    {
      data, order := map[], [];
    }

    method Size() returns (n: nat)
      requires Valid()
      ensures n == |order| == |data| <= 30
    {
      n := |data|;
    }
  }

  // ---- Any sequence of operations ----

  function Run<R>(ops: seq<Op<R>>): (c: Cache<R>) {
    if ops == [] then Cache(map[], []) else After(Run(ops[..|ops| - 1]), ops[|ops| - 1])
  }

  /** All that was put since the last clear, the latest result of each key: a cache of no bound. */
  function Unbounded<R>(ops: seq<Op<R>>): (m: map<string, R>) {
    if ops == [] then map[]
    else
      var m := Unbounded(ops[..|ops| - 1]);
      match ops[|ops| - 1]
      case Clear => map[]
      case Put(hash, result) => if hash == "" then m else m[hash := result]
  }

  /** The keys in the order they were put since the last clear, leaving out a put of a key that is
      among the last 30 of them. */
  function Arrivals<R>(ops: seq<Op<R>>): (keys: seq<string>) {
    if ops == [] then []
    else
      var keys := Arrivals(ops[..|ops| - 1]);
      match ops[|ops| - 1]
      case Clear => []
      case Put(hash, result) =>
        if hash == "" || hash in LastOf(keys, MAX_ENTRIES) then keys else keys + [hash]
  }

  /** Every step keeps the cache within a map of no bound that is updated the same way. */
  lemma AfterKeepsSubmap<R>(c: Cache<R>, m: map<string, R>, hash: string, result: R)
    requires Consistent(c) && SubMap(c.data, m) && hash != ""
    ensures SubMap(After(c, Put(hash, result)).data, m[hash := result])
  {
    EvictKeepsConsistent(c);
    hide Consistent, Evict;
  }

  ghost predicate SubMap<R>(small: map<string, R>, big: map<string, R>) {
    forall h :: h in small ==> h in big && small[h] == big[h]
  }

  /** The cache is a window on the unbounded one: its keys are the last 30 to arrive, in order of
      arrival, each with its latest result. */
  lemma {:induction false} CacheIsWindow<R>(ops: seq<Op<R>>)
    ensures Consistent(Run(ops))
    ensures Run(ops).order == LastOf(Arrivals(ops), 30)
    ensures SubMap(Run(ops).data, Unbounded(ops))
    decreases |ops|
  {
    if ops != [] {
      var before, op := ops[..|ops| - 1], ops[|ops| - 1];
      var c := Run(before);
      CacheIsWindow(before);
      AfterKeepsConsistent(c, op);
      if op.Put? && op.hash != "" {
        AfterKeepsSubmap(c, Unbounded(before), op.hash, op.result);
        KnownKeys(c, op.hash);
        WindowMoves(c, Arrivals(before), op.hash);
      }
      hide Consistent, Evict, LastOf, SubMap;
      assert SubMap(Run(ops).data, Unbounded(ops)) by {
        if op.Clear? {
          EmptySubMap<R>();
        }
      }
    }
  }

  lemma EmptySubMap<R>()
    ensures SubMap<R>(map[], map[])
  {
  }

  lemma KnownKeys<R>(c: Cache<R>, hash: string)
    requires Consistent(c)
    ensures hash in c.data <==> hash in c.order
  {
  }

  lemma WindowMoves<R>(c: Cache<R>, keys: seq<string>, hash: string)
    requires c.order == LastOf(keys, MAX_ENTRIES)
    ensures Evict(c).order + [hash] == LastOf(keys + [hash], MAX_ENTRIES)
  {
    LastOfSnoc(keys, MAX_ENTRIES, hash);
  }

  /** The queue is not one of recent use: in a full cache the oldest arrival goes next, even when it
      was put again just before. */
  lemma RenewalDoesNotProtect<R>(c: Cache<R>, renewed: R, other: string, result: R)
    requires Consistent(c) && |c.order| == MAX_ENTRIES && other != "" && other !in c.data
    ensures c.order[0] !in After(After(c, Put(c.order[0], renewed)), Put(other, result)).data
  {
    KnownKeys(c, c.order[0]);
  }

  // ---- Recognition ----

  datatype OcrResult<B> = OcrResult(blocks: seq<B>, frameHash: string)

  /** What direct recognition of a frame gives. */
  function Recognized<F, B>(frame: F, hash: F -> string, recognize: F -> OcrResult<B>): (r: OcrResult<B>) {
    recognize(frame).(frameHash := hash(frame))
  }

  /** Frames of the same hash are the same; nothing is asked of the empty hash. */
  ghost predicate CollisionFree<F(!new)>(hash: F -> string) {
    forall f, g :: hash(f) == hash(g) != "" ==> f == g
  }

  /** Whether a result is that of some frame with the hash. */
  ghost predicate OfSomeFrame<F(!new), B>(h: string, r: OcrResult<B>, hash: F -> string, recognize: F -> OcrResult<B>) {
    exists frame :: hash(frame) == h && Recognized(frame, hash, recognize) == r
  }

  /** The operations of the call sites: each puts what it recognised under the hash of the frame. */
  ghost predicate FromCallSites<F(!new), B>(ops: seq<Op<OcrResult<B>>>, hash: F -> string, recognize: F -> OcrResult<B>) {
    forall i :: 0 <= i < |ops| && ops[i].Put? ==> OfSomeFrame(ops[i].hash, ops[i].result, hash, recognize)
  }

  ghost predicate Honest<F(!new), B>(m: map<string, OcrResult<B>>, hash: F -> string, recognize: F -> OcrResult<B>) {
    forall h :: h in m ==> h != "" && OfSomeFrame(h, m[h], hash, recognize)
  }

  lemma {:induction false} UnboundedHonest<F(!new), B>(ops: seq<Op<OcrResult<B>>>, hash: F -> string, recognize: F -> OcrResult<B>)
    requires FromCallSites(ops, hash, recognize)
    ensures Honest(Unbounded(ops), hash, recognize)
    decreases |ops|
  {
    hide OfSomeFrame;
    if ops != [] {
      UnboundedHonest(ops[..|ops| - 1], hash, recognize);
    }
  }

  lemma HonestHit<F(!new), B>(m: map<string, OcrResult<B>>, frame: F, hash: F -> string, recognize: F -> OcrResult<B>)
    requires Honest(m, hash, recognize) && CollisionFree(hash) && hash(frame) in m
    ensures m[hash(frame)] == Recognized(frame, hash, recognize)
  {
    var h := hash(frame);
    assert OfSomeFrame(h, m[h], hash, recognize);
  }

  /** However the calls of all threads interleave, a hit is what direct recognition of the frame
      would give. */
  lemma HitIsRecognition<F(!new), B>(ops: seq<Op<OcrResult<B>>>, frame: F, hash: F -> string, recognize: F -> OcrResult<B>)
    requires FromCallSites(ops, hash, recognize) && CollisionFree(hash)
    requires hash(frame) in Run(ops).data
    ensures Run(ops).data[hash(frame)] == Recognized(frame, hash, recognize)
  {
    CacheIsWindow(ops);
    UnboundedHonest(ops, hash, recognize);
    HonestHit(Unbounded(ops), frame, hash, recognize);
  }

  lemma PutKeepsHonest<F(!new), B>(c: Cache<OcrResult<B>>, h: string, r: OcrResult<B>, hash: F -> string, recognize: F -> OcrResult<B>)
    requires Consistent(c) && Honest(c.data, hash, recognize) && OfSomeFrame(h, r, hash, recognize)
    ensures Honest(After(c, Put(h, r)).data, hash, recognize)
    ensures h != "" ==> h in After(c, Put(h, r)).data
    ensures h == "" ==> After(c, Put(h, r)) == c
  {
    if h != "" {
      AfterKeepsSubmap(c, c.data, h, r);
      assert h in After(c, Put(h, r)).data;
      hide Consistent, Evict, OfSomeFrame, After;
    }
  }

  /** `runOcr` on a frame that could be read. */
  method RunOcr<F(!new), B>(cache: Table<OcrResult<B>>, frame: F, hash: F -> string, recognize: F -> OcrResult<B>)
    returns (result: OcrResult<B>, fromCache: bool)
    requires cache.Valid() && Honest(cache.data, hash, recognize) && CollisionFree(hash)
    modifies cache
    ensures cache.Valid() && Honest(cache.data, hash, recognize)
    ensures result == Recognized(frame, hash, recognize)
    ensures result.blocks == recognize(frame).blocks && result.frameHash == hash(frame)
    ensures fromCache <==> hash(frame) in old(cache.data)
    ensures hash(frame) != "" ==> hash(frame) in cache.data
    ensures fromCache || hash(frame) == "" ==> cache.Value() == old(cache.Value())
  {
    hide Consistent, After;
    var frameHash := hash(frame);
    assert hash(frame) in cache.data ==> frameHash != "";
    var cached := cache.Get(frameHash);
    if cached.Some? {
      HonestHit(cache.data, frame, hash, recognize);
      return cached.value, true;
    }
    result := recognize(frame).(frameHash := frameHash);
    assert OfSomeFrame(frameHash, result, hash, recognize);
    PutKeepsHonest(cache.Value(), frameHash, result, hash, recognize);
    cache.Put(frameHash, result);
    fromCache := false;
  }
}
