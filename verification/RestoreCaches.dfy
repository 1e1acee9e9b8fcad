/** The chunk cache (least recently used) and the container cache (first in, first out) of the
    restore task. */
module RestoreCaches {
  import opened Common
  import opened StoreModel

  // ---------- Most recently used ids ----------

  function Without(s: seq<nat>, x: nat): (r: seq<nat>)
    ensures x !in r && forall y :: y in r <==> y in s && y != x
    ensures x !in s ==> r == s
  {
    if s == [] then [] else (if s[0] == x then [] else [s[0]]) + Without(s[1..], x)
  }

  /** The distinct ids of a request history, most recent first. */
  function Recent(requests: seq<nat>): (r: seq<nat>)
    decreases |requests|
  {
    if requests == [] then []
    else
      var last := requests[|requests| - 1];
      [last] + Without(Recent(requests[..|requests| - 1]), last)
  }

  function Take(s: seq<nat>, k: nat): seq<nat>
  {
    if |s| <= k then s else s[..k]
  }

  lemma {:induction false} WithoutNoDup(s: seq<nat>, x: nat)
    requires NoDup(s)
    ensures NoDup(Without(s, x))
    ensures x in s ==> |Without(s, x)| == |s| - 1
  {
    if s != [] {
      assert NoDup(s[1..]) && s[0] !in s[1..];
      WithoutNoDup(s[1..], x);
    }
  }

  lemma {:induction false} RecentNoDup(requests: seq<nat>)
    ensures NoDup(Recent(requests))
    ensures forall x :: x in Recent(requests) <==> x in requests
    decreases |requests|
  {
    if requests != [] {
      var init, last := requests[..|requests| - 1], requests[|requests| - 1];
      assert requests == init + [last];
      RecentNoDup(init);
      WithoutNoDup(Recent(init), last);
    }
  }

  /** A hit moves the id to the front; a miss on a full cache drops the oldest id first. */
  lemma RecentStep(requests: seq<nat>, x: nat, k: nat)
    requires k > 0
    ensures var before, after := Take(Recent(requests), k), Take(Recent(requests + [x]), k);
            after == if x in before then [x] + Without(before, x)
                     else if |before| >= k then [x] + before[..k - 1]
                     else [x] + before
  {
    assert (requests + [x])[..|requests|] == requests;
    RecentNoDup(requests);
    var s := Recent(requests);
    var a := Take(s, k);
    var b := s[|a|..];
    assert s == a + b;
    WithoutConcat(a, b, x);
    FrontOfRequest(a, b, x, k);
  }

  lemma {:induction false} WithoutConcat(a: seq<nat>, b: seq<nat>, x: nat)
    ensures Without(a + b, x) == Without(a, x) + Without(b, x)
  {
    if a == [] {
      assert a + b == b;
    } else {
      assert (a + b)[1..] == a[1..] + b;
      WithoutConcat(a[1..], b, x);
    }
  }

  lemma FrontOfRequest(a: seq<nat>, b: seq<nat>, x: nat, k: nat)
    requires NoDup(a + b) && 0 < k && |a| <= k && (b != [] ==> |a| == k)
    ensures Take([x] + (Without(a, x) + Without(b, x)), k) ==
            if x in a then [x] + Without(a, x) else if |a| >= k then [x] + a[..k - 1] else [x] + a
  {
    hide NoDup, Without;
    if x in a {
      RepeatedRequest(a, b, x);
    }
  }

  lemma RepeatedRequest(a: seq<nat>, b: seq<nat>, x: nat)
    requires NoDup(a + b) && x in a
    ensures Without(b, x) == b && |Without(a, x)| == |a| - 1
  {
    hide Without;
    assert forall i :: 0 <= i < |a| ==> (a + b)[i] == a[i];
    assert forall j :: 0 <= j < |b| ==> (a + b)[|a| + j] == b[j];
    assert x !in b;
    assert NoDup(a);
    WithoutNoDup(a, x);
  }

  lemma LastDiffers(s: seq<nat>)
    requires NoDup(s) && s != []
    ensures s[|s| - 1] !in s[..|s| - 1]
  {}

  lemma WithoutLast(s: seq<nat>)
    requires NoDup(s) && s != []
    ensures Without(s, s[|s| - 1]) == s[..|s| - 1]
  {
    hide NoDup;
    var init, x := s[..|s| - 1], s[|s| - 1];
    assert s == init + [x];
    LastDiffers(s);
    WithoutConcat(init, [x], x);
    assert [x][1..] == [] && Without([x], x) == [];
  }

  // ---------- Chunk cache ----------

  /** Container number in the high 32 bits of a 64-bit word, number inside the container in the
      low ones. */
  function ChunkGlobalID(ev: EntryValue): nat
  {
    (ev.containerNumber % U32 * U32 + ev.innerIndex) % U64
  }

  type Cached = map<nat, (Bytes, nat)>

  /** Ids in falling order of their time stamps. */
  ghost predicate Descending(order: seq<nat>, cache: Cached)
  {
    order != [] ==>
      && order[0] in cache
      && (forall x :: x in order[1..] ==> x in cache && cache[x].1 < cache[order[0]].1)
      && Descending(order[1..], cache)
  }

  lemma {:induction false} DescendingWithout(order: seq<nat>, cache: Cached, cache': Cached, id: nat)
    requires Descending(order, cache)
    requires forall x :: x in order && x != id ==> x in cache' && cache'[x].1 == cache[x].1
    ensures Descending(Without(order, id), cache')
  {
    if order != [] {
      DescendingWithout(order[1..], cache, cache', id);
      var rest := Without(order[1..], id);
      if order[0] == id {
        assert Without(order, id) == rest;
      } else {
        assert Without(order, id) == [order[0]] + rest;
        assert forall x :: x in rest ==> x in order && x != id;
      }
    }
  }

  lemma {:induction false} DescendingLast(order: seq<nat>, cache: Cached)
    requires Descending(order, cache) && order != []
    ensures forall x :: x in order ==> x in cache && cache[order[|order| - 1]].1 <= cache[x].1
  {
    if |order| > 1 {
      DescendingLast(order[1..], cache);
      assert order[1..][|order| - 2] == order[|order| - 1];
    }
  }

  /** The time-stamp table is the inverse of the stamps in the cache. */
  ghost predicate Inverse(cache: Cached, lru: map<nat, nat>)
  {
    && (forall id :: id in cache ==> cache[id].1 in lru && lru[cache[id].1] == id)
    && (forall t :: t in lru ==> lru[t] in cache && cache[lru[t]].1 == t)
  }

  /** The two maps of the cache against the ids they hold, most recent first. */
  ghost predicate Holding(order: seq<nat>, cache: Cached, lru: map<nat, nat>, timestamp: nat)
  {
    && NoDup(order) && cache.Keys == Members(order)
    && Inverse(cache, lru)
    && Descending(order, cache)
    && forall t :: t in lru ==> t <= timestamp
  }

  lemma InverseSet(cache: Cached, lru: map<nat, nat>, id: nat, data: Bytes, t: nat)
    requires Inverse(cache, lru) && id !in cache && t !in lru
    ensures Inverse(cache[id := (data, t)], lru[t := id])
  {}

  lemma InverseDrop(cache: Cached, lru: map<nat, nat>, id: nat)
    requires Inverse(cache, lru) && id in cache
    ensures cache[id].1 in lru && Inverse(cache - {id}, lru - {cache[id].1})
  {}

  lemma DescendingPush(order: seq<nat>, cache: Cached, timestamp: nat, id: nat, data: Bytes)
    requires Descending(order, cache) && id !in order
    requires forall x :: x in order ==> x in cache && cache[x].1 <= timestamp
    ensures Descending([id] + order, cache[id := (data, timestamp + 1)])
  {
    hide Without;
    var cache' := cache[id := (data, timestamp + 1)];
    DescendingWithout(order, cache, cache', id);
    assert ([id] + order)[1..] == order;
  }

  lemma PushFront(order: seq<nat>, id: nat)
    requires NoDup(order) && id !in order
    ensures NoDup([id] + order) && Members([id] + order) == Members(order) + {id}
  {}

  lemma MissKeeps(order: seq<nat>, cache: Cached, lru: map<nat, nat>, timestamp: nat, id: nat, data: Bytes)
    requires Holding(order, cache, lru, timestamp) && id !in cache
    ensures Holding([id] + order, cache[id := (data, timestamp + 1)], lru[timestamp + 1 := id], timestamp + 1)
  {
    hide Descending, Inverse, NoDup, Members;
    HoldingKeys(order, cache, lru, timestamp);
    PushFront(order, id);
    DescendingPush(order, cache, timestamp, id, data);
    InverseSet(cache, lru, id, data, timestamp + 1);
  }

  lemma RemoveKeeps(order: seq<nat>, cache: Cached, lru: map<nat, nat>, timestamp: nat, id: nat)
    requires Holding(order, cache, lru, timestamp) && id in cache
    ensures cache[id].1 in lru
    ensures Holding(Without(order, id), cache - {id}, lru - {cache[id].1}, timestamp)
  {
    hide Descending, Inverse;
    WithoutNoDup(order, id);
    assert forall x :: x in order ==> x in Members(order);
    DescendingWithout(order, cache, cache - {id}, id);
    InverseDrop(cache, lru, id);
    assert Members(Without(order, id)) == Members(order) - {id};
  }

  lemma HitKeeps(order: seq<nat>, cache: Cached, lru: map<nat, nat>, timestamp: nat, id: nat)
    requires Holding(order, cache, lru, timestamp) && id in cache
    ensures cache[id].1 in lru
    ensures Holding([id] + Without(order, id), cache[id := (cache[id].0, timestamp + 1)],
                    (lru - {cache[id].1})[timestamp + 1 := id], timestamp + 1)
  {
    hide Holding;
    RemoveKeeps(order, cache, lru, timestamp, id);
    MissKeeps(Without(order, id), cache - {id}, lru - {cache[id].1}, timestamp, id, cache[id].0);
    assert (cache - {id})[id := (cache[id].0, timestamp + 1)] == cache[id := (cache[id].0, timestamp + 1)];
  }

  /** The smallest time stamp belongs to the id at the end. */
  lemma OldestIsLast(order: seq<nat>, cache: Cached, lru: map<nat, nat>, timestamp: nat)
    requires Holding(order, cache, lru, timestamp) && order != []
    ensures var last := order[|order| - 1];
            last in cache && cache[last].1 in lru && forall u :: u in lru ==> cache[last].1 <= u
  {
    DescendingLast(order, cache);
    assert forall u :: u in lru ==> lru[u] in Members(order);
  }

  lemma EvictKeeps(order: seq<nat>, cache: Cached, lru: map<nat, nat>, timestamp: nat)
    requires Holding(order, cache, lru, timestamp) && order != []
    ensures var last := order[|order| - 1];
            && last in cache && cache[last].1 in lru
            && Holding(order[..|order| - 1], cache - {last}, lru - {cache[last].1}, timestamp)
  {
    var last := order[|order| - 1];
    assert last in Members(order);
    RemoveKeeps(order, cache, lru, timestamp, last);
    WithoutLast(order);
  }

  // ---------- Whose bytes a request gets ----------

  function Ids(requests: seq<EntryValue>): (r: seq<nat>)
    ensures |r| == |requests| && forall i :: 0 <= i < |r| ==> r[i] == ChunkGlobalID(requests[i])
  {
    seq(|requests|, i requires 0 <= i < |requests| => ChunkGlobalID(requests[i]))
  }

  /** For every cached id, the entry it was loaded for. */
  function Owners(requests: seq<EntryValue>, k: nat): map<nat, EntryValue>
    decreases |requests|
  {
    if requests == [] then map[] else OwnersAfter(Owners(requests[..|requests| - 1], k),
      Take(Recent(Ids(requests[..|requests| - 1])), k), k, requests[|requests| - 1])
  }

  /** A hit changes nothing; a miss loads the chunk, in the place of the least recent one when the
      cache is full. */
  function OwnersAfter(owners: map<nat, EntryValue>, order: seq<nat>, k: nat, ev: EntryValue): map<nat, EntryValue>
  {
    if ChunkGlobalID(ev) in owners then owners
    else (if |order| >= k && order != [] then owners - {order[|order| - 1]} else owners)[ChunkGlobalID(ev) := ev]
  }

  /** What is cached under an id is the slice of the entry it was loaded for. */
  ghost predicate Answers(containers: map<nat, Bytes>, owners: map<nat, EntryValue>, cache: Cached)
  {
    owners.Keys == cache.Keys && forall id :: id in cache ==> Slice(containers, owners[id]) == Some(cache[id].0)
  }

  lemma AnswersHit(containers: map<nat, Bytes>, owners: map<nat, EntryValue>, cache: Cached, id: nat, t: nat)
    requires Answers(containers, owners, cache) && id in cache
    ensures Answers(containers, owners, cache[id := (cache[id].0, t)])
  {
    hide Slice;
  }

  lemma AnswersMiss(containers: map<nat, Bytes>, owners: map<nat, EntryValue>, cache: Cached, ev: EntryValue,
                    data: Bytes, t: nat)
    requires Answers(containers, owners, cache) && Slice(containers, ev) == Some(data)
    ensures Answers(containers, owners[ChunkGlobalID(ev) := ev], cache[ChunkGlobalID(ev) := (data, t)])
  {
    hide Slice, ChunkGlobalID;
  }

  lemma AnswersEvict(containers: map<nat, Bytes>, owners: map<nat, EntryValue>, cache: Cached, id: nat)
    requires Answers(containers, owners, cache)
    ensures Answers(containers, owners - {id}, cache - {id})
  {
    hide Slice;
  }

  /** The entries behind the cached ids have been requested and have these ids; the last request
      is among the ids. */
  lemma {:induction false} OwnersRequested(requests: seq<EntryValue>, k: nat)
    ensures forall id :: id in Owners(requests, k) ==>
              Owners(requests, k)[id] in requests && ChunkGlobalID(Owners(requests, k)[id]) == id
    ensures requests != [] ==> ChunkGlobalID(requests[|requests| - 1]) in Owners(requests, k)
    decreases |requests|
  {
    hide ChunkGlobalID, Take, Recent;
    if requests != [] {
      OwnersRequested(requests[..|requests| - 1], k);
    }
  }

  /** Chunks whose ids tell them apart, as far as their bytes go. */
  ghost predicate ToldApart(containers: map<nat, Bytes>, evs: set<EntryValue>)
  {
    forall d, e :: d in evs && e in evs && ChunkGlobalID(d) == ChunkGlobalID(e) ==>
      Slice(containers, d) == Slice(containers, e)
  }

  /** The bytes the last request gets. */
  function Answer(containers: map<nat, Bytes>, requests: seq<EntryValue>, k: nat): Option<Bytes>
    requires requests != []
  {
    var id := ChunkGlobalID(requests[|requests| - 1]);
    if id in Owners(requests, k) then Slice(containers, Owners(requests, k)[id]) else None
  }

  lemma AnswerToldApart(containers: map<nat, Bytes>, evs: set<EntryValue>, requests: seq<EntryValue>, k: nat)
    requires ToldApart(containers, evs) && requests != [] && forall e :: e in requests ==> e in evs
    ensures Answer(containers, requests, k) == Slice(containers, requests[|requests| - 1])
  {
    hide ChunkGlobalID, Slice, Owners;
    OwnersRequested(requests, k);
  }

  lemma SecondRequest(containers: map<nat, Bytes>, d: EntryValue, e: EntryValue, k: nat)
    requires ChunkGlobalID(d) == ChunkGlobalID(e)
    ensures Answer(containers, [d, e], k) == Slice(containers, d)
  {
    hide ChunkGlobalID, Slice, Recent;
    assert [d, e][..1] == [d] && [d][..0] == [];
    assert Owners([d], k) == map[ChunkGlobalID(d) := d];
    assert Owners([d, e], k) == Owners([d], k);
  }

  /** Every run of requests gets the right bytes exactly when the ids tell the chunks apart. */
  lemma AnswersExactly(containers: map<nat, Bytes>, evs: set<EntryValue>, k: nat)
    ensures (forall requests: seq<EntryValue> :: requests != [] && (forall e :: e in requests ==> e in evs) ==>
               Answer(containers, requests, k) == Slice(containers, requests[|requests| - 1]))
            <==> ToldApart(containers, evs)
  {
    hide ChunkGlobalID, Slice, Answer;
    if ToldApart(containers, evs) {
      forall requests: seq<EntryValue> | requests != [] && forall e :: e in requests ==> e in evs
        ensures Answer(containers, requests, k) == Slice(containers, requests[|requests| - 1])
      {
        AnswerToldApart(containers, evs, requests, k);
      }
    } else {
      var d, e :| d in evs && e in evs && ChunkGlobalID(d) == ChunkGlobalID(e)
                && Slice(containers, d) != Slice(containers, e);
      SecondRequest(containers, d, e, k);
      assert forall x :: x in [d, e] ==> x in evs;
      assert Answer(containers, [d, e], k) != Slice(containers, [d, e][1]);
    }
  }

  lemma HoldingKeys(order: seq<nat>, cache: Cached, lru: map<nat, nat>, timestamp: nat)
    requires Holding(order, cache, lru, timestamp)
    ensures |cache| == |order|
    ensures forall x :: x in order <==> x in cache
    ensures forall x :: x in cache ==> cache[x].1 in lru && lru[cache[x].1] == x
    ensures forall t :: t in lru ==> lru[t] in cache && cache[lru[t]].1 == t
  {
    MembersSize(order);
    assert forall x :: x in order <==> x in Members(order);
    assert |cache| == |cache.Keys|;
  }

  class ChunkCache {
    const containers: map<nat, Bytes>
    const cacheMaxSize: nat
    var timestamp: nat
    var cache: Cached
    var lru: map<nat, nat>
    // The entries requested so far.
    ghost var requests: seq<EntryValue>

    ghost function Order(): seq<nat>
      reads this
    {
      Take(Recent(Ids(requests)), cacheMaxSize)
    }

    /** The maps hold exactly the ids of `order`, each with its owner's bytes. */
    ghost predicate Good(order: seq<nat>, owners: map<nat, EntryValue>)
      reads this
    {
      && Holding(order, cache, lru, timestamp) && Answers(containers, owners, cache)
      && |cache| == |order| <= cacheMaxSize && forall x :: x in order <==> x in cache
    }

    /** The cache holds exactly the most recently requested distinct ids, each with the slice of
        the entry it was loaded for; its two maps are mutual inverses. */
    ghost predicate Valid()
      reads this
    {
      cacheMaxSize > 0 && Good(Order(), Owners(requests, cacheMaxSize))
    }

    constructor (containers: map<nat, Bytes>, cacheMaxSize: nat)
      requires cacheMaxSize > 0
      ensures Valid() && this.containers == containers && requests == []
      ensures this.cacheMaxSize == cacheMaxSize
    {
      this.containers, this.cacheMaxSize := containers, cacheMaxSize;
      timestamp, cache, lru, requests := 0, map[], map[], [];
    }

    method LoadChunk(ev: EntryValue) returns (r: Bytes)
      requires Slice(containers, ev).Some?
      ensures Slice(containers, ev) == Some(r)
    {
      r := containers[ev.containerNumber][ev.offset..ev.offset + ev.chunkLength];
    }

    lemma GoodSizes(order: seq<nat>, owners: map<nat, EntryValue>)
      requires Good(order, owners)
      ensures |cache| == |order| <= cacheMaxSize && owners.Keys == cache.Keys
    {
      AnswersKeys(containers, owners, cache);
    }

    /** Drops the entry with the smallest time stamp: the least recently requested one. */
    method EvictChunkLRU(ghost order: seq<nat>, ghost owners: map<nat, EntryValue>)
      requires Good(order, owners) && order != []
      modifies this`cache, this`lru
      ensures Good(order[..|order| - 1], owners - {order[|order| - 1]})
      ensures cache == old(cache) - {order[|order| - 1]}
    {
      hide Holding, Answers;
      OldestIsLast(order, cache, lru, timestamp);
      EvictKeeps(order, cache, lru, timestamp);
      HoldingKeys(order, cache, lru, timestamp);
      var t :| t in lru && forall u :: u in lru ==> t <= u;
      assert lru[t] == order[|order| - 1];
      AnswersEvict(containers, owners, cache, lru[t]);
      cache := cache - {lru[t]};
      lru := lru - {t};
      HoldingKeys(order[..|order| - 1], cache, lru, timestamp);
    }

    method Hit(cid: nat, ghost order: seq<nat>, ghost owners: map<nat, EntryValue>) returns (r: Bytes)
      requires Good(order, owners) && cid in cache
      modifies this`cache, this`lru, this`timestamp
      ensures Good([cid] + Without(order, cid), owners)
      ensures cid in owners && Slice(containers, owners[cid]) == Some(r)
    {
      hide Holding, Without, Slice;
      HitKeeps(order, cache, lru, timestamp, cid);
      AnswersHit(containers, owners, cache, cid, timestamp + 1);
      lru := lru - {cache[cid].1};
      timestamp := timestamp + 1;
      lru := lru[timestamp := cid];
      r := cache[cid].0;
      cache := cache[cid := (r, timestamp)];
      HoldingKeys([cid] + Without(order, cid), cache, lru, timestamp);
    }

    method Add(ev: EntryValue, ghost order: seq<nat>, ghost owners: map<nat, EntryValue>) returns (r: Bytes)
      requires Good(order, owners) && ChunkGlobalID(ev) !in cache && |order| < cacheMaxSize
      requires Slice(containers, ev).Some?
      modifies this`cache, this`lru, this`timestamp
      ensures Good([ChunkGlobalID(ev)] + order, owners[ChunkGlobalID(ev) := ev])
      ensures Slice(containers, ev) == Some(r)
    {
      hide Holding, Answers, ChunkGlobalID, Slice;
      var cid := ChunkGlobalID(ev);
      r := LoadChunk(ev);
      MissKeeps(order, cache, lru, timestamp, cid, r);
      AnswersMiss(containers, owners, cache, ev, r, timestamp + 1);
      timestamp := timestamp + 1;
      lru := lru[timestamp := cid];
      cache := cache[cid := (r, timestamp)];
      HoldingKeys([cid] + order, cache, lru, timestamp);
    }

    method Miss(ev: EntryValue, ghost order: seq<nat>, ghost owners: map<nat, EntryValue>) returns (r: Bytes)
      requires Good(order, owners) && ChunkGlobalID(ev) !in cache && cacheMaxSize > 0
      requires Slice(containers, ev).Some?
      modifies this`cache, this`lru, this`timestamp
      ensures Good([ChunkGlobalID(ev)] + if |order| >= cacheMaxSize then order[..cacheMaxSize - 1] else order,
                   OwnersAfter(owners, order, cacheMaxSize, ev))
      ensures Slice(containers, ev) == Some(r)
    {
      hide Good, ChunkGlobalID, Slice;
      GoodSizes(order, owners);
      if |cache| >= cacheMaxSize {
        EvictChunkLRU(order, owners);
        r := Add(ev, order[..|order| - 1], owners - {order[|order| - 1]});
      } else {
        r := Add(ev, order, owners);
      }
    }

    /** The answer is the slice of the entry that the id was loaded for: the requested one, unless
        a cached chunk has the same id. */
    method GetChunkData(ev: EntryValue) returns (r: Bytes)
      requires Valid() && Slice(containers, ev).Some?
      modifies this
      ensures Valid() && requests == old(requests) + [ev]
      ensures Answer(containers, requests, cacheMaxSize) == Some(r)
    {
      hide Holding, Take, Recent, ChunkGlobalID, Slice, Without, NoDup, Members, Owners, Answers;
      var cid := ChunkGlobalID(ev);
      ghost var order, owners := Order(), Owners(requests, cacheMaxSize);
      RecentStep(Ids(requests), cid, cacheMaxSize);
      OwnersStep(requests, ev, cacheMaxSize);
      AnswersKeys(containers, owners, cache);
      requests := requests + [ev];
      if cid in cache {
        r := Hit(cid, order, owners);
      } else {
        r := Miss(ev, order, owners);
      }
    }
  }

  lemma OwnersStep(requests: seq<EntryValue>, ev: EntryValue, k: nat)
    ensures Ids(requests + [ev]) == Ids(requests) + [ChunkGlobalID(ev)]
    ensures Owners(requests + [ev], k) == OwnersAfter(Owners(requests, k), Take(Recent(Ids(requests)), k), k, ev)
    ensures ChunkGlobalID(ev) in OwnersAfter(Owners(requests, k), Take(Recent(Ids(requests)), k), k, ev)
  {
    hide ChunkGlobalID, Take, Recent;
    assert (requests + [ev])[..|requests|] == requests;
  }

  lemma AnswersKeys(containers: map<nat, Bytes>, owners: map<nat, EntryValue>, cache: Cached)
    requires Answers(containers, owners, cache)
    ensures forall id :: id in owners <==> id in cache
  {
    assert forall id :: id in owners <==> id in owners.Keys;
  }

  // ---------- Container cache ----------

  /** What one read into the container buffer returns. */
  function ReadContainer(containers: map<nat, Bytes>, c: nat): (r: Bytes)
    ensures |r| <= CONTAINER_SIZE
  {
    if c in containers then containers[c][..Min(|containers[c]|, CONTAINER_SIZE)] else []
  }

  /** The chunk lies inside its container, and inside what one read returns. */
  predicate InReach(containers: map<nat, Bytes>, e: EntryValue)
  {
    Slice(containers, e).Some? && e.offset + e.chunkLength <= CONTAINER_SIZE
  }

  /** The last `k` elements of a list, or all of them. */
  function Newest(s: seq<nat>, k: nat): (r: seq<nat>)
  {
    if |s| <= k then s else s[|s| - k..]
  }

  lemma ReadSlice(containers: map<nat, Bytes>, e: EntryValue)
    requires InReach(containers, e)
    ensures var read := ReadContainer(containers, e.containerNumber);
            && e.offset + e.chunkLength <= |read|
            && Slice(containers, e) == Some(read[e.offset..e.offset + e.chunkLength])
  {
    var file, n := containers[e.containerNumber], Min(|containers[e.containerNumber]|, CONTAINER_SIZE);
    assert file[..n][e.offset..e.offset + e.chunkLength] == file[e.offset..e.offset + e.chunkLength];
  }

  lemma NewestStep(loads: seq<nat>, c: nat, k: nat)
    requires k > 0
    ensures var q := Newest(loads, k);
            Newest(loads + [c], k) == if |q| >= k then q[1..] + [c] else q + [c]
  {}

  lemma PopFront(q: seq<nat>)
    requires NoDup(q) && q != []
    ensures NoDup(q[1..]) && Members(q[1..]) == Members(q) - {q[0]}
  {
    assert q == [q[0]] + q[1..];
  }

  lemma PushBack(q: seq<nat>, c: nat)
    requires NoDup(q) && c !in q
    ensures NoDup(q + [c]) && Members(q + [c]) == Members(q) + {c}
  {}

  class ContainerCache {
    const containers: map<nat, Bytes>
    const cacheMaxSize: nat
    var queue: seq<nat>
    var indexSet: set<nat>
    var cache: map<nat, Bytes>
    // The containers loaded so far.
    ghost var loads: seq<nat>

    /** Queue, set and map hold the same distinct containers: the last ones loaded. */
    ghost predicate Valid()
      reads this
    {
      && cacheMaxSize > 0
      && queue == Newest(loads, cacheMaxSize)
      && NoDup(queue) && indexSet == Members(queue) && cache.Keys == indexSet
      && Loaded(containers, cache)
    }

    constructor (containers: map<nat, Bytes>, cacheMaxSize: nat)
      requires cacheMaxSize > 0
      ensures Valid() && this.containers == containers && this.cacheMaxSize == cacheMaxSize && loads == []
    {
      this.containers, this.cacheMaxSize := containers, cacheMaxSize;
      queue, indexSet, cache, loads := [], {}, map[], [];
    }

    method EvictContainerFIFO()
      requires queue != [] && queue[0] in indexSet
      modifies this`queue, this`indexSet, this`cache
      ensures queue == old(queue)[1..]
      ensures indexSet == old(indexSet) - {old(queue)[0]} && cache == old(cache) - {old(queue)[0]}
    {
      var c := queue[0];
      indexSet := indexSet - {c};
      queue := queue[1..];
      cache := cache - {c};
    }

    method LoadContainer(c: nat)
      modifies this
      ensures queue == old(queue) + [c] && indexSet == old(indexSet) + {c} && loads == old(loads) + [c]
      ensures cache == old(cache)[c := ReadContainer(containers, c)]
    {
      queue := queue + [c];
      indexSet := indexSet + {c};
      cache := cache[c := ReadContainer(containers, c)];
      loads := loads + [c];
    }

    /** A container is loaded exactly when it is not among the last ones loaded. */
    method GetChunkData(ev: EntryValue) returns (r: Bytes)
      requires Valid() && InReach(containers, ev)
      modifies this
      ensures Valid() && Slice(containers, ev) == Some(r)
      ensures loads == old(loads) +
              if ev.containerNumber in Newest(old(loads), cacheMaxSize) then [] else [ev.containerNumber]
    {
      hide Newest, Slice, ReadContainer, NoDup, InReach;
      var c := ev.containerNumber;
      assert c in queue <==> c in Members(queue);
      ReadSlice(containers, ev);
      if c !in indexSet {
        NewestStep(loads, c, cacheMaxSize);
        if |queue| >= cacheMaxSize {
          PopFront(queue);
          EvictContainerFIFO();
        }
        PushBack(queue, c);
        LoadContainer(c);
      }
      r := cache[c][ev.offset..ev.offset + ev.chunkLength];
    }
  }

  ghost predicate Loaded(containers: map<nat, Bytes>, cache: map<nat, Bytes>)
  {
    forall c :: c in cache ==> cache[c] == ReadContainer(containers, c)
  }
}
