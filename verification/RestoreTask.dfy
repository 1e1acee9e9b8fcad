/** The restore task with a cache: recipe entries are looked up one by one, their chunks fetched
    through the cache, gathered in a buffer and flushed to the output file. */
module RestoreTask {
  import opened Common
  import opened MetadataManager
  import opened StoreModel
  import opened RestoreCaches

  datatype Cache = ByChunk(chunks: ChunkCache) | ByContainer(whole: ContainerCache)

  ghost function CacheRepr(cc: Cache): set<object>
  {
    match cc
    case ByChunk(c) => {c}
    case ByContainer(c) => {c}
  }

  /** The cache works on these containers and may be asked for these entries. */
  ghost predicate Serves(cc: Cache, containers: map<nat, Bytes>, evs: set<EntryValue>)
    reads CacheRepr(cc)
  {
    match cc
    case ByChunk(c) =>
      && c.Valid() && c.containers == containers && ToldApart(containers, evs)
      && (forall e :: e in evs ==> Slice(containers, e).Some?) && forall e :: e in c.requests ==> e in evs
    case ByContainer(c) => c.Valid() && c.containers == containers && forall e :: e in evs ==> InReach(containers, e)
  }

  ghost function EntriesOf(index: Index, recipe: seq<SHA1FP>): set<EntryValue>
  {
    set fp | fp in recipe && fp in index :: index[fp]
  }

  method GetChunkData(cc: Cache, ev: EntryValue, ghost containers: map<nat, Bytes>, ghost evs: set<EntryValue>)
    returns (r: Bytes)
    requires Serves(cc, containers, evs) && ev in evs
    modifies CacheRepr(cc)
    ensures Serves(cc, containers, evs) && Slice(containers, ev) == Some(r)
  {
    hide InReach, Slice, ChunkGlobalID, ToldApart, Answer;
    match cc
    case ByChunk(c) =>
      r := c.GetChunkData(ev);
      AnswerToldApart(containers, evs, c.requests, c.cacheMaxSize);
    case ByContainer(c) => r := c.GetChunkData(ev);
  }

  function Then(a: Bytes, b: Option<Bytes>): Option<Bytes>
  {
    if b.Some? then Some(a + b.value) else None
  }

  lemma ThenThen(a: Bytes, b: Bytes, c: Option<Bytes>)
    ensures Then(a, Then(b, c)) == Then(a + b, c)
  {
    if c.Some? { assert a + (b + c.value) == a + b + c.value; }
  }

  lemma ThenNothing(a: Bytes, b: Option<Bytes>)
    ensures Then([], b) == b && Then(a, Some([])) == Some(a)
  {
    assert a + [] == a;
    if b.Some? { assert [] + b.value == b.value; }
  }

  lemma AssembleStep(index: Index, containers: map<nat, Bytes>, recipe: seq<SHA1FP>, i: nat)
    requires i < |recipe|
    ensures recipe[i] !in index ==> Assemble(index, containers, recipe[i..]) == None
    ensures recipe[i] in index && Slice(containers, index[recipe[i]]).Some? ==>
              Assemble(index, containers, recipe[i..])
              == Then(Slice(containers, index[recipe[i]]).value, Assemble(index, containers, recipe[i + 1..]))
  {
    assert recipe[i..][1..] == recipe[i + 1..];
  }

  /** Flushes the buffer when the next chunk would fill it, then appends the chunk. */
  method Gather(assembling: array<byte>, offset: nat, data: Bytes, file: Bytes) returns (offset': nat, file': Bytes)
    requires assembling.Length == FILE_CACHE && offset <= FILE_CACHE && |data| <= FILE_CACHE
    modifies assembling
    ensures offset' <= FILE_CACHE
    ensures file' + assembling[..offset'] == file + old(assembling[..offset]) + data
  {
    offset', file' := offset, file;
    if offset' + |data| >= FILE_CACHE {
      file', offset' := file' + assembling[..offset'], 0;
    }
    ghost var kept := assembling[..offset'];
    Memcpy(assembling, offset', data);
    offset' := offset' + |data|;
    assert assembling[..offset'] == kept + data;
  }

  /** Either cache gives the in-order concatenation of the recipe's slices, and stops (None)
      exactly when a fingerprint is not in the index. */
  method RestoreThroughCache(m: Manager, containers: map<nat, Bytes>, recipe: seq<SHA1FP>, cc: Cache)
    returns (out: Option<Bytes>)
    requires m.Valid() && m.added == map[] && m !in CacheRepr(cc)
    requires Serves(cc, containers, EntriesOf(m.origin, recipe))
    requires forall e :: e in EntriesOf(m.origin, recipe) ==> Slice(containers, e).Some? && e.chunkLength <= FILE_CACHE
    modifies CacheRepr(cc), m
    ensures m.origin == old(m.origin)
    ensures out == Assemble(m.origin, containers, recipe)
  {
    hide Serves, Assemble, Slice;
    var assembling := new byte[FILE_CACHE];
    var offset: nat, file: Bytes, i := 0, [], 0;
    ghost var index, evs := m.origin, EntriesOf(m.origin, recipe);
    assert recipe[0..] == recipe && file + assembling[..0] == [];
    ThenNothing([], Assemble(index, containers, recipe));
    while i < |recipe|
      invariant i <= |recipe| && offset <= FILE_CACHE
      invariant m.origin == index && m.added == map[]
      invariant Serves(cc, containers, evs)
      invariant Assemble(index, containers, recipe)
             == Then(file + assembling[..offset], Assemble(index, containers, recipe[i..]))
    {
      AssembleStep(index, containers, recipe, i);
      var lookup := m.DedupLookup(recipe[i]);
      if lookup == Unique {
        return None;
      }
      var ev := m.GetEntry(recipe[i]);
      var data := GetChunkData(cc, ev, containers, evs);
      SliceLength(containers, ev);
      ThenThen(file + assembling[..offset], data, Assemble(index, containers, recipe[i + 1..]));
      offset, file := Gather(assembling, offset, data, file);
      i := i + 1;
    }
    assert recipe[i..] == [];
    NothingToAssemble(index, containers);
    ThenNothing(file + assembling[..offset], None);
    out := Some(file + assembling[..offset]);
  }

  lemma NothingToAssemble(index: Index, containers: map<nat, Bytes>)
    ensures Assemble(index, containers, []) == Some([])
  {}

  lemma SliceLength(containers: map<nat, Bytes>, e: EntryValue)
    ensures Slice(containers, e).Some? ==> |Slice(containers, e).value| == e.chunkLength
  {}
}
