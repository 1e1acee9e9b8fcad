/** The deduplicating store as values: what a write, a restore and a delete do to the saved
    index, the container files, their reverse lists and the recipes (main.cpp). */
module StoreModel {
  import opened Common
  import opened MetadataManager

  datatype Store = Store(
    index: Index,
    containers: map<nat, Bytes>,
    revs: map<nat, seq<SHA1FP>>,
    recipes: map<nat, seq<SHA1FP>>)

  const EmptyStore: Store := Store(map[], map[], map[], map[])

  /** Writing a file that is opened without truncation: a longer old file keeps its tail. */
  function Put<T>(files: map<nat, seq<T>>, name: nat, data: seq<T>): map<nat, seq<T>>
  {
    files[name := if name in files && |data| < |files[name]| then data + files[name][|data|..] else data]
  }

  // ---------- Write ----------

  /** How many fingerprints the buffer of the reverse list takes. */
  const REV_CAPACITY: nat := CONTAINER_SIZE / SHA1_LENGTH

  /** State of one write run: the two index tables, the files, and the container being filled.
      `keepRevs` tells the sequential writer, which saves reverse lists, from the pipeline. */
  datatype Writer = Writer(
    origin: Index,
    added: Index,
    containers: map<nat, Bytes>,
    revs: map<nat, seq<SHA1FP>>,
    ctr: nat,
    buf: Bytes,
    inner: nat,
    rev: seq<SHA1FP>,
    recipe: seq<SHA1FP>,
    keepRevs: bool)

  /** Number of files in the container directory, where a container and its reverse list are two. */
  function ContainerFiles(st: Store): nat
  {
    |st.containers| + |st.revs|
  }

  /** The index is loaded only when there is a recipe. */
  function StartAt(st: Store, ctr: nat, keepRevs: bool): Writer
  {
    Writer(if |st.recipes| == 0 then map[] else st.index, map[], st.containers, st.revs,
           ctr, [], 0, [], [], keepRevs)
  }

  /** Container names continue from the number of files in the directory. */
  function StartWrite(st: Store, keepRevs: bool): Writer
  {
    StartAt(st, ContainerFiles(st), keepRevs)
  }

  function SaveContainer(w: Writer): Writer
  {
    w.(containers := Put(w.containers, w.ctr, w.buf),
       revs := if w.keepRevs then w.revs[w.ctr := w.rev] else w.revs)
  }

  function FlushContainer(w: Writer): Writer
  {
    SaveContainer(w).(ctr := w.ctr + 1, buf := [], inner := 0, rev := [])
  }

  function AddReference(w: Writer, fp: SHA1FP): Writer
    requires fp in w.origin || fp in w.added
  {
    if fp in w.added then w.(added := OneMore(w.added, fp)) else w.(origin := OneMore(w.origin, fp))
  }

  /** A chunk seen for the first time goes to the end of the container in memory; its length and
      its number inside the container are stored in 16 bits. */
  function StoreChunk(w: Writer, fp: SHA1FP, c: Bytes): Writer
  {
    var v := if |w.buf| + |c| >= CONTAINER_SIZE then FlushContainer(w) else w;
    v.(added := v.added[fp := EntryValue(v.ctr, |v.buf|, |c| % U16, v.inner, 1)],
       buf := v.buf + c,
       inner := (v.inner + 1) % U16,
       rev := if v.keepRevs then v.rev + [fp] else v.rev)
  }

  /** What is copied for a new chunk stays inside the container buffer and the list buffer. */
  predicate RoomFor(w: Writer, fp: SHA1FP, c: Bytes)
  {
    || fp in w.origin || fp in w.added
    || (|c| <= CONTAINER_SIZE && |StoreChunk(w, fp, c).rev| <= REV_CAPACITY)
  }

  /** A fingerprinted chunk: into the recipe, then a reference more or a chunk more. */
  function Ingest(w: Writer, fp: SHA1FP, c: Bytes): Writer
  {
    var w' := w.(recipe := w.recipe + [fp]);
    if fp in w.origin || fp in w.added then AddReference(w', fp) else StoreChunk(w', fp, c)
  }

  function WriteChunk(h: Bytes -> SHA1FP, w: Writer, c: Bytes): Writer
  {
    Ingest(w, h(c), c)
  }

  function WriteChunks(h: Bytes -> SHA1FP, w: Writer, cs: seq<Bytes>): Writer
    decreases |cs|
  {
    if cs == [] then w else WriteChunks(h, WriteChunk(h, w, cs[0]), cs[1..])
  }

  predicate BuffersHold(h: Bytes -> SHA1FP, w: Writer, cs: seq<Bytes>)
    decreases |cs|
  {
    cs == [] || (RoomFor(w, h(cs[0]), cs[0]) && BuffersHold(h, WriteChunk(h, w, cs[0]), cs[1..]))
  }

  /** End of a write: the last container, the recipe under the number of existing recipes, the
      index. */
  function FinishWrite(w: Writer, recipes: map<nat, seq<SHA1FP>>): Store
  {
    var v := if |w.buf| > 0 then SaveContainer(w) else w;
    Store(v.origin + v.added, v.containers, v.revs, Put(recipes, |recipes|, v.recipe))
  }

  function WriteAt(h: Bytes -> SHA1FP, st: Store, ctr: nat, cs: seq<Bytes>, keepRevs: bool): Store
  {
    FinishWrite(WriteChunks(h, StartAt(st, ctr, keepRevs), cs), st.recipes)
  }

  function Write(h: Bytes -> SHA1FP, st: Store, cs: seq<Bytes>, keepRevs: bool): Store
  {
    WriteAt(h, st, ContainerFiles(st), cs, keepRevs)
  }

  /** The sequential write task; None where it copies past one of its buffers. */
  function Written(h: Bytes -> SHA1FP, st: Store, cs: seq<Bytes>): Option<Store>
  {
    if BuffersHold(h, StartWrite(st, true), cs) then Some(Write(h, st, cs, true)) else None
  }

  // ---------- Restore ----------

  /** Recipe names are formed from an 8-bit version number: the lowest eight bits of what is asked
      for, which is a whole number of times 256 above. */
  function RecipeName(version: nat): (r: nat)
    ensures r < 256 && r <= version && (version - r) % 256 == 0
  {
    version % U8
  }

  /** The bytes an entry points at. */
  function Slice(containers: map<nat, Bytes>, e: EntryValue): (r: Option<Bytes>)
  {
    if e.containerNumber in containers && e.offset + e.chunkLength <= |containers[e.containerNumber]|
    then Some(containers[e.containerNumber][e.offset..e.offset + e.chunkLength])
    else None
  }

  /** In-order concatenation of the slices a recipe names; None where the program would stop or
      read outside a container. */
  function Assemble(index: Index, containers: map<nat, Bytes>, recipe: seq<SHA1FP>): Option<Bytes>
  {
    if recipe == [] then Some([])
    else if recipe[0] !in index then None
    else
      var s, rest := Slice(containers, index[recipe[0]]), Assemble(index, containers, recipe[1..]);
      if s.Some? && rest.Some? then Some(s.value + rest.value) else None
  }

  function Restore(st: Store, version: nat): Option<Bytes>
  {
    if RecipeName(version) in st.recipes then Assemble(st.index, st.containers, st.recipes[RecipeName(version)])
    else None
  }

  // ---------- Delete ----------

  /** Last position of `fp`, as the scan over a reverse list leaves it. */
  function Position(rev: seq<SHA1FP>, fp: SHA1FP): (r: Option<nat>)
    ensures r.Some? <==> fp in rev
    ensures r.Some? ==> r.value < |rev| && rev[r.value] == fp && fp !in rev[r.value + 1..]
    decreases |rev|
  {
    if rev == [] then None
    else if rev[|rev| - 1] == fp then Some(|rev| - 1)
    else Position(rev[..|rev| - 1], fp)
  }

  function CutOut<T>(s: seq<T>, off: nat, len: nat): seq<T>
    requires off + len <= |s|
  {
    s[..off] + s[off + len..]
  }

  /** Cutting a stretch out of a file goes through one buffer, with one read for everything in
      front of it and one for everything behind it. */
  predicate OneRead(size: nat, off: nat, len: nat)
  {
    off + len <= size && off <= CONTAINER_SIZE && len <= CONTAINER_SIZE && size - off - len <= CONTAINER_SIZE
  }

  /** The file of a reverse list: a count of four bytes, then the fingerprints. */
  function ListSize(n: nat): nat
  {
    4 + SHA1_LENGTH * n
  }

  /** Removes a chunk's bytes from its container, moves the offsets of the chunks behind it, and
      takes it off the reverse list; files that become empty disappear. None where the program
      exits or acts on a missing file, and where the container does not go through the buffer. */
  function RemoveChunk(st: Store, c: nat, fp: SHA1FP, off: nat, len: nat): Option<Store>
  {
    if c !in st.containers || c !in st.revs || !OneRead(|st.containers[c]|, off, len) then None
    else
      var bytes, rev := CutOut(st.containers[c], off, len), st.revs[c];
      var containers := if bytes == [] then st.containers - {c} else st.containers[c := bytes];
      if |rev| == 1 then Some(st.(containers := containers, revs := st.revs - {c}))
      else if Position(rev, fp) == None || exists x :: x in rev && x != fp && x !in st.index then None
      else Some(st.(index := ShiftEach(st.index, rev, fp, off, len),
                    containers := containers,
                    revs := st.revs[c := CutOut(rev, Position(rev, fp).value, 1)]))
  }

  /** The reverse list of a container goes through the buffer when a chunk is taken off it. */
  predicate ListGoesThrough(rev: seq<SHA1FP>, fp: SHA1FP)
  {
    |rev| == 1 || fp !in rev || OneRead(ListSize(|rev|), ListSize(Position(rev, fp).value), SHA1_LENGTH)
  }

  /** A container goes through the buffer when the stretch of an entry is cut out of it. */
  predicate ContainerGoesThrough(st: Store, e: EntryValue)
  {
    e.containerNumber in st.containers ==> OneRead(|st.containers[e.containerNumber]|, e.offset, e.chunkLength)
  }

  /** The same, with no result also where the reverse list does not go through the buffer. */
  function ContainerDelChunk(st: Store, c: nat, fp: SHA1FP, off: nat, len: nat): Option<Store>
  {
    if c in st.revs && !ListGoesThrough(st.revs[c], fp) then None else RemoveChunk(st, c, fp, off, len)
  }

  /** One step of the delete loop. */
  function DropReference(st: Store, fp: SHA1FP): Option<Store>
  {
    if fp !in st.index then None
    else
      var e := st.index[fp];
      if e.refCnt > 1 then Some(st.(index := st.index[fp := e.(refCnt := e.refCnt - 1)]))
      else ContainerDelChunk(st.(index := st.index - {fp}), e.containerNumber, fp, e.offset, e.chunkLength)
  }

  function DropAll(st: Store, fps: seq<SHA1FP>): Option<Store>
    decreases |fps|
  {
    if fps == [] then Some(st)
    else
      var st' := DropReference(st, fps[0]);
      if st' == None then None else DropAll(st'.value, fps[1..])
  }

  /** The delete task; an unknown version changes nothing. */
  function Delete(st: Store, version: nat): Option<Store>
  {
    var v := RecipeName(version);
    if v !in st.recipes then Some(st)
    else
      var st' := DropAll(st, st.recipes[v]);
      if st' == None then None else Some(st'.value.(recipes := st.recipes - {v}))
  }
}
