/** Whole-file deduplication: a table of fingerprints with counts, in which a count of zero marks
    a deleted file, and one stored file for every live slot. */
module FullFile {
  import opened Common

  const HASH_LENGTH: nat := 20
  const MAX_SLOTS: nat := 100 // of the buffer a scan reads the table into
  const FULL_FILE_CACHE: nat := 1024 * 1024 * 1024

  type Hash = s: Bytes | |s| == HASH_LENGTH witness [0, 0, 0, 0, 0, 0, 0, 0, 0, 0, 0, 0, 0, 0, 0, 0, 0, 0, 0, 0]

  const ZERO_HASH: Hash := [0, 0, 0, 0, 0, 0, 0, 0, 0, 0, 0, 0, 0, 0, 0, 0, 0, 0, 0, 0]

  const OTHER_HASH: Hash := [1, 0, 0, 0, 0, 0, 0, 0, 0, 0, 0, 0, 0, 0, 0, 0, 0, 0, 0, 0]

  datatype Slot = Slot(hash: Hash, count: nat)

  /** The fingerprint file, and the storage directory by file number; -1 is the number a name
      gets when none has been set. */
  datatype Disk = Disk(slots: seq<Slot>, stored: map<int, Bytes>)

  /** Only the first FILE_CACHE bytes are read for the fingerprint. */
  function HashOf(h: Bytes -> Hash, file: Bytes): Hash
  {
    h(file[..Min(|file|, FILE_CACHE)])
  }

  /** Nothing tells the two files apart within their first 256 MiB. */
  predicate SameStart(a: Bytes, b: Bytes)
  {
    a == b || (|a| >= 0x1000_0000 && |b| >= 0x1000_0000 && a[..0x1000_0000] == b[..0x1000_0000])
  }

  /** Whatever the hash function, two files have one fingerprint exactly when they agree on their
      first FILE_CACHE bytes. */
  lemma HashesAlikeExactly(a: Bytes, b: Bytes)
    ensures (forall h: Bytes -> Hash :: HashOf(h, a) == HashOf(h, b)) <==> SameStart(a, b)
  {
    if SameStart(a, b) {
      forall h: Bytes -> Hash ensures HashOf(h, a) == HashOf(h, b) { SameStartSameHash(h, a, b); }
    } else {
      var x, y := a[..Min(|a|, FILE_CACHE)], b[..Min(|b|, FILE_CACHE)];
      assert x != y;
      var h: Bytes -> Hash := s => if s == x then ZERO_HASH else OTHER_HASH;
      assert HashOf(h, a) == ZERO_HASH && HashOf(h, b) == OTHER_HASH;
    }
  }

  lemma SameStartSameHash(h: Bytes -> Hash, a: Bytes, b: Bytes)
    requires SameStart(a, b)
    ensures HashOf(h, a) == HashOf(h, b)
  {}

  /** First live slot with this fingerprint, or the number of slots. */
  function FindLive(slots: seq<Slot>, hash: Hash): (r: nat)
    ensures r <= |slots|
    ensures r < |slots| ==> slots[r].hash == hash && slots[r].count != 0
    ensures forall i :: 0 <= i < r ==> slots[i].hash != hash || slots[i].count == 0
  {
    if slots == [] then 0
    else if slots[0].hash == hash && slots[0].count != 0 then 0
    else 1 + FindLive(slots[1..], hash)
  }

  /** How many slots a scan looks at: it stops at the first hit and never skips a dead slot. */
  function SlotsRead(slots: seq<Slot>, hash: Hash): (r: nat)
    ensures r <= |slots|
  {
    if slots == [] then 0
    else if slots[0].hash == hash && slots[0].count != 0 then 1
    else 1 + SlotsRead(slots[1..], hash)
  }

  /** A scan stays inside its buffer exactly when the table fits it or the hit comes early. */
  lemma {:induction false} InsideBuffer(slots: seq<Slot>, hash: Hash, n: nat)
    ensures SlotsRead(slots, hash) <= n <==> |slots| <= n || FindLive(slots, hash) < n
  {
    if slots != [] && n > 0 { InsideBuffer(slots[1..], hash, n - 1); }
  }

  /** The name a file number leads to. With a trailing slash in the storage path it is formed from
      the object's own current number instead. */
  function NameOf(slash: bool, current: int, id: int): int
  {
    if slash then current else id
  }

  function Saved(file: Bytes): Bytes
  {
    file[..Min(|file|, FULL_FILE_CACHE)]
  }

  /** Writing over a file that is not truncated. */
  function Over(stored: map<int, Bytes>, name: int, data: Bytes): map<int, Bytes>
  {
    stored[name := if name in stored && |data| < |stored[name]| then data + stored[name][|data|..] else data]
  }

  function Changed(slots: seq<Slot>, k: nat, delta: int): seq<Slot>
    requires k < |slots| && -1 <= delta <= 1 && slots[k].count > 0
  {
    slots[k := slots[k].(count := (slots[k].count + delta) % U32)]
  }

  /** A write: a duplicate only counts, a new file takes the next number. None stands for a scan
      that reads past its buffer. */
  function Written(h: Bytes -> Hash, d: Disk, file: Bytes): Option<Disk>
  {
    var k := FindLive(d.slots, HashOf(h, file));
    if SlotsRead(d.slots, HashOf(h, file)) > MAX_SLOTS then None
    else if k < |d.slots| then Some(d.(slots := Changed(d.slots, k, 1)))
    else Some(Disk(d.slots + [Slot(HashOf(h, file), 1)], Over(d.stored, k, Saved(file))))
  }

  /** The fingerprint a delete looks for; zeros when the stored file cannot be opened. */
  function DeletedHash(h: Bytes -> Hash, slash: bool, d: Disk, id: int): Hash
  {
    var name := NameOf(slash, -1, id);
    if name in d.stored then HashOf(h, d.stored[name]) else ZERO_HASH
  }

  /** A delete: the stored file goes with the last reference, and also when the table does not
      know the fingerprint. None as for a write. */
  function Deleted(h: Bytes -> Hash, slash: bool, d: Disk, id: int): Option<Disk>
  {
    var hash := DeletedHash(h, slash, d, id);
    var k := FindLive(d.slots, hash);
    if SlotsRead(d.slots, hash) > MAX_SLOTS then None
    else
      var slots := if k < |d.slots| then Changed(d.slots, k, -1) else d.slots;
      Some(Disk(slots, if k < |d.slots| && slots[k].count != 0 then d.stored else d.stored - {NameOf(slash, -1, id)}))
  }

  /** What a restore writes; nothing when the file cannot be opened. */
  function Restored(slash: bool, d: Disk, id: int): Bytes
  {
    var name := NameOf(slash, -1, id);
    if name in d.stored then Saved(d.stored[name]) else []
  }

  // ---------- The program ----------

  /** One run of the program; every run performs one task. */
  class FullFileDeduplicater {
    var slots: seq<Slot>
    var stored: map<int, Bytes>
    const slash: bool
    var filesNum: nat
    var fileId: int
    var fileExist: bool

    ghost function View(): Disk
      reads this
    {
      Disk(slots, stored)
    }

    /** As the run starts. */
    ghost predicate Ready()
      reads this
    {
      filesNum == |slots| && fileId == -1 && !fileExist
    }

    constructor (slots: seq<Slot>, stored: map<int, Bytes>, slash: bool)
      ensures Ready() && View() == Disk(slots, stored) && this.slash == slash
    {
      this.slots, this.stored, this.slash := slots, stored, slash;
      filesNum, fileId, fileExist := |slots|, -1, false;
    }

    /** Byte by byte. */
    static method SameHash(a: Hash, b: Hash) returns (same: bool)
      ensures same == (a == b)
    {
      var j := 0;
      while j < HASH_LENGTH
        invariant j <= HASH_LENGTH && forall i :: 0 <= i < j ==> a[i] == b[i]
      {
        if a[j] != b[j] {
          return false;
        }
        j := j + 1;
      }
      return true;
    }

    /** The scan both tasks share: the first slot that is live and has the fingerprint. The buffer
        takes the first slots of the table, the loop runs over all of them. */
    method Scan(hash: Hash) returns (i: nat)
      requires filesNum == |slots| && SlotsRead(slots, hash) <= MAX_SLOTS
      ensures i == FindLive(slots, hash)
    {
      var cache := slots[..Min(|slots|, MAX_SLOTS)];
      i := 0;
      while i < filesNum
        invariant i <= filesNum && i + FindLive(slots[i..], hash) == FindLive(slots, hash)
        invariant i + SlotsRead(slots[i..], hash) == SlotsRead(slots, hash)
      {
        var same := SameHash(hash, cache[i].hash);
        if same && cache[i].count != 0 {
          return;
        }
        assert slots[i..][1..] == slots[i + 1..];
        i := i + 1;
      }
    }

    method ScanAndInsertHash(hash: Hash) returns (ft: nat)
      requires filesNum == |slots| && SlotsRead(slots, hash) <= MAX_SLOTS
      modifies this`slots, this`fileId, this`fileExist
      ensures fileId == FindLive(old(slots), hash) && fileExist == (fileId < |old(slots)|)
      ensures slots == if fileExist then Changed(old(slots), fileId, 1) else old(slots) + [Slot(hash, 1)]
      ensures ft == slots[fileId].count
    {
      var i := Scan(hash);
      fileId, fileExist := i, i < filesNum;
      if fileExist {
        slots := Changed(slots, i, 1);
        return slots[i].count;
      }
      slots := slots + [Slot(hash, 1)];
      return 1;
    }

    method ScanAndDeleteHash(hash: Hash) returns (ft: nat)
      requires filesNum == |slots| && SlotsRead(slots, hash) <= MAX_SLOTS
      modifies this`slots
      ensures var k := FindLive(old(slots), hash);
              if k < |old(slots)| then slots == Changed(old(slots), k, -1) && ft == slots[k].count
              else slots == old(slots) && ft == 0
    {
      var i := Scan(hash);
      if i < filesNum {
        slots := Changed(slots, i, -1);
        return slots[i].count;
      }
      return 0;
    }

    method WriteFile(h: Bytes -> Hash, file: Bytes)
      requires Ready() && Written(h, View(), file).Some?
      modifies this
      ensures Some(View()) == Written(h, old(View()), file)
    {
      var _ := ScanAndInsertHash(HashOf(h, file));
      if !fileExist {
        stored := Over(stored, NameOf(slash, fileId, fileId), Saved(file));
      }
    }

    method DeleteFile(h: Bytes -> Hash, id: int)
      requires Ready() && Deleted(h, slash, View(), id).Some?
      modifies this
      ensures Some(View()) == Deleted(h, slash, old(View()), id)
    {
      var name := NameOf(slash, fileId, id);
      var hash := if name in stored then HashOf(h, stored[name]) else ZERO_HASH;
      var ft := ScanAndDeleteHash(hash);
      if ft == 0 {
        stored := stored - {name};
      }
    }

    method RestoreFile(id: int) returns (r: Bytes)
      requires Ready()
      ensures r == Restored(slash, View(), id)
    {
      var name := NameOf(slash, fileId, id);
      r := if name in stored then Saved(stored[name]) else [];
    }
  }

  // ---------- What a user expects ----------

  /** One line per file number ever given out: the file, and how often it has been written and
      deleted since. */
  datatype Line = Line(file: Bytes, writes: nat, deletes: nat)
  {
    predicate Live() { writes > deletes }
  }

  datatype Task = WriteTask(file: Bytes) | DeleteTask(id: nat)

  /** The line of a live file, or the number of lines. */
  function LineOf(ledger: seq<Line>, file: Bytes): (r: nat)
    ensures r <= |ledger|
    ensures r < |ledger| ==> ledger[r].file == file && ledger[r].Live()
    ensures forall i :: 0 <= i < r ==> ledger[i].file != file || !ledger[i].Live()
  {
    if ledger == [] then 0
    else if ledger[0].file == file && ledger[0].Live() then 0
    else 1 + LineOf(ledger[1..], file)
  }

  function Book(ledger: seq<Line>, t: Task): (r: seq<Line>)
    ensures |r| >= |ledger|
  {
    match t
    case WriteTask(file) =>
      var k := LineOf(ledger, file);
      if k < |ledger| then ledger[k := ledger[k].(writes := ledger[k].writes + 1)] else ledger + [Line(file, 1, 0)]
    case DeleteTask(id) =>
      if id < |ledger| && ledger[id].Live() then
        ledger[id := ledger[id].(deletes := ledger[id].deletes + 1)]
      else
        ledger
  }

  function BookAll(ledger: seq<Line>, ts: seq<Task>): (r: seq<Line>)
    ensures |r| >= |ledger|
    decreases |ts|
  {
    if ts == [] then ledger else BookAll(Book(ledger, ts[0]), ts[1..])
  }

  /** The scan of a task stays inside the buffer: at most 100 numbers have been given out, dead
      ones included, or what the task looks for is live under one of the first 100. */
  predicate InsideTask(ledger: seq<Line>, t: Task)
  {
    || |ledger| <= MAX_SLOTS
    || match t
       case WriteTask(file) => LineOf(ledger, file) < MAX_SLOTS
       case DeleteTask(id) => id < MAX_SLOTS && ledger[id].Live()
  }

  predicate AllInside(ledger: seq<Line>, ts: seq<Task>)
    decreases |ts|
  {
    ts == [] || (InsideTask(ledger, ts[0]) && AllInside(Book(ledger, ts[0]), ts[1..]))
  }

  function Do(h: Bytes -> Hash, slash: bool, d: Disk, t: Task): Option<Disk>
  {
    match t
    case WriteTask(file) => Written(h, d, file)
    case DeleteTask(id) => Deleted(h, slash, d, id)
  }

  /** One run of the program after the other. */
  function DoAll(h: Bytes -> Hash, slash: bool, d: Disk, ts: seq<Task>): Option<Disk>
    decreases |ts|
  {
    if ts == [] then Some(d)
    else
      var r := Do(h, slash, d, ts[0]);
      if r.None? then None else DoAll(h, slash, r.value, ts[1..])
  }

  /** The runs themselves: each starts a new object on the files the one before it left. */
  method RunTasks(h: Bytes -> Hash, slash: bool, start: Disk, ts: seq<Task>) returns (d: Disk)
    requires DoAll(h, slash, start, ts).Some?
    ensures DoAll(h, slash, start, ts) == Some(d)
  {
    hide Written, Deleted;
    d := start;
    for i := 0 to |ts|
      invariant DoAll(h, slash, d, ts[i..]) == DoAll(h, slash, start, ts)
    {
      assert ts[i..][0] == ts[i] && ts[i..][1..] == ts[i + 1..];
      var run := new FullFileDeduplicater(d.slots, d.stored, slash);
      match ts[i] {
        case WriteTask(file) => run.WriteFile(h, file);
        case DeleteTask(id) => run.DeleteFile(h, id);
      }
      d := Disk(run.slots, run.stored);
    }
  }

  /** Files a history may write: saved whole, told apart by their first FILE_CACHE bytes, without
      collisions among these and none with the fingerprint that stands for no file. */
  ghost predicate Writable(h: Bytes -> Hash, universe: iset<Bytes>)
  {
    && (forall a :: a in universe ==> |a| <= FULL_FILE_CACHE)
    && (forall a, b :: a in universe && b in universe && SameStart(a, b) ==> a == b)
    && HashesDiffer(h, universe)
  }

  /** No collision among what is read of the files. */
  ghost predicate HashesDiffer(h: Bytes -> Hash, universe: iset<Bytes>)
  {
    && (forall a, i :: a in universe && ReadUpTo(a, i) ==> h(a[..i]) != ZERO_HASH)
    && forall a, b, i, j :: a in universe && b in universe && ReadUpTo(a, i) && ReadUpTo(b, j) ==>
         h(a[..i]) == h(b[..j]) ==> a[..i] == b[..j]
  }

  /** Reading FILE_CACHE bytes of the file ends there. */
  predicate ReadUpTo(file: Bytes, i: nat)
  {
    i <= |file| && if |file| < FILE_CACHE then i == |file| else i == FILE_CACHE
  }

  /** So files that may be written have fingerprints of their own. */
  lemma HashesTellApart(h: Bytes -> Hash, universe: iset<Bytes>, a: Bytes, b: Bytes)
    requires Writable(h, universe) && a in universe && b in universe
    ensures HashOf(h, a) != ZERO_HASH
    ensures HashOf(h, a) == HashOf(h, b) ==> a == b
  {
    var i, j := Min(|a|, FILE_CACHE), Min(|b|, FILE_CACHE);
    assert ReadUpTo(a, i) && ReadUpTo(b, j);
    assert a[..|a|] == a && b[..|b|] == b;
  }

  ghost predicate Entry(h: Bytes -> Hash, universe: iset<Bytes>, slot: Slot, line: Line)
  {
    && line.file in universe && line.writes >= line.deletes
    && slot == Slot(HashOf(h, line.file), line.writes - line.deletes)
  }

  ghost predicate Table(h: Bytes -> Hash, universe: iset<Bytes>, slots: seq<Slot>, ledger: seq<Line>)
  {
    |slots| == |ledger| && forall i :: 0 <= i < |ledger| ==> Entry(h, universe, slots[i], ledger[i])
  }

  /** The live files are stored, and nothing else. */
  ghost predicate Kept(stored: map<int, Bytes>, ledger: seq<Line>)
  {
    && (forall i :: i in stored <==> 0 <= i < |ledger| && ledger[i].Live())
    && forall i :: i in stored ==> stored[i] == ledger[i].file
  }

  ghost predicate OneLiveLine(ledger: seq<Line>)
  {
    forall i, j :: 0 <= i < j < |ledger| && ledger[i].Live() && ledger[j].Live() ==> ledger[i].file != ledger[j].file
  }

  /** The table and the directory say what the ledger says. */
  ghost predicate Agrees(h: Bytes -> Hash, universe: iset<Bytes>, d: Disk, ledger: seq<Line>)
  {
    Table(h, universe, d.slots, ledger) && Kept(d.stored, ledger) && OneLiveLine(ledger)
  }

  /** Live slots never share a fingerprint. */
  lemma LiveHashesDiffer(h: Bytes -> Hash, universe: iset<Bytes>, d: Disk, ledger: seq<Line>)
    requires Agrees(h, universe, d, ledger) && Writable(h, universe)
    ensures forall i, j :: 0 <= i < j < |d.slots| && d.slots[i].count > 0 && d.slots[j].count > 0 ==>
              d.slots[i].hash != d.slots[j].hash
  {
    hide HashOf, Writable;
    forall i, j | 0 <= i < j < |d.slots| && d.slots[i].count > 0 && d.slots[j].count > 0
      ensures d.slots[i].hash != d.slots[j].hash
    {
      assert Entry(h, universe, d.slots[i], ledger[i]) && Entry(h, universe, d.slots[j], ledger[j]);
      HashesTellApart(h, universe, ledger[i].file, ledger[j].file);
    }
  }

  lemma SameLine(h: Bytes -> Hash, universe: iset<Bytes>, slot: Slot, line: Line, file: Bytes)
    requires Entry(h, universe, slot, line) && Writable(h, universe) && file in universe
    ensures slot.hash == HashOf(h, file) && slot.count != 0 <==> line.file == file && line.Live()
  {
    hide HashOf, Writable;
    HashesTellApart(h, universe, line.file, file);
  }

  /** Looking for the fingerprint finds the file's line. */
  lemma {:induction false} FindInTable(h: Bytes -> Hash, universe: iset<Bytes>, slots: seq<Slot>, ledger: seq<Line>,
                                       file: Bytes)
    requires Table(h, universe, slots, ledger) && Writable(h, universe) && file in universe
    ensures |slots| == |ledger| && FindLive(slots, HashOf(h, file)) == LineOf(ledger, file)
  {
    hide HashOf, Entry, Writable;
    if slots != [] {
      SameLine(h, universe, slots[0], ledger[0], file);
      FindInTable(h, universe, slots[1..], ledger[1..], file);
    }
  }

  lemma SavedWhole(h: Bytes -> Hash, universe: iset<Bytes>, file: Bytes)
    requires Writable(h, universe) && file in universe
    ensures Saved(file) == file
  {
    hide HashOf;
  }

  lemma KeptSet(stored: map<int, Bytes>, ledger: seq<Line>, k: nat, line: Line)
    requires Kept(stored, ledger) && OneLiveLine(ledger) && k < |ledger| && ledger[k].Live()
    requires line.file == ledger[k].file
    ensures OneLiveLine(ledger[k := line])
    ensures Kept(if line.Live() then stored else stored - {k}, ledger[k := line])
  {}

  lemma KeptAdd(stored: map<int, Bytes>, ledger: seq<Line>, file: Bytes)
    requires Kept(stored, ledger) && OneLiveLine(ledger) && LineOf(ledger, file) == |ledger|
    ensures OneLiveLine(ledger + [Line(file, 1, 0)])
    ensures |ledger| !in stored && Kept(stored[|ledger| := file], ledger + [Line(file, 1, 0)])
  {}

  lemma TableSet(h: Bytes -> Hash, universe: iset<Bytes>, slots: seq<Slot>, ledger: seq<Line>, k: nat)
    requires Table(h, universe, slots, ledger) && k < |ledger| && ledger[k].Live() && ledger[k].writes + 1 < U32
    ensures slots[k].count > 0
    ensures Table(h, universe, Changed(slots, k, 1), ledger[k := ledger[k].(writes := ledger[k].writes + 1)])
    ensures Table(h, universe, Changed(slots, k, -1), ledger[k := ledger[k].(deletes := ledger[k].deletes + 1)])
    ensures Changed(slots, k, -1)[k].count != 0 <==> ledger[k].writes > ledger[k].deletes + 1
  {
    hide HashOf;
    assert Entry(h, universe, slots[k], ledger[k]);
  }

  lemma TableAdd(h: Bytes -> Hash, universe: iset<Bytes>, slots: seq<Slot>, ledger: seq<Line>, file: Bytes)
    requires Table(h, universe, slots, ledger) && file in universe
    ensures Table(h, universe, slots + [Slot(HashOf(h, file), 1)], ledger + [Line(file, 1, 0)])
  {
    hide HashOf;
  }

  lemma WriteAgrees(h: Bytes -> Hash, universe: iset<Bytes>, d: Disk, ledger: seq<Line>, file: Bytes)
    requires Agrees(h, universe, d, ledger) && Writable(h, universe) && file in universe
    requires forall i :: 0 <= i < |ledger| ==> ledger[i].writes + 1 < U32
    ensures Written(h, d, file).Some? <==> InsideTask(ledger, WriteTask(file))
    ensures Written(h, d, file).Some? ==> Agrees(h, universe, Written(h, d, file).value, Book(ledger, WriteTask(file)))
  {
    hide HashOf, LineOf, FindLive, SlotsRead, Kept, OneLiveLine, Table, Writable, Changed, Saved;
    FindInTable(h, universe, d.slots, ledger, file);
    InsideBuffer(d.slots, HashOf(h, file), MAX_SLOTS);
    var k := LineOf(ledger, file);
    if k < |ledger| {
      TableSet(h, universe, d.slots, ledger, k);
      KeptSet(d.stored, ledger, k, ledger[k].(writes := ledger[k].writes + 1));
    } else {
      SavedWhole(h, universe, file);
      TableAdd(h, universe, d.slots, ledger, file);
      KeptAdd(d.stored, ledger, file);
    }
  }

  /** The line of a live number is the one its file is found by. */
  lemma LineOfLive(ledger: seq<Line>, id: nat)
    requires id < |ledger| && ledger[id].Live()
    requires OneLiveLine(ledger)
    ensures LineOf(ledger, ledger[id].file) == id
  {
    hide LineOf;
  }

  lemma KeptFacts(stored: map<int, Bytes>, ledger: seq<Line>, id: nat)
    requires Kept(stored, ledger)
    ensures id in stored <==> id < |ledger| && ledger[id].Live()
    ensures id in stored ==> stored[id] == ledger[id].file
  {}

  lemma NoZeroHash(h: Bytes -> Hash, universe: iset<Bytes>, d: Disk, ledger: seq<Line>)
    requires Agrees(h, universe, d, ledger) && Writable(h, universe)
    ensures FindLive(d.slots, ZERO_HASH) == |d.slots|
  {
    hide HashOf, FindLive, Writable;
    forall i | 0 <= i < |d.slots| ensures d.slots[i].hash != ZERO_HASH {
      assert Entry(h, universe, d.slots[i], ledger[i]);
      HashesTellApart(h, universe, ledger[i].file, ledger[i].file);
    }
  }

  lemma DeleteAgrees(h: Bytes -> Hash, universe: iset<Bytes>, d: Disk, ledger: seq<Line>, id: nat)
    requires Agrees(h, universe, d, ledger) && Writable(h, universe)
    requires forall i :: 0 <= i < |ledger| ==> ledger[i].writes + 1 < U32
    ensures Deleted(h, false, d, id).Some? <==> InsideTask(ledger, DeleteTask(id))
    ensures Deleted(h, false, d, id).Some? ==>
            Agrees(h, universe, Deleted(h, false, d, id).value, Book(ledger, DeleteTask(id)))
  {
    hide HashOf, LineOf, FindLive, SlotsRead, OneLiveLine, Kept, Table, Writable, Changed;
    KeptFacts(d.stored, ledger, id);
    TableLength(h, universe, d.slots, ledger);
    InsideBuffer(d.slots, DeletedHash(h, false, d, id), MAX_SLOTS);
    if id in d.stored {
      LiveInUniverse(h, universe, d.slots, ledger, id);
      FindInTable(h, universe, d.slots, ledger, ledger[id].file);
      LineOfLive(ledger, id);
      TableSet(h, universe, d.slots, ledger, id);
      var line := ledger[id].(deletes := ledger[id].deletes + 1);
      KeptSet(d.stored, ledger, id, line);
      assert Book(ledger, DeleteTask(id)) == ledger[id := line];
    } else {
      NoZeroHash(h, universe, d, ledger);
      assert d.stored - {id} == d.stored;
    }
  }

  lemma TableLength(h: Bytes -> Hash, universe: iset<Bytes>, slots: seq<Slot>, ledger: seq<Line>)
    requires Table(h, universe, slots, ledger)
    ensures |slots| == |ledger|
  {}

  lemma LiveInUniverse(h: Bytes -> Hash, universe: iset<Bytes>, slots: seq<Slot>, ledger: seq<Line>, id: nat)
    requires Table(h, universe, slots, ledger) && id < |ledger|
    ensures ledger[id].file in universe
  {
    assert Entry(h, universe, slots[id], ledger[id]);
  }

  ghost predicate Within(universe: iset<Bytes>, ts: seq<Task>)
  {
    forall t :: t in ts && t.WriteTask? ==> t.file in universe
  }

  lemma BookedWrites(ledger: seq<Line>, t: Task, n: nat)
    requires forall i :: 0 <= i < |ledger| ==> ledger[i].writes <= n
    ensures forall i :: 0 <= i < |Book(ledger, t)| ==> Book(ledger, t)[i].writes <= n + 1
  {
    hide LineOf;
  }

  lemma {:induction false} TasksAgree(h: Bytes -> Hash, universe: iset<Bytes>, d: Disk, ledger: seq<Line>,
                                      ts: seq<Task>, n: nat)
    requires Agrees(h, universe, d, ledger) && Writable(h, universe) && Within(universe, ts)
    requires n + |ts| < U32 && forall i :: 0 <= i < |ledger| ==> ledger[i].writes <= n
    ensures DoAll(h, false, d, ts).Some? <==> AllInside(ledger, ts)
    ensures DoAll(h, false, d, ts).Some? ==> Agrees(h, universe, DoAll(h, false, d, ts).value, BookAll(ledger, ts))
    decreases |ts|
  {
    hide Agrees, Writable, Written, Deleted, Book, InsideTask;
    if ts != [] {
      match ts[0] {
        case WriteTask(file) => WriteAgrees(h, universe, d, ledger, file);
        case DeleteTask(id) => DeleteAgrees(h, universe, d, ledger, id);
      }
      BookedWrites(ledger, ts[0], n);
      if InsideTask(ledger, ts[0]) {
        TasksAgree(h, universe, Do(h, false, d, ts[0]).value, Book(ledger, ts[0]), ts[1..], n + 1);
      }
    }
  }

  /** On a storage path without a trailing slash, the scans of a history stay inside their buffers
      exactly when the ledger says so; and then the table counts writes minus deletes, live slots
      are distinct, and a number gives back its file exactly while it is live (an empty file
      otherwise). */
  lemma HistoryKept(h: Bytes -> Hash, universe: iset<Bytes>, ts: seq<Task>, id: nat)
    requires Writable(h, universe) && Within(universe, ts) && |ts| < U32
    ensures DoAll(h, false, Disk([], map[]), ts).Some? <==> AllInside([], ts)
    ensures AllInside([], ts) ==>
            var d, ledger := DoAll(h, false, Disk([], map[]), ts).value, BookAll([], ts);
            && |d.slots| == |ledger|
            && (id < |ledger| ==> d.slots[id].count == ledger[id].writes - ledger[id].deletes)
            && Restored(false, d, id) == (if id < |ledger| && ledger[id].Live() then ledger[id].file else [])
            && forall i, j :: 0 <= i < j < |d.slots| && d.slots[i].count > 0 && d.slots[j].count > 0 ==>
                 d.slots[i].hash != d.slots[j].hash
  {
    hide DoAll, BookAll, AllInside, HashOf;
    TasksAgree(h, universe, Disk([], map[]), [], ts, 0);
    if AllInside([], ts) {
      var d, ledger := DoAll(h, false, Disk([], map[]), ts).value, BookAll([], ts);
      LiveHashesDiffer(h, universe, d, ledger);
      if id in d.stored { assert Saved(ledger[id].file) == ledger[id].file; }
    }
  }

  /** A history run by run, and then a run that restores. */
  method RunAndRestore(h: Bytes -> Hash, ts: seq<Task>, id: nat, ghost universe: iset<Bytes>) returns (r: Bytes)
    requires Writable(h, universe) && Within(universe, ts) && |ts| < U32 && AllInside([], ts)
    ensures var ledger := BookAll([], ts); r == if id < |ledger| && ledger[id].Live() then ledger[id].file else []
  {
    hide DoAll, BookAll, AllInside, HashOf, Restored, Writable, Within;
    HistoryKept(h, universe, ts, id);
    var d := RunTasks(h, false, Disk([], map[]), ts);
    var run := new FullFileDeduplicater(d.slots, d.stored, false);
    r := run.RestoreFile(id);
  }

  /** It is enough that no more than 100 numbers have been given out at the end. */
  lemma {:induction false} FewNumbersInside(ledger: seq<Line>, ts: seq<Task>)
    requires |BookAll(ledger, ts)| <= 100
    ensures AllInside(ledger, ts)
    decreases |ts|
  {
    hide Book;
    if ts != [] { FewNumbersInside(Book(ledger, ts[0]), ts[1..]); }
  }

  /** One task only counts in the old slots, leaves dead ones dead, and stores nothing under an old
      number. */
  lemma NumberNotReused(h: Bytes -> Hash, slash: bool, d: Disk, t: Task, i: nat)
    requires Do(h, slash, d, t).Some? && i < |d.slots|
    ensures var d' := Do(h, slash, d, t).value;
            && i < |d'.slots| && d'.slots[i].hash == d.slots[i].hash
            && (d.slots[i].count == 0 ==> d'.slots[i].count == 0)
            && (i in d'.stored ==> i in d.stored && d'.stored[i] == d.stored[i])
  {
    hide HashOf, SlotsRead, FindLive, Saved, DeletedHash;
  }

  /** A file number is never given to another file: whatever tasks follow, its slot keeps its
      fingerprint, once dead it stays dead, and what is stored under it is never replaced. */
  lemma {:induction false} NumbersNotReused(h: Bytes -> Hash, slash: bool, d: Disk, ts: seq<Task>, i: nat)
    requires DoAll(h, slash, d, ts).Some? && i < |d.slots|
    ensures var d' := DoAll(h, slash, d, ts).value;
            && i < |d'.slots| && d'.slots[i].hash == d.slots[i].hash
            && (d.slots[i].count == 0 ==> d'.slots[i].count == 0)
            && (i in d'.stored ==> i in d.stored && d'.stored[i] == d.stored[i])
    decreases |ts|
  {
    hide Do;
    if ts != [] {
      NumberNotReused(h, slash, d, ts[0], i);
      NumbersNotReused(h, slash, Do(h, slash, d, ts[0]).value, ts[1..], i);
    }
  }

  // ---------- Past the limits of a file ----------

  /** A file of more than 1 GiB comes back as its first 1 GiB. */
  lemma LongFileCut(h: Bytes -> Hash, file: Bytes)
    ensures var r := DoAll(h, false, Disk([], map[]), [WriteTask(file)]);
            && r.Some?
            && (Restored(false, r.value, 0) == file <==> |file| <= 0x4000_0000)
            && Restored(false, r.value, 0) == file[..Min(|file|, 0x4000_0000)]
  {
    hide HashOf;
    var r := Written(h, Disk([], map[]), file);
    assert [WriteTask(file)][1..] == [];
    assert DoAll(h, false, Disk([], map[]), [WriteTask(file)]) == DoAll(h, false, r.value, []);
    assert Saved(Saved(file)) == Saved(file);
  }

  /** Counts have 32 bits: the write that counts the 2^32nd use of a file makes it dead, and the next
      one stores it again. */
  lemma CountWraps(h: Bytes -> Hash, d: Disk, file: Bytes)
    requires d.slots == [Slot(HashOf(h, file), 0xffff_ffff)]
    ensures var d1 := Written(h, d, file);
            && d1.Some? && d1.value.slots == [Slot(HashOf(h, file), 0)]
            && var d2 := Written(h, d1.value, file);
               d2.Some? && d2.value.slots == [Slot(HashOf(h, file), 0), Slot(HashOf(h, file), 1)]
  {
    hide HashOf;
    assert d.slots[1..] == [];
    assert [Slot(HashOf(h, file), 0)][1..] == [];
  }

  /** Writing over a stored file does not cut it. */
  lemma OverKeepsTail(stored: map<int, Bytes>, name: int, data: Bytes)
    requires name in stored
    ensures var file := Over(stored, name, data)[name];
            && |file| == (if |data| < |stored[name]| then |stored[name]| else |data|)
            && forall i :: 0 <= i < |file| ==> file[i] == if i < |data| then data[i] else stored[name][i]
  {}

  // ---------- Past the buffer ----------

  /** Files of one byte each. */
  function SingleWrites(n: nat): seq<Task>
    requires n <= 256
  {
    seq(n, i requires 0 <= i < n => WriteTask([i]))
  }

  function SingleLines(n: nat): seq<Line>
    requires n <= 256
  {
    seq(n, i requires 0 <= i < n => Line([i], 1, 0))
  }

  lemma SingleBooked(n: nat)
    requires n < 256
    ensures LineOf(SingleLines(n), [n]) == n
    ensures Book(SingleLines(n), WriteTask([n])) == SingleLines(n + 1)
  {
    hide LineOf;
    assert SingleLines(n) + [Line([n], 1, 0)] == SingleLines(n + 1);
  }

  lemma {:induction false} SinglesInside(k: nat, n: nat)
    requires k <= n <= 256
    ensures AllInside(SingleLines(k), SingleWrites(n)[k..]) <==> n <= MAX_SLOTS + 1 || k >= n
    decreases n - k
  {
    hide LineOf, Book;
    if k < n {
      var ts := SingleWrites(n)[k..];
      assert ts[0] == WriteTask([k]) && ts[1..] == SingleWrites(n)[k + 1..];
      SingleBooked(k);
      SinglesInside(k + 1, n);
    }
  }

  /** n different files can be written exactly when n is at most 101: the scan of the 102nd write
      looks for slot 100, the first one behind the buffer. */
  lemma TooManyFiles(h: Bytes -> Hash, universe: iset<Bytes>, n: nat)
    requires Writable(h, universe) && n <= 256 && Within(universe, SingleWrites(n))
    ensures DoAll(h, false, Disk([], map[]), SingleWrites(n)).Some? <==> n <= 101
  {
    hide DoAll, AllInside, Writable, Within;
    TasksAgree(h, universe, Disk([], map[]), [], SingleWrites(n), 0);
    assert SingleLines(0) == [] && SingleWrites(n)[0..] == SingleWrites(n);
    SinglesInside(0, n);
  }

  /** One file written and deleted again, from number k up to number n. */
  function Churn(file: Bytes, k: nat, n: nat): (r: seq<Task>)
    ensures |r| == if k < n then 2 * (n - k) else 0
    ensures forall t :: t in r && t.WriteTask? ==> t.file == file
    decreases n - k
  {
    if k >= n then [] else [WriteTask(file), DeleteTask(k)] + Churn(file, k + 1, n)
  }

  function DeadLines(file: Bytes, k: nat): seq<Line>
  {
    seq(k, _ => Line(file, 1, 1))
  }

  lemma ChurnBooked(file: Bytes, k: nat)
    ensures LineOf(DeadLines(file, k), file) == k
    ensures var once := Book(DeadLines(file, k), WriteTask(file));
            && |once| == k + 1 && once[k].Live()
            && Book(once, DeleteTask(k)) == DeadLines(file, k + 1)
  {
    hide LineOf;
    var once := Book(DeadLines(file, k), WriteTask(file));
    assert once == DeadLines(file, k) + [Line(file, 1, 0)];
    assert Book(once, DeleteTask(k)) == DeadLines(file, k + 1);
  }

  lemma {:induction false} ChurnInside(file: Bytes, k: nat, n: nat)
    requires k <= n
    ensures AllInside(DeadLines(file, k), Churn(file, k, n)) <==> n <= MAX_SLOTS || k == n
    decreases n - k
  {
    hide LineOf, Book;
    if k < n {
      var ts, dead := Churn(file, k, n), DeadLines(file, k);
      var once := Book(dead, WriteTask(file));
      ChurnBooked(file, k);
      assert ts[0] == WriteTask(file) && ts[1..][0] == DeleteTask(k) && ts[1..][1..] == Churn(file, k + 1, n);
      assert AllInside(dead, ts) <==> InsideTask(dead, ts[0]) && AllInside(once, ts[1..]);
      assert AllInside(once, ts[1..])
        <==> (InsideTask(once, DeleteTask(k)) && AllInside(DeadLines(file, k + 1), Churn(file, k + 1, n)));
      ChurnInside(file, k + 1, n);
    }
  }

  /** Dead slots count too: a single file can be written and deleted again exactly 100 times. */
  lemma TooManyDeletes(h: Bytes -> Hash, universe: iset<Bytes>, file: Bytes, n: nat)
    requires Writable(h, universe) && file in universe && 2 * n < U32
    ensures DoAll(h, false, Disk([], map[]), Churn(file, 0, n)).Some? <==> n <= 100
  {
    hide DoAll, AllInside, Writable, Churn;
    TasksAgree(h, universe, Disk([], map[]), [], Churn(file, 0, n), 0);
    assert DeadLines(file, 0) == [];
    ChurnInside(file, 0, n);
  }

  /** With a trailing slash nothing but an empty file comes back, and deletes change nothing. */
  lemma TrailingSlash(h: Bytes -> Hash, universe: iset<Bytes>, d: Disk, ledger: seq<Line>, id: nat)
    requires Agrees(h, universe, d, ledger) && Writable(h, universe) && id < |ledger| && ledger[id].Live()
    ensures forall slash :: Restored(slash, d, id) == ledger[id].file <==> !slash || ledger[id].file == []
    ensures forall other: Disk :: -1 in other.stored ==> Restored(true, other, id) == Saved(other.stored[-1])
    ensures Deleted(h, true, d, id) == if |d.slots| <= 100 then Some(d) else None
  {
    hide HashOf, FindLive, SlotsRead;
    NoZeroHash(h, universe, d, ledger);
    InsideBuffer(d.slots, ZERO_HASH, MAX_SLOTS);
    assert Saved(ledger[id].file) == ledger[id].file;
    assert d.stored - {-1} == d.stored;
  }

  /** The table and the directory after a first file. */
  function AfterOne(h: Bytes -> Hash, a: Bytes): Disk
  {
    Disk([Slot(HashOf(h, a), 1)], map[0 := a])
  }

  lemma TwoWrites(h: Bytes -> Hash, a: Bytes, b: Bytes)
    requires |a| <= FULL_FILE_CACHE
    ensures DoAll(h, false, Disk([], map[]), [WriteTask(a), WriteTask(b)]) == Written(h, AfterOne(h, a), b)
  {
    hide HashOf;
    assert Saved(a) == a;
    assert Written(h, Disk([], map[]), a).value == AfterOne(h, a);
    var ts := [WriteTask(a), WriteTask(b)];
    assert ts[1..] == [WriteTask(b)] && ts[1..][1..] == [];
    assert DoAll(h, false, Disk([], map[]), ts) == DoAll(h, false, AfterOne(h, a), ts[1..]);
    var r := Do(h, false, AfterOne(h, a), ts[1..][0]);
    assert DoAll(h, false, AfterOne(h, a), ts[1..]) == if r.None? then None else DoAll(h, false, r.value, ts[1..][1..]);
  }

  /** The second of two files is given back under the number it gets exactly when its fingerprint
      differs from the first one's or it is the same file. */
  lemma SecondFileKept(h: Bytes -> Hash, a: Bytes, b: Bytes)
    requires |a| <= FULL_FILE_CACHE && |b| <= FULL_FILE_CACHE
    ensures var r, id := DoAll(h, false, Disk([], map[]), [WriteTask(a), WriteTask(b)]),
            FindLive(AfterOne(h, a).slots, HashOf(h, b));
            r.Some? && (Restored(false, r.value, id) == b <==> HashOf(h, a) != HashOf(h, b) || a == b)
  {
    hide HashOf, DoAll;
    TwoWrites(h, a, b);
    assert Saved(a) == a && Saved(b) == b;
    assert AfterOne(h, a).slots[1..] == [];
  }

  /** Only the first FILE_CACHE bytes are fingerprinted: a different file that agrees with the
      first one on them is given back as the first one. */
  lemma LongFilesConfused(h: Bytes -> Hash, a: Bytes, b: Bytes)
    requires FILE_CACHE <= |a| <= FULL_FILE_CACHE && FILE_CACHE <= |b| && a[..FILE_CACHE] == b[..FILE_CACHE]
    ensures var r := DoAll(h, false, Disk([], map[]), [WriteTask(a), WriteTask(b)]);
            r.Some? && r.value.slots == [Slot(HashOf(h, b), 2)] && Restored(false, r.value, 0) == a
  {
    hide DoAll;
    TwoWrites(h, a, b);
    assert Saved(a) == a;
    assert FindLive(AfterOne(h, a).slots, HashOf(h, b)) == 0;
  }
}
