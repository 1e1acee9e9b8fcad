/** The fingerprint index, its two tables, and the 36-byte records it is saved as. */
module MetadataManager {
  import opened Common

  type Index = map<SHA1FP, EntryValue>

  datatype LookupResult = Unique | Dedup

  // ---------- Records ----------

  /** `k` bytes of `n`, least significant first. */
  function LittleEndian(n: nat, k: nat): (r: Bytes)
    ensures |r| == k
  {
    if k == 0 then [] else [n % 256] + LittleEndian(n / 256, k - 1)
  }

  function Pow256(k: nat): nat
  {
    if k == 0 then 1 else 256 * Pow256(k - 1)
  }

  function FromLittleEndian(bs: Bytes): (r: nat)
    ensures r < Pow256(|bs|)
  {
    if bs == [] then 0 else bs[0] + 256 * FromLittleEndian(bs[1..])
  }

  lemma {:induction false} LittleEndianRoundTrip(n: nat, k: nat)
    requires n < Pow256(k)
    ensures FromLittleEndian(LittleEndian(n, k)) == n
  {
    if k > 0 {
      LittleEndianRoundTrip(n / 256, k - 1);
      assert LittleEndian(n, k)[1..] == LittleEndian(n / 256, k - 1);
    }
  }

  type Record = (SHA1FP, EntryValue)

  /** Every field of a record fits the width it is stored with. */
  predicate Fits(r: Record)
  {
    && r.1.containerNumber < U32 && r.1.offset < U32
    && r.1.chunkLength < U16 && r.1.innerIndex < U16 && r.1.refCnt < U32
  }

  function EncodeFp(fp: SHA1FP): (r: Bytes)
    ensures |r| == 20
  {
    LittleEndian(fp.fp1, 8) + LittleEndian(fp.fp2, 4) + LittleEndian(fp.fp3, 4) + LittleEndian(fp.fp4, 4)
  }

  function EncodeValue(v: EntryValue): (r: Bytes)
    ensures |r| == 16
  {
    LittleEndian(v.containerNumber, 4) + LittleEndian(v.offset, 4) + LittleEndian(v.chunkLength, 2)
    + LittleEndian(v.innerIndex, 2) + LittleEndian(v.refCnt, 4)
  }

  function DecodeFp(bs: Bytes): SHA1FP
    requires |bs| == 20
  {
    Widths();
    SHA1FP(FromLittleEndian(bs[..8]), FromLittleEndian(bs[8..12]),
           FromLittleEndian(bs[12..16]), FromLittleEndian(bs[16..]))
  }

  function DecodeValue(bs: Bytes): EntryValue
    requires |bs| == 16
  {
    EntryValue(FromLittleEndian(bs[..4]), FromLittleEndian(bs[4..8]), FromLittleEndian(bs[8..10]),
               FromLittleEndian(bs[10..12]), FromLittleEndian(bs[12..]))
  }

  function Encode(r: Record): (bs: Bytes)
    ensures |bs| == META_DATA_SIZE
  {
    EncodeFp(r.0) + EncodeValue(r.1)
  }

  function Decode(bs: Bytes): Record
    requires |bs| == META_DATA_SIZE
  {
    (DecodeFp(bs[..20]), DecodeValue(bs[20..]))
  }

  lemma Widths()
    ensures Pow256(2) == U16 && Pow256(4) == U32 && Pow256(8) == U64
  {
    assert Pow256(6) == 0x1_0000_0000_0000;
  }

  lemma FpRoundTrip(fp: SHA1FP)
    ensures DecodeFp(EncodeFp(fp)) == fp
  {
    hide LittleEndian, FromLittleEndian, Pow256;
    Widths();
    LittleEndianRoundTrip(fp.fp1, 8);
    LittleEndianRoundTrip(fp.fp2, 4);
    LittleEndianRoundTrip(fp.fp3, 4);
    LittleEndianRoundTrip(fp.fp4, 4);
    var bs := EncodeFp(fp);
    assert bs[..8] == LittleEndian(fp.fp1, 8);
    assert bs[8..12] == LittleEndian(fp.fp2, 4);
    assert bs[12..16] == LittleEndian(fp.fp3, 4);
    assert bs[16..] == LittleEndian(fp.fp4, 4);
  }

  lemma ValueRoundTrip(v: EntryValue)
    requires v.containerNumber < U32 && v.offset < U32 && v.chunkLength < U16 && v.innerIndex < U16 && v.refCnt < U32
    ensures DecodeValue(EncodeValue(v)) == v
  {
    hide LittleEndian, FromLittleEndian, Pow256;
    Widths();
    LittleEndianRoundTrip(v.containerNumber, 4);
    LittleEndianRoundTrip(v.offset, 4);
    LittleEndianRoundTrip(v.chunkLength, 2);
    LittleEndianRoundTrip(v.innerIndex, 2);
    LittleEndianRoundTrip(v.refCnt, 4);
    var bs := EncodeValue(v);
    assert bs[..4] == LittleEndian(v.containerNumber, 4);
    assert bs[4..8] == LittleEndian(v.offset, 4);
    assert bs[8..10] == LittleEndian(v.chunkLength, 2);
    assert bs[10..12] == LittleEndian(v.innerIndex, 2);
    assert bs[12..] == LittleEndian(v.refCnt, 4);
  }

  lemma RecordRoundTrip(r: Record)
    requires Fits(r)
    ensures Decode(Encode(r)) == r
  {
    hide EncodeFp, EncodeValue, DecodeFp, DecodeValue;
    FpRoundTrip(r.0);
    ValueRoundTrip(r.1);
    assert Encode(r)[..20] == EncodeFp(r.0) && Encode(r)[20..] == EncodeValue(r.1);
  }

  // Numbers of two, four and eight bytes, least significant first.
  function Two(n: nat): Bytes { [n % 0x100, n / 0x100 % 0x100] }

  function Four(n: nat): Bytes { Two(n) + Two(n / 0x1_0000) }

  function Eight(n: nat): Bytes { Four(n) + Four(n / 0x1_0000_0000) }

  lemma LeastSignificantFirst(n: nat)
    ensures LittleEndian(n, 2) == Two(n) && LittleEndian(n, 4) == Four(n) && LittleEndian(n, 8) == Eight(n)
  {
    hide LittleEndian, Two, Four;
    TwoBytes(n, 0);
    FourBytes(n, 0);
    FourBytes(n, 4);
    FourBytes(n / 0x1_0000_0000, 0);
    NoBytes(n / 0x1_0000);
    NoBytes(n / 0x1_0000_0000);
    NoBytes(n / 0x1_0000_0000 / 0x1_0000_0000);
    assert LittleEndian(n, 2) == Two(n) + [];
    assert LittleEndian(n, 4) == Four(n) + [];
    assert LittleEndian(n, 8) == Four(n) + (Four(n / 0x1_0000_0000) + []);
  }

  lemma NoBytes(n: nat)
    ensures LittleEndian(n, 0) == []
  {}

  lemma TwoBytes(n: nat, k: nat)
    ensures LittleEndian(n, k + 2) == Two(n) + LittleEndian(n / 0x1_0000, k)
  {
    assert n / 256 / 256 == n / 0x1_0000;
    assert LittleEndian(n / 256, k + 1) == [n / 256 % 256] + LittleEndian(n / 256 / 256, k);
  }

  lemma FourBytes(n: nat, k: nat)
    ensures LittleEndian(n, k + 4) == Four(n) + LittleEndian(n / 0x1_0000_0000, k)
  {
    hide LittleEndian;
    TwoBytes(n, k + 2);
    TwoBytes(n / 0x1_0000, k);
    assert n / 0x1_0000 / 0x1_0000 == n / 0x1_0000_0000;
    assert Two(n) + (Two(n / 0x1_0000) + LittleEndian(n / 0x1_0000_0000, k))
        == Four(n) + LittleEndian(n / 0x1_0000_0000, k);
  }

  /** The 36 bytes of a record: four words of the fingerprint, then container number, offset, length,
      number inside the container and reference count. */
  lemma RecordLayout(r: Record)
    ensures Encode(r)
         == Eight(r.0.fp1) + Four(r.0.fp2) + Four(r.0.fp3) + Four(r.0.fp4)
            + (Four(r.1.containerNumber) + Four(r.1.offset) + Two(r.1.chunkLength)
               + Two(r.1.innerIndex) + Four(r.1.refCnt))
  {
    hide LittleEndian, Two, Four, Eight;
    LeastSignificantFirst(r.0.fp1);
    LeastSignificantFirst(r.0.fp2);
    LeastSignificantFirst(r.0.fp3);
    LeastSignificantFirst(r.0.fp4);
    LeastSignificantFirst(r.1.containerNumber);
    LeastSignificantFirst(r.1.offset);
    LeastSignificantFirst(r.1.chunkLength);
    LeastSignificantFirst(r.1.innerIndex);
    LeastSignificantFirst(r.1.refCnt);
  }

  // ---------- The index file ----------

  function EncodeAll(rs: seq<Record>): (bs: Bytes)
    ensures |bs| == META_DATA_SIZE * |rs|
  {
    if rs == [] then [] else Encode(rs[0]) + EncodeAll(rs[1..])
  }

  /** The whole records of a byte string; a partial one at the end is ignored. */
  function Parse(bs: Bytes): (rs: seq<Record>)
    ensures |rs| == |bs| / META_DATA_SIZE
  {
    if |bs| < META_DATA_SIZE then [] else [Decode(bs[..META_DATA_SIZE])] + Parse(bs[META_DATA_SIZE..])
  }

  /** Inserting records one by one, keeping the first of several with the same key. */
  function EmplaceAll(m: Index, rs: seq<Record>): (r: Index)
    ensures |r| <= |m| + |rs|
    decreases |rs|
  {
    if rs == [] then m
    else EmplaceAll(if rs[0].0 in m then m else m[rs[0].0 := rs[0].1], rs[1..])
  }

  /** What a run finds in the index after loading `file`: at most FILE_CACHE bytes are read. */
  function LoadIndex(file: Bytes): Index
  {
    EmplaceAll(map[], Parse(file[..Min(|file|, FILE_CACHE)]))
  }

  const MAX_ENTRIES: nat := FILE_CACHE / META_DATA_SIZE

  lemma {:induction false} ParsePrefix(rs: seq<Record>, n: nat)
    requires n <= META_DATA_SIZE * |rs|
    requires forall r :: r in rs ==> Fits(r)
    ensures Parse(EncodeAll(rs)[..n]) == rs[..n / META_DATA_SIZE]
  {
    hide Encode, Decode, Fits;
    if n >= META_DATA_SIZE {
      RecordRoundTrip(rs[0]);
      ParsePrefix(rs[1..], n - META_DATA_SIZE);
      var bs := EncodeAll(rs)[..n];
      assert bs[..META_DATA_SIZE] == Encode(rs[0]);
      assert bs[META_DATA_SIZE..] == EncodeAll(rs[1..])[..n - META_DATA_SIZE];
    }
  }

  /** Whether the index can be saved and loaded without loss of width. */
  ghost predicate AllFit(m: Index)
  {
    forall fp :: fp in m ==> Fits((fp, m[fp]))
  }

  /** `rs` lists every entry of `m` once, in some order. */
  ghost predicate Lists(rs: seq<Record>, m: Index)
  {
    |rs| == |m| && EmplaceAll(map[], rs) == m && forall r :: r in rs ==> r.0 in m && m[r.0] == r.1
  }

  /** Loading a saved index gives it back exactly when it has at most FILE_CACHE / 36 entries,
      whatever the order the entries were written in. */
  lemma LoadAfterSave(rs: seq<Record>, m: Index)
    requires Lists(rs, m) && AllFit(m)
    ensures LoadIndex(EncodeAll(rs)) == m <==> |m| <= MAX_ENTRIES
  {
    hide Fits;
    var n := Min(|EncodeAll(rs)|, FILE_CACHE);
    ParsePrefix(rs, n);
    assert |rs| <= MAX_ENTRIES ==> rs[..n / META_DATA_SIZE] == rs;
  }

  lemma {:induction false} EmplaceLast(m: Index, rs: seq<Record>, r: Record)
    requires r.0 !in EmplaceAll(m, rs)
    ensures EmplaceAll(m, rs + [r]) == EmplaceAll(m, rs)[r.0 := r.1]
    decreases |rs|
  {
    if rs == [] {
      assert [r][1..] == [];
    } else {
      assert (rs + [r])[1..] == rs[1..] + [r];
      EmplaceLast(if rs[0].0 in m then m else m[rs[0].0 := rs[0].1], rs[1..], r);
    }
  }

  lemma {:induction false} EncodeLast(rs: seq<Record>, r: Record)
    ensures EncodeAll(rs + [r]) == EncodeAll(rs) + Encode(r)
  {
    hide Encode;
    if rs == [] {
      assert [r][1..] == [];
    } else {
      assert (rs + [r])[1..] == rs[1..] + [r];
      EncodeLast(rs[1..], r);
    }
  }

  lemma ListOneMore(rs: seq<Record>, m: Index, r: Record)
    requires Lists(rs, m) && r.0 !in m
    ensures Lists(rs + [r], m[r.0 := r.1])
    ensures EncodeAll(rs + [r]) == EncodeAll(rs) + Encode(r)
  {
    hide Encode;
    EmplaceLast(map[], rs, r);
    EncodeLast(rs, r);
  }

  /** The offset of one chunk after `len` bytes at `off` were cut out of its container. */
  function ShiftOne(m: Index, fp: SHA1FP, off: nat, len: nat): Index
  {
    if fp in m && m[fp].offset > off then m[fp := m[fp].(offset := Sub(m[fp].offset, len))] else m
  }

  /** The repair loop over a reverse list: every chunk but the removed one. */
  function ShiftEach(m: Index, rev: seq<SHA1FP>, gone: SHA1FP, off: nat, len: nat): Index
    decreases |rev|
  {
    if rev == [] then m
    else ShiftEach(if rev[0] == gone then m else ShiftOne(m, rev[0], off, len), rev[1..], gone, off, len)
  }

  /** What that loop amounts to on a list without repetitions. */
  function ShiftOffsets(m: Index, rev: seq<SHA1FP>, gone: SHA1FP, off: nat, len: nat): Index
  {
    map fp | fp in m ::
      if fp in rev && fp != gone && m[fp].offset > off then m[fp].(offset := Sub(m[fp].offset, len)) else m[fp]
  }

  lemma {:induction false} ShiftEachIsShiftOffsets(m: Index, rev: seq<SHA1FP>, gone: SHA1FP, off: nat, len: nat)
    requires NoDup(rev)
    ensures ShiftEach(m, rev, gone, off, len) == ShiftOffsets(m, rev, gone, off, len)
    decreases |rev|
  {
    hide Sub;
    if rev != [] {
      assert rev[0] !in rev[1..];
      assert NoDup(rev[1..]);
      ShiftEachIsShiftOffsets(if rev[0] == gone then m else ShiftOne(m, rev[0], off, len), rev[1..], gone, off, len);
    }
  }

  /** Unsigned 32-bit subtraction. */
  function Sub(a: nat, b: nat): nat
  {
    if b <= a then a - b else (a - b) % U32
  }

  /** It undoes addition modulo 2^32. */
  lemma SubWraps(a: nat, b: nat)
    requires a < 0x1_0000_0000 && b < 0x1_0000_0000
    ensures Sub(a, b) < 0x1_0000_0000 && (Sub(a, b) + b) % 0x1_0000_0000 == a
  {}

  function OneMore(m: Index, fp: SHA1FP): Index
    requires fp in m
  {
    m[fp := m[fp].(refCnt := m[fp].refCnt + 1)]
  }

  lemma OneMoreKeys(m: Index, fp: SHA1FP)
    ensures fp in m ==> OneMore(m, fp).Keys == m.Keys
  {}

  class Manager {
    // Entries loaded from the index file, and entries this run has added.
    var origin: Index
    var added: Index

    /** The two tables never hold the same fingerprint. */
    ghost predicate Valid()
      reads this
    {
      origin.Keys !! added.Keys
    }

    ghost function Both(): Index
      reads this
    {
      origin + added
    }

    constructor ()
      ensures Valid() && origin == map[] && added == map[]
    {
      origin, added := map[], map[];
    }

    method Load(file: Bytes)
      requires Valid() && origin == map[] && added == map[]
      modifies this`origin
      ensures Valid() && origin == LoadIndex(file)
    {
      hide Decode;
      var cache := file[..Min(|file|, FILE_CACHE)];
      var entryCount, i := |cache| / META_DATA_SIZE, 0;
      while i < entryCount
        invariant i <= entryCount
        invariant EmplaceAll(origin, Parse(cache[META_DATA_SIZE * i..])) == LoadIndex(file)
      {
        ghost var rest := cache[META_DATA_SIZE * i..];
        var record := cache[META_DATA_SIZE * i..META_DATA_SIZE * i + META_DATA_SIZE];
        assert record == rest[..META_DATA_SIZE];
        assert rest[META_DATA_SIZE..] == cache[META_DATA_SIZE * (i + 1)..];
        var (fp, value) := Decode(record);
        if fp !in origin {
          origin := origin[fp := value];
        }
        i := i + 1;
      }
    }

    /** Writes one table after `file`, in whatever order it iterates. */
    static method WriteTable(table: Index, file: Bytes, ghost rs: seq<Record>, ghost m: Index)
      returns (r: Bytes, ghost rs': seq<Record>)
      requires file == EncodeAll(rs) && Lists(rs, m) && m.Keys !! table.Keys
      ensures r == EncodeAll(rs') && Lists(rs', m + table)
    {
      hide Encode, EncodeAll, Lists;
      var todo := table;
      r, rs' := file, rs;
      ghost var done := m;
      while todo.Keys != {}
        invariant r == EncodeAll(rs') && Lists(rs', done)
        invariant done.Keys !! todo.Keys && done + todo == m + table
        decreases todo.Keys
      {
        var fp :| fp in todo.Keys;
        ListOneMore(rs', done, (fp, todo[fp]));
        MoveEntry(done, todo, fp);
        r, rs' := r + Encode((fp, todo[fp])), rs' + [(fp, todo[fp])];
        done := done[fp := todo[fp]];
        todo := todo - {fp};
      }
      assert done == done + todo;
    }

    /** Overwrites the index file with the added entries, then the loaded ones. */
    method Save() returns (file: Bytes)
      requires Valid()
      ensures exists rs :: file == EncodeAll(rs) && Lists(rs, Both())
      ensures AllFit(Both()) ==> (LoadIndex(file) == Both() <==> |Both()| <= MAX_ENTRIES)
    {
      hide Encode, EncodeAll, Lists, AllFit, LoadIndex;
      NothingWritten();
      ghost var rs: seq<Record>;
      file, rs := WriteTable(added, [], [], map[]);
      UnionCommutes(map[], added);
      UnionCommutes(added, origin);
      file, rs := WriteTable(origin, file, rs, added);
      if AllFit(Both()) { LoadAfterSave(rs, Both()); }
    }

    method DedupLookup(fp: SHA1FP) returns (r: LookupResult)
      ensures r == if fp in Both() then Dedup else Unique
    {
      if fp in origin {
        return Dedup;
      }
      if fp in added {
        return Dedup;
      }
      return Unique;
    }

    /** The source asserts that the fingerprint is new. */
    method AddNewEntry(fp: SHA1FP, value: EntryValue)
      requires fp !in added
      modifies this`added
      ensures added == old(added)[fp := value]
    {
      added := added[fp := value];
    }

    /** Counts one more reference, looking among the added entries first. */
    method AddRefCnt(fp: SHA1FP) returns (found: bool)
      modifies this
      ensures found == (fp in old(Both()))
      ensures added == if fp in old(added) then OneMore(old(added), fp) else old(added)
      ensures origin == if fp !in old(added) && fp in old(origin) then OneMore(old(origin), fp) else old(origin)
    {
      if fp in added {
        added := OneMore(added, fp);
        return true;
      }
      if fp in origin {
        origin := OneMore(origin, fp);
        return true;
      }
      return false;
    }

    /** Only loaded entries lose references; the last reference removes the entry. */
    method DecRefCnt(fp: SHA1FP) returns (r: Option<nat>)
      modifies this`origin
      ensures fp !in old(origin) ==> r == None && origin == old(origin)
      ensures fp in old(origin) ==>
                var e := old(origin)[fp];
                if e.refCnt > 1 then r == Some(e.refCnt - 1) && origin == old(origin)[fp := e.(refCnt := e.refCnt - 1)]
                else r == Some(0) && origin == old(origin) - {fp}
    {
      if fp in origin {
        if origin[fp].refCnt > 1 {
          r := Some(origin[fp].refCnt - 1);
          origin := origin[fp := origin[fp].(refCnt := origin[fp].refCnt - 1)];
        } else {
          origin := origin - {fp};
          r := Some(0);
        }
        return;
      }
      return None;
    }

    /** operator[] on the table: an absent fingerprint gets a zero entry. */
    method GetEntry(fp: SHA1FP) returns (v: EntryValue)
      modifies this`origin
      ensures fp in old(origin) ==> v == old(origin)[fp] && origin == old(origin)
      ensures fp !in old(origin) ==> v == EntryValue(0, 0, 0, 0, 0) && origin == old(origin)[fp := v]
    {
      if fp !in origin {
        origin := origin[fp := EntryValue(0, 0, 0, 0, 0)];
      }
      return origin[fp];
    }

    /** False stands for the source's exit on an unknown fingerprint. */
    method ChunkOffsetDec(fp: SHA1FP, off: nat, len: nat) returns (ok: bool)
      requires Valid()
      modifies this
      ensures Valid() && ok == (fp in old(Both()))
      ensures origin == ShiftOne(old(origin), fp, off, len)
      ensures added == if fp in old(origin) then old(added) else ShiftOne(old(added), fp, off, len)
    {
      if fp in origin {
        if origin[fp].offset > off {
          origin := origin[fp := origin[fp].(offset := Sub(origin[fp].offset, len))];
        }
        return true;
      }
      if fp in added {
        if added[fp].offset > off {
          added := added[fp := added[fp].(offset := Sub(added[fp].offset, len))];
        }
        return true;
      }
      return false;
    }
  }

  lemma NothingWritten()
    ensures EncodeAll([]) == [] && Lists([], map[])
  {}
}
