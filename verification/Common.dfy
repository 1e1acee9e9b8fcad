/** Constants, records and sequence facts shared by every part of the model. */
module Common {
  // general.h
  const FILE_CACHE: nat := 256 * 1024 * 1024
  const CONTAINER_SIZE: nat := 4 * 1024 * 1024
  const DEFAULT_BLOCK_SIZE: nat := 1024 * 1024
  const META_DATA_SIZE: nat := 36
  const SHA1_LENGTH: nat := 20

  const U8: nat := 0x100
  const U16: nat := 0x1_0000
  const U32: nat := 0x1_0000_0000
  const U64: nat := 0x1_0000_0000_0000_0000

  type byte = x: int | 0 <= x < 256
  type Bytes = seq<byte>

  datatype Option<+T> = None | Some(value: T)

  type uint32 = x: int | 0 <= x < 0x1_0000_0000
  type uint64 = x: int | 0 <= x < 0x1_0000_0000_0000_0000

  /** A 20-byte SHA-1 fingerprint, field by field as the index stores it. */
  datatype SHA1FP = SHA1FP(fp1: uint64, fp2: uint32, fp3: uint32, fp4: uint32)

  /** Where a unique chunk lives and how many recipe positions refer to it. */
  datatype EntryValue = EntryValue(containerNumber: nat, offset: nat, chunkLength: nat, innerIndex: nat, refCnt: nat)

  function Min(a: nat, b: nat): nat { if a < b then a else b }

  function Flatten<T>(ss: seq<seq<T>>): (r: seq<T>)
  {
    if ss == [] then [] else ss[0] + Flatten(ss[1..])
  }

  lemma {:induction false} FlattenConcat<T>(a: seq<seq<T>>, b: seq<seq<T>>)
    ensures Flatten(a + b) == Flatten(a) + Flatten(b)
  {
    if a == [] {
      assert a + b == b;
    } else {
      assert (a + b)[1..] == a[1..] + b;
      FlattenConcat(a[1..], b);
    }
  }

  lemma FlattenCons<T>(s: seq<T>, rest: seq<seq<T>>)
    ensures Flatten([s] + rest) == s + Flatten(rest)
  {
    assert ([s] + rest)[1..] == rest;
  }

  /** No element occurs twice. */
  ghost predicate NoDup<T>(s: seq<T>)
  {
    forall i, j :: 0 <= i < j < |s| ==> s[i] != s[j]
  }

  ghost function Members<T>(s: seq<T>): set<T>
  {
    set x | x in s
  }

  lemma {:induction false} MembersSize<T>(s: seq<T>)
    requires NoDup(s)
    ensures |Members(s)| == |s|
  {
    if s != [] {
      assert s[0] !in Members(s[1..]);
      assert NoDup(s[1..]);
      MembersSize(s[1..]);
      assert Members(s) == {s[0]} + Members(s[1..]);
    }
  }

  lemma FewerKeys<K, V, W>(a: map<K, V>, b: map<K, W>)
    requires a.Keys <= b.Keys
    ensures |a| <= |b|
  {
    assert b.Keys == a.Keys + (b.Keys - a.Keys);
    assert |a| == |a.Keys| && |b| == |b.Keys|;
  }

  /** Moving one entry from one map to another that is disjoint from it. */
  lemma MoveEntry<K, V>(done: map<K, V>, todo: map<K, V>, k: K)
    requires done.Keys !! todo.Keys && k in todo
    ensures done[k := todo[k]].Keys !! (todo - {k}).Keys
    ensures done[k := todo[k]] + (todo - {k}) == done + todo
  {
    var l, r := done[k := todo[k]] + (todo - {k}), done + todo;
    assert l.Keys == r.Keys;
    assert forall x :: x in l ==> l[x] == r[x];
  }

  lemma UnionCommutes<K, V>(a: map<K, V>, b: map<K, V>)
    requires a.Keys !! b.Keys
    ensures a + b == b + a
    ensures a == map[] ==> a + b == b
  {}

  /** memcpy of `data` to position `at`. */
  method Memcpy(a: array<byte>, at: nat, data: Bytes)
    requires at + |data| <= a.Length
    modifies a
    ensures a[..] == old(a[..at]) + data + old(a[at + |data|..])
  {
    forall i | 0 <= i < |data| {
      a[at + i] := data[i];
    }
  }

  /** memmove of `n` bytes from position `from` to the front. */
  method MoveToFront(a: array<byte>, from: nat, n: nat)
    requires from + n <= a.Length
    modifies a
    ensures a[..] == old(a[from..from + n]) + old(a[n..])
  {
    forall i | 0 <= i < n {
      a[i] := a[from + i];
    }
  }
}
