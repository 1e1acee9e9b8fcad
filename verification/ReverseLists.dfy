/** The file that lists the chunks of a container: a count of four bytes, then the fingerprints. */
module ReverseLists {
  import opened Common
  import opened MetadataManager
  import opened StoreModel

  function EncodeFps(fps: seq<SHA1FP>): (bs: Bytes)
    ensures |bs| == SHA1_LENGTH * |fps|
  {
    if fps == [] then [] else EncodeFp(fps[0]) + EncodeFps(fps[1..])
  }

  /** The whole fingerprints of a byte string. */
  function DecodeFps(bs: Bytes): (fps: seq<SHA1FP>)
    ensures |fps| == |bs| / SHA1_LENGTH
  {
    if |bs| < SHA1_LENGTH then [] else [DecodeFp(bs[..SHA1_LENGTH])] + DecodeFps(bs[SHA1_LENGTH..])
  }

  function ListFile(fps: seq<SHA1FP>): Bytes
  {
    LittleEndian(|fps|, 4) + EncodeFps(fps)
  }

  /** The count in front; an empty file counts nothing. */
  function CountIn(file: Bytes): nat
  {
    if |file| < 4 then 0 else FromLittleEndian(file[..4])
  }

  /** The list a file holds, as far as it goes. */
  function ReadList(file: Bytes): seq<SHA1FP>
  {
    if |file| < 4 then [] else DecodeFps(file[4..Min(|file|, ListSize(CountIn(file)))])
  }

  /** All counted fingerprints are there. */
  predicate Whole(file: Bytes)
  {
    4 <= |file| && ListSize(CountIn(file)) <= |file|
  }

  function ReadLists(files: map<nat, Bytes>): map<nat, seq<SHA1FP>>
  {
    map c | c in files :: ReadList(files[c])
  }

  predicate AllWhole(files: map<nat, Bytes>)
  {
    forall c :: c in files ==> Whole(files[c])
  }

  lemma {:induction false} DecodeConcat(a: Bytes, b: Bytes, n: nat)
    requires |a| == SHA1_LENGTH * n
    ensures DecodeFps(a + b) == DecodeFps(a) + DecodeFps(b)
    decreases n
  {
    hide DecodeFp;
    if n == 0 {
      assert a + b == b;
    } else {
      var head, tail := a[..SHA1_LENGTH], a[SHA1_LENGTH..];
      assert (a + b)[..SHA1_LENGTH] == head && (a + b)[SHA1_LENGTH..] == tail + b;
      DecodeConcat(tail, b, n - 1);
      assert [DecodeFp(head)] + (DecodeFps(tail) + DecodeFps(b)) == [DecodeFp(head)] + DecodeFps(tail) + DecodeFps(b);
    }
  }

  lemma {:induction false} FpsRoundTrip(fps: seq<SHA1FP>)
    ensures DecodeFps(EncodeFps(fps)) == fps
  {
    hide EncodeFp, DecodeFp;
    if fps != [] {
      var bs := EncodeFps(fps);
      assert bs[..SHA1_LENGTH] == EncodeFp(fps[0]) && bs[SHA1_LENGTH..] == EncodeFps(fps[1..]);
      FpRoundTrip(fps[0]);
      FpsRoundTrip(fps[1..]);
    }
  }

  /** The file of a list: a count of four bytes, and the i-th fingerprint at byte 4 + 20i. */
  lemma ListLayout(fps: seq<SHA1FP>, i: nat)
    ensures ListFile(fps)[..4] == Four(|fps|) && |ListFile(fps)| == 4 + 20 * |fps|
    ensures i < |fps| ==> ListFile(fps)[4 + 20 * i..24 + 20 * i] == EncodeFp(fps[i])
  {
    hide EncodeFp, LittleEndian, Four;
    LeastSignificantFirst(|fps|);
    if i < |fps| {
      FpAt(fps, i);
      var bs := EncodeFps(fps);
      assert ListFile(fps)[4 + 20 * i..24 + 20 * i] == bs[20 * i..20 * i + 20];
    }
  }

  lemma {:induction false} FpAt(fps: seq<SHA1FP>, i: nat)
    requires i < |fps|
    ensures EncodeFps(fps)[20 * i..20 * i + 20] == EncodeFp(fps[i])
    decreases i
  {
    hide EncodeFp;
    var bs, rest := EncodeFps(fps), EncodeFps(fps[1..]);
    if i == 0 {
      assert bs[..20] == EncodeFp(fps[0]);
    } else {
      FpAt(fps[1..], i - 1);
      assert bs[20..] == rest;
      assert bs[20 * i..20 * i + 20] == rest[20 * (i - 1)..20 * (i - 1) + 20];
    }
  }

  lemma CountWritten(n: nat, rest: Bytes)
    requires n < U32
    ensures CountIn(LittleEndian(n, 4) + rest) == n
  {
    hide LittleEndian, FromLittleEndian, Pow256;
    Widths();
    LittleEndianRoundTrip(n, 4);
    assert (LittleEndian(n, 4) + rest)[..4] == LittleEndian(n, 4);
  }

  /** A list is read back, also from a longer file that it has been written over. */
  lemma ListRoundTrip(fps: seq<SHA1FP>, rest: Bytes)
    requires |fps| < U32
    ensures ReadList(ListFile(fps) + rest) == fps && Whole(ListFile(fps) + rest)
  {
    hide LittleEndian, EncodeFps, DecodeFps, CountIn;
    var file := ListFile(fps) + rest;
    assert file == LittleEndian(|fps|, 4) + (EncodeFps(fps) + rest);
    CountWritten(|fps|, EncodeFps(fps) + rest);
    assert file[4..ListSize(|fps|)] == EncodeFps(fps);
    FpsRoundTrip(fps);
  }

  /** Saving a list under a name, whatever was there. */
  lemma ListSaved(files: map<nat, Bytes>, c: nat, fps: seq<SHA1FP>)
    requires AllWhole(files) && |fps| < U32
    ensures ReadLists(Put(files, c, ListFile(fps))) == ReadLists(files)[c := fps]
    ensures AllWhole(Put(files, c, ListFile(fps)))
  {
    hide ReadList, Whole, ListFile;
    var data := ListFile(fps);
    var rest := if c in files && |data| < |files[c]| then files[c][|data|..] else [];
    assert Put(files, c, data)[c] == data + rest;
    ListRoundTrip(fps, rest);
  }

  /** Writing a smaller count and cutting out one fingerprint, with one read for everything behind
      it, takes it off the list. */
  lemma ListCut(file: Bytes, p: nat, tail: Bytes)
    requires Whole(file) && p < CountIn(file) < U32
    requires tail <= file[ListSize(p) + SHA1_LENGTH..] && ListSize(CountIn(file)) - ListSize(p) - SHA1_LENGTH <= |tail|
    ensures var cut := LittleEndian(CountIn(file) - 1, 4) + file[4..ListSize(p)] + tail;
            ReadList(cut) == CutOut(ReadList(file), p, 1) && Whole(cut)
  {
    hide LittleEndian, DecodeFps, CountIn;
    var n := CountIn(file);
    var a, m, b := file[4..ListSize(p)], file[ListSize(p)..ListSize(p) + SHA1_LENGTH],
                   file[ListSize(p) + SHA1_LENGTH..ListSize(n)];
    var cut := LittleEndian(n - 1, 4) + a + tail;
    assert cut == LittleEndian(n - 1, 4) + (a + tail);
    CountWritten(n - 1, a + tail);
    assert cut[4..ListSize(n - 1)] == a + b;
    assert file[4..ListSize(n)] == a + (m + b);
    DecodeConcat(a, b, p);
    DecodeConcat(a, m + b, p);
    DecodeConcat(m, b, 1);
    CutDecoded(DecodeFps(a), DecodeFps(m), DecodeFps(b));
  }

  lemma CutDecoded(a: seq<SHA1FP>, m: seq<SHA1FP>, b: seq<SHA1FP>)
    requires |m| == 1
    ensures CutOut(a + (m + b), |a|, 1) == a + b
  {}

  lemma ListsUpdated(files: map<nat, Bytes>, c: nat, file: Bytes)
    requires AllWhole(files) && Whole(file)
    ensures ReadLists(files[c := file]) == ReadLists(files)[c := ReadList(file)] && AllWhole(files[c := file])
    ensures ReadLists(files - {c}) == ReadLists(files) - {c} && AllWhole(files - {c})
  {
    hide ReadList, Whole;
  }

  lemma WholeLength(file: Bytes)
    requires Whole(file)
    ensures |ReadList(file)| == CountIn(file) < U32
  {
    hide DecodeFps, FromLittleEndian;
    Widths();
  }

  /** The i-th fingerprint, where a read finds it. */
  lemma ListAt(file: Bytes, i: nat)
    requires Whole(file) && i < CountIn(file)
    ensures |ReadList(file)| == CountIn(file) && ListSize(i) + SHA1_LENGTH <= |file|
    ensures ReadList(file)[i] == DecodeFp(file[ListSize(i)..ListSize(i) + SHA1_LENGTH])
  {
    hide DecodeFp, CountIn;
    var bs := file[4..ListSize(CountIn(file))];
    DecodeAt(bs, i);
    SliceOfSlice(file, 4, ListSize(CountIn(file)), SHA1_LENGTH * i, SHA1_LENGTH * i + SHA1_LENGTH);
  }

  lemma SliceOfSlice(s: Bytes, lo: nat, hi: nat, a: nat, b: nat)
    requires lo <= hi <= |s| && a <= b <= hi - lo
    ensures s[lo..hi][a..b] == s[lo + a..lo + b]
  {
    assert forall k :: 0 <= k < b - a ==> s[lo..hi][a..b][k] == s[lo + a..lo + b][k];
  }

  lemma SameNames(files: map<nat, Bytes>)
    ensures ReadLists(files).Keys == files.Keys && |ReadLists(files)| == |files|
  {
    hide ReadList;
    assert |ReadLists(files)| == |ReadLists(files).Keys| && |files| == |files.Keys|;
  }

  lemma {:induction false} DecodeAt(bs: Bytes, i: nat)
    requires SHA1_LENGTH * i + SHA1_LENGTH <= |bs|
    ensures i < |DecodeFps(bs)| && DecodeFps(bs)[i] == DecodeFp(bs[SHA1_LENGTH * i..SHA1_LENGTH * i + SHA1_LENGTH])
    decreases i
  {
    hide DecodeFp;
    if i > 0 {
      var rest := bs[SHA1_LENGTH..];
      assert DecodeFps(bs) == [DecodeFp(bs[..SHA1_LENGTH])] + DecodeFps(rest);
      DecodeAt(rest, i - 1);
      assert rest == bs[SHA1_LENGTH..|bs|];
      SliceOfSlice(bs, SHA1_LENGTH, |bs|, SHA1_LENGTH * (i - 1), SHA1_LENGTH * i);
    }
  }
}
