/** Content-defined and fixed-size chunking (src/fastcdc.cpp). */
module FastCDC {
  import opened Common

  // The predefined Gear table, sixteen entries a row.
  const GEAR_0: seq<nat> := [
    0xdc377e207d3c5d43, 0x626790b237a4ab52, 0xfad9bf3a472cfe4d, 0xa2a6bc5395bbce52,
    0xce0a8e4ef2f3ee3f, 0xb4b5b36cf31b4d66, 0x468f4da9d12660f7, 0x9005e918384c13d0,
    0x29ba77f861e74697, 0x8237cf1734b2c668, 0xee06f9f1df6ced7b, 0x142936b9399add6a,
    0xcb3c0a27878d6de5, 0x49b827acbe6d77ac, 0x65903aad1d6c1e9f, 0x7a7c66f221cf20ca
  ]
  const GEAR_1: seq<nat> := [
    0x09a0f5565415a795, 0xbe5a882391e5527e, 0x14d2a06077f8339d, 0xcad2bce34bf19652,
    0x5541cc588464c621, 0xc44d981a4aa21e70, 0xb5f4dbb200e75029, 0xa0fc23f2eef70334,
    0xfe36dbfaed334ef3, 0x0dd1b785765b2bb6, 0xcc3461a160502f47, 0x64b1c122c7083b1a,
    0x388e6a418b6fd359, 0x65809585f16ab490, 0x3eb1ec4b9577e4c7, 0xd80e411261617dd8
  ]
  const GEAR_2: seq<nat> := [
    0x7da08fd8df71e169, 0xa20af93edb933a86, 0x59fb1b86e1ff5415, 0x5b596e7a23e7af9a,
    0x50a905ffc0a402c3, 0x3a8cefabefd9dbbe, 0xc9762597ccab4a09, 0xd8de3774872f3efe,
    0xc9f1075d9ebc3c51, 0x3b55ac8bfcf8f51e, 0xe4e88fb0fa555bd1, 0xfa725ab5e019900a,
    0x4be7597f3fcb499d, 0xe108b91410eb4788, 0xb9f7fc4896cbf4c3, 0x8cdaddac2fc852ee
  ]
  const GEAR_3: seq<nat> := [
    0x5c1d3439307f3d03, 0x60e5ae5e93c82d50, 0x340d48d6be8c5b09, 0x9a02c3be5b6c05e8,
    0x56014afc31084d83, 0x85b888f604ea56f2, 0x5cb1a8a10079cb23, 0xc52b57c63ff9a0ca,
    0x0f35659fc64e0143, 0xbdf325035c594f38, 0xd1f8101a35320afd, 0xe899458626d703f8,
    0xbf97f530ac049837, 0x0895021a6620ae70, 0x948596cd24280401, 0x471f6accca7627f4
  ]
  const GEAR_4: seq<nat> := [
    0x4a129ff1164598bd, 0x71405c568bef229e, 0x4fda2755c3737887, 0x909a3cc70ee44b32,
    0xd1a8a3c3dc9fd44d, 0x5ebb36a043ede1ca, 0xf6a89a10d5e68b53, 0xd9bf7a1aaa5016b2,
    0x71030478353d66cb, 0x6806d8ba045b5ae0, 0xa7672b4808466f67, 0xf93e0da0d5011f0a,
    0xa8aeeeec63465029, 0xe958e539a532a76e, 0xfd8bf78ab9628da1, 0xca1eb1fe8a769e6a
  ]
  const GEAR_5: seq<nat> := [
    0x2a96875d6c8f9257, 0x501c523d559d7d12, 0x9b7e72aa3d7f1a65, 0x025554c1d398077a,
    0xcdd8af6cd9c471e1, 0x0039bea30bd9a49e, 0x233b737e0eeee721, 0xd6d57c6896b14ed4,
    0x8dabe80e8c70e265, 0x1b859ed8c291ddbc, 0x6b3385f41e0a598b, 0xcf05250d14390e94,
    0xc58d5e7d9c8b9f73, 0x49a5c7a9ba27febc, 0x4841a129f0804005, 0x0e7ffa313ce3144a
  ]
  const GEAR_6: seq<nat> := [
    0x13d8768f158b32cb, 0x5d4a2c0fe9cd7afe, 0xe5d0ae6ab568df33, 0xd5e94a4243d9b506,
    0xc6dc1d3da6a23d23, 0xf3b4295d0dd364f2, 0x57750173991256b5, 0x119097313522fa6a,
    0xbeecd02c90273c43, 0xef69efdc30e9077e, 0xcf28f3bbba364c83, 0xc8b80c742bfdd966,
    0x83f12924c9400e15, 0xa35b3222d11d583e, 0x9c9a9d426cde5fdd, 0xf298ed021e76023a
  ]
  const GEAR_7: seq<nat> := [
    0xb9e8b29602ced7f3, 0x853af80c4f919742, 0x505b7d96bf01b253, 0xa318b2bff19ed50c,
    0x5308029ce76f358f, 0x09a398f26b33f24a, 0x74595977a450ca7b, 0x4e8468ce85680390,
    0x2436fba706b7bf67, 0xfc0923f5563e8424, 0x5fcbfacf4f88506b, 0xbe722684e90680f2,
    0x1119ab5f71bd737d, 0xc739c71894e34ba8, 0xcd822b0cb4e2e159, 0x67b583610a0410e0
  ]
  const GEAR_8: seq<nat> := [
    0xae18b6eb024bdfdb, 0x865951f3e76f5834, 0x18eebfb065ebcb59, 0xd35f0999dd5e5b00,
    0x241ad24ae452fe07, 0x942b4c3c79dd1dbe, 0x99b14f06198c22a7, 0xe2987fcf99376312,
    0x844daa9a945c9067, 0xfa234ecf470184dc, 0x6d97ccd39c1eb593, 0x8bf12e40249118d0,
    0x923f72bcdb934d2f, 0x69bd5c907fc76c8e, 0xe5827868949fc4f3, 0x4f5d13c3d6e20e0a
  ]
  const GEAR_9: seq<nat> := [
    0x0b3646a9d0111233, 0xf0af68353b17c0c8, 0xc920f56447f90673, 0x8960c8168641fe16,
    0x0fee91d454a19219, 0xb25b446e135cf6b2, 0x761b04f2362314f9, 0xa151afe2fb1ff5be,
    0x2e973d6af5de4037, 0x485c4501258ab54c, 0xf21bd1e05d869951, 0xd79097aaa1050314,
    0x2b5e8c12e04ff4f9, 0x4e43a881e78d9764, 0x16d02eca685abdab, 0x7913757d06ccfaec
  ]
  const GEAR_A: seq<nat> := [
    0x513242305e9af1ef, 0xc847965583801b62, 0x8862452b0de8c5e5, 0xce5ae051740dea5a,
    0x1a028ca4bb2875a3, 0x5680bba4aad7ffa6, 0x324d2adfb43a331b, 0xe456b7b1c0301b68,
    0x7801a00c795d859d, 0x041bdd48db6ae14a, 0x5fa8107e14c841fb, 0xd0e4bdea28bef85c,
    0x77bdb5eb30614b89, 0xdefa9fd302bbd858, 0x08a54bfa54688dad, 0x682ec11a915f0980
  ]
  const GEAR_B: seq<nat> := [
    0xc4af0b1c0ffec719, 0xf76fd41604e89104, 0xeb01bf3d9ced6817, 0xa87180c091474c6e,
    0x351bdb3557277969, 0xee81b4ce09b723aa, 0x03bd353a36b05adb, 0x7bcb44892055af78,
    0xadfb4e960a0ca951, 0x2273bad9b4ac3d74, 0xebb4454444aaa94b, 0xe686846acad641a8,
    0x6a6c096404d1c7a3, 0x3d857f91fc5f6232, 0x5c63557a89fa3a27, 0x3ee7bc50de6d3e04
  ]
  const GEAR_C: seq<nat> := [
    0x2490253782ef8a57, 0x0ad4d59ff8fa5f4c, 0x1c01a62b4c726533, 0x9ef66ba35cb5ab2e,
    0x4c47d62317d71cdf, 0x2a40c557d5a3f2a0, 0xf758338d53442abd, 0x1eaefcd073bcdd10,
    0xb9833e0eb50e8fd7, 0x8c966374151a67b6, 0x3edf7efe33cdfd7b, 0x5a2c4a1a310be558,
    0x69e43fcb628fbeb7, 0x99bd77ef54c90d36, 0xbab1c4f59f066e65, 0x797fd05581e14764
  ]
  const GEAR_D: seq<nat> := [
    0x75de5603975e3ea9, 0x11ef41165111c73c, 0xb7ddf0821a4031f5, 0x3eec9e62cf45d24c,
    0xcda86289d51cd2c7, 0x127483edee743fae, 0x4c62baba754703cf, 0xcd8d463bb2e9583a,
    0xaa38a80cc6c609f3, 0x5f97356ca50a5986, 0x0220a1b6bc88caeb, 0x20420bdd061f48c4,
    0xb0e0c20838c35c57, 0xeddd78004259c3d2, 0xb7b854be9806aa3b, 0xa2256b1fc3bd00fe
  ]
  const GEAR_E: seq<nat> := [
    0x3ea3e4597d23917d, 0xd952cb1a7656852e, 0x89e052b4e095f921, 0x4be913d1c4f79a82,
    0x9d36a507aa427257, 0x069b7818b57dbbf8, 0x21102213d2cae2cd, 0x27ec5888afbdb47e,
    0x4f16a4e8c63e27f9, 0x250a3857af744546, 0x3e97bbeec0fcabdd, 0x4b6c65f8ca7fd632,
    0xa91fce0f23e1be61, 0x5050c5a688052206, 0x9e2e3f1a6b85328f, 0xe09ec18b956f5fea
  ]
  const GEAR_F: seq<nat> := [
    0x4000f41b1b5b25e7, 0x3fbea3faba569084, 0xe471347f40647f65, 0xda7abaa5f3caf2c8,
    0x189201a4940001f9, 0x29e183e37d7da328, 0xd2ae28418f093e67, 0x8e5cb797039be80e,
    0x41604277260a071d, 0x11edac1b01696b0e, 0x6e27fc4394cebee3, 0xeeffd1b2b382a2c0,
    0x02443385d4c4e195, 0x2ee724f1ad94f68e, 0x0a4491e380c5cf7b, 0xeb48a728aaf18d2e
  ]
  const GEAR_V2: seq<nat> := GEAR_0 + GEAR_1 + GEAR_2 + GEAR_3 + GEAR_4 + GEAR_5 + GEAR_6 + GEAR_7
                            + GEAR_8 + GEAR_9 + GEAR_A + GEAR_B + GEAR_C + GEAR_D + GEAR_E + GEAR_F

  const MASK_08KB: nat := 0x0000d93003530000
  // Normalized chunking masks: front mask, then back mask, for levels 1 to 3.
  const MASK_14: nat := 0x0000d9f003520000
  const MASK_12: nat := 0x0000d90003570000
  const MASK_15: nat := 0x0000d9f003530000
  const MASK_11: nat := 0x0000d90003530000
  const MASK_16: nat := 0x0000d9f003570000
  const MASK_10: nat := 0x0000d90003520000

  /** No mask has a bit at or above this one. */
  const BIT_48: nat := 0x1_0000_0000_0000

  function Gear(b: byte): nat
  {
    assert |GEAR_V2| == 256;
    GEAR_V2[b]
  }

  // ---------- 64-bit arithmetic ----------

  /** Bit `j` of `a`. */
  predicate Bit(a: nat, j: nat)
  {
    if j == 0 then a % 2 == 1 else Bit(a / 2, j - 1)
  }

  /** Bitwise conjunction of unsigned words. */
  function BitAnd(a: nat, b: nat): nat
  {
    if a == 0 || b == 0 then 0
    else (if a % 2 == 1 && b % 2 == 1 then 1 else 0) + 2 * BitAnd(a / 2, b / 2)
  }

  /** `BitAnd` is the bitwise conjunction: bit by bit. */
  lemma {:induction false} BitAndBits(a: nat, b: nat, j: nat)
    ensures Bit(BitAnd(a, b), j) <==> Bit(a, j) && Bit(b, j)
  {
    if a == 0 || b == 0 {
      ZeroBits(j);
    } else if j > 0 {
      BitAndBits(a / 2, b / 2, j - 1);
      assert BitAnd(a, b) / 2 == BitAnd(a / 2, b / 2);
    }
  }

  /** Its bits determine a number. */
  lemma {:induction false} BitsDetermine(a: nat, b: nat)
    requires forall j: nat :: Bit(a, j) <==> Bit(b, j)
    ensures a == b
    decreases a + b
  {
    if a + b > 0 {
      assert Bit(a, 0) <==> Bit(b, 0);
      forall j: nat ensures Bit(a / 2, j) <==> Bit(b / 2, j) {
        assert Bit(a, j + 1) <==> Bit(b, j + 1);
      }
      BitsDetermine(a / 2, b / 2);
    }
  }

  lemma {:induction false} ZeroBits(j: nat)
    ensures !Bit(0, j)
  {
    if j > 0 { ZeroBits(j - 1); }
  }

  /** `x` shifted left by `k`: x * 2^k, without wrap-around. */
  function Shl(x: nat, k: nat): nat
  {
    if k == 0 then x else 2 * Shl(x, k - 1)
  }

  lemma {:induction false} ShlAdd(x: nat, y: nat, k: nat)
    ensures Shl(x + y, k) == Shl(x, k) + Shl(y, k)
  {
    if k > 0 { ShlAdd(x, y, k - 1); }
  }

  lemma {:induction false} ShlShl(x: nat, a: nat, b: nat)
    ensures Shl(Shl(x, a), b) == Shl(x, a + b)
  {
    if b > 0 { ShlShl(x, a, b - 1); }
  }

  /** A mask below 2^k looks only at the low k bits. */
  lemma {:induction false} BitAndLowBits(x: nat, y: nat, k: nat, mask: nat)
    requires mask < Shl(1, k)
    ensures BitAnd(x + Shl(y, k), mask) == BitAnd(x, mask)
  {
    var z := x + Shl(y, k);
    if k == 0 || mask == 0 {
    } else {
      assert z % 2 == x % 2 && z / 2 == x / 2 + Shl(y, k - 1);
      BitAndLowBits(x / 2, y, k - 1, mask / 2);
      if z == 0 {
        assert x == 0;
      } else if x == 0 {
        assert BitAnd(z / 2, mask / 2) == 0;
      }
    }
  }

  /** Clearing bits from a mask keeps every hit. */
  lemma {:induction false} SubmaskHit(f: nat, small: nat, big: nat)
    requires BitAnd(small, big) == small
    requires BitAnd(f, big) == 0
    ensures BitAnd(f, small) == 0
  {
    if f == 0 || small == 0 {
    } else {
      assert BitAnd(small / 2, big / 2) == small / 2;
      SubmaskHit(f / 2, small / 2, big / 2);
    }
  }

  // ---------- Rolling fingerprint ----------

  /** One step of the rolling hash on unsigned 64-bit words. */
  function Roll(fp: nat, b: byte): nat
  {
    (2 * fp + Gear(b)) % U64
  }

  /** Direct sum of GEAR[p[hi-1-k]] * 2^k over the bytes lo..hi-1, without wrap-around. */
  function GearSum(p: Bytes, lo: nat, hi: nat): nat
    requires lo <= hi <= |p|
    decreases hi - lo
  {
    if lo == hi then 0 else Shl(Gear(p[lo]), hi - 1 - lo) + GearSum(p, lo + 1, hi)
  }

  /** The fingerprint after rolling over the bytes lo..hi-1, starting from zero. */
  function RollOver(p: Bytes, lo: nat, hi: nat): nat
    requires lo <= hi <= |p|
    decreases hi - lo
  {
    if lo == hi then 0 else Roll(RollOver(p, lo, hi - 1), p[hi - 1])
  }

  lemma {:induction false} GearSumStep(p: Bytes, lo: nat, hi: nat)
    requires lo <= hi < |p|
    ensures GearSum(p, lo, hi + 1) == 2 * GearSum(p, lo, hi) + Gear(p[hi])
    decreases hi - lo
  {
    hide Gear;
    if lo == hi {
      assert GearSum(p, lo + 1, hi + 1) == 0;
    } else {
      GearSumStep(p, lo + 1, hi);
    }
  }

  /** The rolling fingerprint is the direct Gear sum modulo 2^64. */
  lemma {:induction false} RollingIsGearSum(p: Bytes, lo: nat, hi: nat)
    requires lo <= hi <= |p|
    ensures RollOver(p, lo, hi) == GearSum(p, lo, hi) % U64
    decreases hi - lo
  {
    hide Gear;
    if lo < hi {
      RollingIsGearSum(p, lo, hi - 1);
      GearSumStep(p, lo, hi - 1);
      RollMod(GearSum(p, lo, hi - 1), Gear(p[hi - 1]));
    }
  }

  lemma RollMod(s: nat, g: nat)
    ensures (2 * (s % U64) + g) % U64 == (2 * s + g) % U64
  {
    var q := s / U64;
    assert 2 * s + g == 2 * (s % U64) + g + 2 * q * U64;
  }

  lemma {:induction false} GearSumSplit(p: Bytes, lo: nat, mid: nat, hi: nat)
    requires lo <= mid <= hi <= |p|
    ensures GearSum(p, lo, hi) == GearSum(p, mid, hi) + Shl(GearSum(p, lo, mid), hi - mid)
    decreases mid - lo
  {
    hide Gear;
    if lo == mid {
      ShlZero(hi - mid);
    } else {
      GearSumSplit(p, lo + 1, mid, hi);
      ShlShl(Gear(p[lo]), mid - 1 - lo, hi - mid);
      ShlAdd(Shl(Gear(p[lo]), mid - 1 - lo), GearSum(p, lo + 1, mid), hi - mid);
    }
  }

  lemma {:induction false} ShlZero(k: nat)
    ensures Shl(0, k) == 0
  {
    if k > 0 { ShlZero(k - 1); }
  }

  const WINDOW: nat := 48

  lemma Shl8(x: nat)
    ensures Shl(x, 8) == x * 0x100
  {
    assert Shl(x, 1) == 2 * x;
    assert Shl(x, 2) == 4 * x;
    assert Shl(x, 4) == 16 * x;
    assert Shl(x, 6) == 64 * x;
  }

  lemma Shl48(x: nat)
    ensures Shl(x, WINDOW) == x * BIT_48
  {
    Shl8(x);
    ShlShl(x, 8, 8);  Shl8(x * 0x100);
    ShlShl(x, 16, 8); Shl8(x * 0x1_0000);
    ShlShl(x, 24, 8); Shl8(x * 0x100_0000);
    ShlShl(x, 32, 8); Shl8(x * 0x1_0000_0000);
    ShlShl(x, 40, 8); Shl8(x * 0x100_0000_0000);
  }

  lemma WrapInvisible(s: nat, mask: nat)
    requires mask < BIT_48
    ensures BitAnd(s % U64, mask) == BitAnd(s, mask)
  {
    Shl48(1);
    Shl48(s / U64 * 0x1_0000);
    BitAndLowBits(s % U64, s / U64 * 0x1_0000, WINDOW, mask);
  }

  /** First of the at most 48 bytes that decide a test at hi - 1. */
  function WindowStart(lo: nat, hi: nat): (r: nat)
    requires lo <= hi
    ensures lo <= r <= hi
  {
    if hi - lo <= WINDOW then lo else hi - WINDOW
  }

  /** For a mask with no bit above 47, the test on the rolling fingerprint of all bytes since
      lo gives the same answer as on the last 48 of them. */
  lemma WindowDecides(p: Bytes, lo: nat, hi: nat, mask: nat)
    requires lo <= hi <= |p| && mask < BIT_48
    ensures BitAnd(RollOver(p, lo, hi), mask) == BitAnd(GearSum(p, WindowStart(lo, hi), hi), mask)
  {
    hide Gear;
    Shl48(1);
    RollingIsGearSum(p, lo, hi);
    WrapInvisible(GearSum(p, lo, hi), mask);
    if hi - lo > WINDOW {
      GearSumSplit(p, lo, hi - WINDOW, hi);
      BitAndLowBits(GearSum(p, hi - WINDOW, hi), GearSum(p, lo, hi - WINDOW), WINDOW, mask);
    }
  }

  // ---------- Choosing a cut point ----------

  /** From here on four times the size and one more block, which the chunk thread allocates, do not
      fit an int. */
  const AVERAGE_LIMIT: nat := (0x8000_0000 - DEFAULT_BLOCK_SIZE) / 4

  /** The configured chunker: fixed-size, FastCDC without normalization, or FastCDC with a front
      and a back mask. `fas` is the configured average size. */
  datatype Chunker =
    | Fixed(size: nat)
    | Plain(fas: nat)
    | Normalized(fas: nat, front: nat, back: nat)
  {
    /** The minimum is not 0, and the buffers for such chunks can be allocated. */
    predicate Valid() { if Fixed? then 0 < size < AVERAGE_LIMIT else 4 <= fas < AVERAGE_LIMIT }

    function MinSize(): nat { if Fixed? then size else fas / 4 }

    function MaxSize(): nat { if Fixed? then size else fas * 4 }

    /** The global average size: it starts at `fas` and never falls to the minimum. */
    predicate AvgOk(avg: nat) { Normalized? ==> MinSize() < avg <= fas }

    function InitialAvg(): nat { if Fixed? then size else fas }
  }

  /** First position in i..n-1 whose fingerprint is zero under the mask in force there
      (front before `split`, back from `split` on), or n. */
  function FirstHit(p: Bytes, i: nat, split: nat, n: nat, front: nat, back: nat, fp: nat): (r: nat)
    requires i <= n <= |p|
    ensures i <= r <= n
    decreases n - i
  {
    if i == n then n
    else
      var fp' := Roll(fp, p[i]);
      if BitAnd(fp', if i < split then front else back) == 0 then i
      else FirstHit(p, i + 1, split, n, front, back, fp')
  }

  /** Length of the first chunk of `p`, given the current average size. */
  function Cut(ch: Chunker, avg: nat, p: Bytes): (r: nat)
    ensures r <= |p|
    ensures ch.Valid() && p != [] ==> 0 < r
    ensures r <= ch.MaxSize()
    ensures if |p| <= ch.MinSize() then r == |p| else ch.MinSize() <= r && (ch.Fixed? ==> r == ch.size)
  {
    if |p| <= ch.MinSize() then |p|
    else
      match ch
      case Fixed(size) => size
      case Plain(_) =>
        FirstHit(p, ch.MinSize(), 0, Min(|p|, ch.MaxSize()), MASK_08KB, MASK_08KB, 0)
      case Normalized(_, front, back) =>
        FirstHit(p, ch.MinSize(), NextAvg(ch, avg, p), Min(|p|, ch.MaxSize()), front, back, 0)
  }

  /** The global average size after that call: normalized chunking lowers it to the length of a
      short remainder. */
  function NextAvg(ch: Chunker, avg: nat, p: Bytes): (r: nat)
    ensures r <= avg
    ensures ch.AvgOk(avg) ==> ch.AvgOk(r)
  {
    if ch.Normalized? && ch.MinSize() < |p| <= ch.MaxSize() && |p| <= avg then |p| else avg
  }

  /** fastCDC_init's choice of masks; level 0 leaves FastCDC_without_NC in charge. */
  function InitNC(fas: nat, level: nat): Option<Chunker>
  {
    match level
    case 0 => Some(Plain(fas))
    case 1 => Some(Normalized(fas, MASK_14, MASK_12))
    case 2 => Some(Normalized(fas, MASK_15, MASK_11))
    case 3 => Some(Normalized(fas, MASK_16, MASK_10))
    case _ => None
  }

  function Front(ch: Chunker): nat
    requires !ch.Fixed?
  {
    if ch.Plain? then MASK_08KB else ch.front
  }

  function Back(ch: Chunker): nat
    requires !ch.Fixed?
  {
    if ch.Plain? then MASK_08KB else ch.back
  }

  predicate MasksLow(ch: Chunker)
  {
    !ch.Fixed? && Front(ch) < BIT_48 && Back(ch) < BIT_48
  }

  /** Every configured mask fits below bit 48. */
  lemma MasksFit(fas: nat, level: nat)
    requires InitNC(fas, level).Some?
    ensures MasksLow(InitNC(fas, level).value)
  {}

  /** How many bits of a mask are set. */
  function Ones(mask: nat): nat
  {
    if mask == 0 then 0 else mask % 2 + Ones(mask / 2)
  }

  /** What the levels are for: plain FastCDC tests 13 bits, and with a level in front of the average
      size that many more bits, behind it that many fewer, so that cuts gather around the average. */
  lemma LevelBits(fas: nat, level: nat)
    requires level <= 3
    ensures var ch := InitNC(fas, level).value;
            && (ch.Plain? <==> level == 0)
            && Ones(Front(ch)) == 13 + level && Ones(Back(ch)) == 13 - level
  {
    hide Ones;
    MaskBits();
  }

  lemma OnesBit(m: nat, b: nat)
    requires b < 2
    ensures Ones(2 * m + b) == Ones(m) + b
  {
    assert (2 * m + b) / 2 == m && (2 * m + b) % 2 == b;
  }

  lemma OnesDigit(m: nat, d: nat)
    requires d < 16
    ensures Ones(16 * m + d) == Ones(m) + Ones(d)
  {
    hide Ones;
    NoOnes();
    FourBits(m, d);
    FourBits(0, d);
  }

  lemma FourBits(m: nat, d: nat)
    requires d < 16
    ensures Ones(16 * m + d) == Ones(m) + d / 8 + d / 4 % 2 + d / 2 % 2 + d % 2
  {
    hide Ones;
    OnesBit(m, d / 8);
    OnesBit(2 * m + d / 8, d / 4 % 2);
    OnesBit(4 * m + d / 4, d / 2 % 2);
    OnesBit(8 * m + d / 2, d % 2);
  }

  lemma OnesHigh(m: nat)
    ensures Ones(m * 0x1_0000) == Ones(m)
  {
    hide Ones;
    NoOnes();
    OnesDigit(m, 0);
    OnesDigit(16 * m, 0);
    OnesDigit(256 * m, 0);
    OnesDigit(4096 * m, 0);
  }

  lemma NoOnes()
    ensures Ones(0) == 0
  {}

  lemma DigitOnes()
    ensures Ones(0) == 0 && Ones(2) == 1 && Ones(3) == 2 && Ones(5) == 2 && Ones(7) == 3
    ensures Ones(9) == 2 && Ones(0xd) == 3 && Ones(0xf) == 4
  {}

  lemma MaskBits()
    ensures Ones(MASK_08KB) == 13
    ensures Ones(MASK_14) == 14 && Ones(MASK_12) == 12
    ensures Ones(MASK_15) == 15 && Ones(MASK_11) == 11
    ensures Ones(MASK_16) == 16 && Ones(MASK_10) == 10
  {
    hide Ones;
    DigitOnes();
    OnesDigit(0xd, 0x9);
    OnesDigit(0xd9, 0x3);
    OnesDigit(0xd93, 0x0);
    OnesDigit(0xd930, 0x0);
    OnesDigit(0xd9300, 0x3);
    OnesDigit(0xd93003, 0x5);
    OnesDigit(0xd930035, 0x3);
    OnesDigit(0xd9, 0xf);
    OnesDigit(0xd9f, 0x0);
    OnesDigit(0xd9f0, 0x0);
    OnesDigit(0xd9f00, 0x3);
    OnesDigit(0xd9f003, 0x5);
    OnesDigit(0xd9f0035, 0x2);
    OnesDigit(0xd9, 0x0);
    OnesDigit(0xd90, 0x0);
    OnesDigit(0xd900, 0x0);
    OnesDigit(0xd9000, 0x3);
    OnesDigit(0xd90003, 0x5);
    OnesDigit(0xd900035, 0x7);
    OnesDigit(0xd9f0035, 0x3);
    OnesDigit(0xd900035, 0x3);
    OnesDigit(0xd9f0035, 0x7);
    OnesDigit(0xd900035, 0x2);
    OnesHigh(0xd9300353);
    OnesHigh(0xd9f00352);
    OnesHigh(0xd9000357);
    OnesHigh(0xd9f00353);
    OnesHigh(0xd9000353);
    OnesHigh(0xd9f00357);
    OnesHigh(0xd9000352);
  }

  /** There is no other level. */
  lemma LevelsEnd(fas: nat, level: nat)
    ensures InitNC(fas, level).None? <==> level > 3
  {}

  /** Whether the bytes up to and including position j make a cut at j: a test on at most
      the last 48 scanned bytes, under the mask in force at j. */
  ghost predicate CutsAt(ch: Chunker, split: nat, p: Bytes, j: nat)
    requires !ch.Fixed? && ch.MinSize() <= j < |p|
  {
    BitAnd(GearSum(p, WindowStart(ch.MinSize(), j + 1), j + 1), if j < split then Front(ch) else Back(ch)) == 0
  }

  lemma {:induction false} FirstHitIsFirst(ch: Chunker, p: Bytes, i: nat, split: nat, n: nat)
    requires MasksLow(ch)
    requires ch.MinSize() <= i <= n <= |p|
    ensures var r := FirstHit(p, i, split, n, Front(ch), Back(ch), RollOver(p, ch.MinSize(), i));
            && (r < n ==> CutsAt(ch, split, p, r))
            && forall j :: i <= j < r ==> !CutsAt(ch, split, p, j)
    decreases n - i
  {
    hide Roll, Gear, BitAnd, GearSum;
    if i < n {
      WindowDecides(p, ch.MinSize(), i + 1, if i < split then Front(ch) else Back(ch));
      FirstHitIsFirst(ch, p, i + 1, split, n);
    }
  }

  /** A content-defined cut is the first position at or after the minimum size that passes the
      48-byte test, or the clamped length when none does. */
  lemma CutIsFirstWindowHit(ch: Chunker, avg: nat, p: Bytes)
    requires MasksLow(ch)
    requires ch.Valid() && ch.MinSize() < |p|
    ensures var n, r, split := Min(|p|, ch.MaxSize()), Cut(ch, avg, p), if ch.Plain? then 0 else NextAvg(ch, avg, p);
            && ch.MinSize() <= r <= n
            && (r < n <==> exists j :: ch.MinSize() <= j < n && CutsAt(ch, split, p, j))
            && (r < n ==> CutsAt(ch, split, p, r))
            && forall j :: ch.MinSize() <= j < r ==> !CutsAt(ch, split, p, j)
  {
    var n := Min(|p|, ch.MaxSize());
    FirstHitIsFirst(ch, p, ch.MinSize(), if ch.Plain? then 0 else NextAvg(ch, avg, p), n);
  }

  // ---------- Effect of the falling average ----------

  /** The back mask asks for a subset of the front mask's bits. */
  predicate Nested(ch: Chunker)
  {
    ch.Normalized? && BitAnd(ch.back, ch.front) == ch.back
  }

  lemma {:induction false} FirstHitMonotone(p: Bytes, i: nat, s: nat, t: nat, n: nat, front: nat, back: nat, fp: nat)
    requires i <= n <= |p| && s <= t
    requires BitAnd(back, front) == back
    ensures FirstHit(p, i, s, n, front, back, fp) <= FirstHit(p, i, t, n, front, back, fp)
    decreases n - i
  {
    hide Roll;
    if i < n {
      var fp' := Roll(fp, p[i]);
      if BitAnd(fp', front) == 0 { SubmaskHit(fp', back, front); }
      FirstHitMonotone(p, i + 1, s, t, n, front, back, fp');
    }
  }

  /** With nested masks a lower average never moves a cut later. */
  lemma LowerAverageCutsNoLater(ch: Chunker, low: nat, high: nat, p: Bytes)
    requires Nested(ch) && low <= high
    ensures Cut(ch, low, p) <= Cut(ch, high, p)
  {
    if |p| > ch.MinSize() {
      FirstHitMonotone(p, ch.MinSize(), NextAvg(ch, low, p), NextAvg(ch, high, p),
                       Min(|p|, ch.MaxSize()), ch.front, ch.back, 0);
    }
  }

  lemma AndStep(a: nat, b: nat, x: nat, y: nat)
    requires x < 2 && y < 2
    ensures BitAnd(2 * a + x, 2 * b + y) == (if x == 1 && y == 1 then 1 else 0) + 2 * BitAnd(a, b)
  {}

  lemma AndPair(a: nat, b: nat, x: nat, y: nat)
    requires x < 4 && y < 4
    ensures BitAnd(4 * a + x, 4 * b + y) == 4 * BitAnd(a, b) + BitAnd(x, y)
  {
    hide BitAnd;
    AndDigits();
    AndStep(a, b, x / 2, y / 2);
    AndStep(2 * a + x / 2, 2 * b + y / 2, x % 2, y % 2);
    AndStep(0, 0, x / 2, y / 2);
    AndStep(x / 2, y / 2, x % 2, y % 2);
  }

  /** Conjunction of numbers in hexadecimal, last digit first. */
  lemma AndDigit(a: nat, b: nat, x: nat, y: nat)
    requires x < 16 && y < 16
    ensures BitAnd(16 * a + x, 16 * b + y) == 16 * BitAnd(a, b) + BitAnd(x, y)
  {
    hide BitAnd;
    AndDigits();
    AndPair(a, b, x / 4, y / 4);
    AndPair(4 * a + x / 4, 4 * b + y / 4, x % 4, y % 4);
    AndPair(0, 0, x / 4, y / 4);
    AndPair(x / 4, y / 4, x % 4, y % 4);
  }

  lemma AndDigits()
    ensures forall x: nat :: BitAnd(x, 0) == 0 == BitAnd(0, x)
    ensures BitAnd(0xd, 0xd) == 0xd && BitAnd(9, 9) == 9 && BitAnd(3, 3) == 3 && BitAnd(5, 5) == 5
    ensures BitAnd(2, 7) == 2 && BitAnd(7, 2) == 2
    ensures BitAnd(0xc, 5) == 4 && BitAnd(4, 3) == 0 && BitAnd(9, 2) == 0 && BitAnd(9, 7) == 1
  {}

  lemma AndAbove8(a: nat, b: nat, low: nat)
    requires low < 0x100
    ensures BitAnd(0x100 * a + low, 0x100 * b) == 0x100 * BitAnd(a, b)
  {
    hide BitAnd;
    AndDigits();
    AndDigit(a, b, low / 16, 0);
    AndDigit(16 * a + low / 16, 16 * b, low % 16, 0);
  }

  /** The low 16 bits of a word do not matter to a mask that has none of them. */
  lemma AndAbove16(a: nat, b: nat, low: nat)
    requires low < 0x1_0000
    ensures BitAnd(0x1_0000 * a + low, 0x1_0000 * b) == 0x1_0000 * BitAnd(a, b)
  {
    hide BitAnd;
    AndAbove8(a, b, low / 0x100);
    AndAbove8(0x100 * a + low / 0x100, 0x100 * b, low % 0x100);
  }

  lemma MaskPairs()
    ensures BitAnd(MASK_11, MASK_15) == MASK_11
    ensures BitAnd(MASK_10, MASK_16) == MASK_10
    ensures BitAnd(MASK_12, MASK_14) != MASK_12
  {
    hide BitAnd;
    AndDigits();
    AndDigit(0, 0, 0xd, 0xd);
    AndDigit(0xd, 0xd, 9, 9);
    AndDigit(0xd9, 0xd9, 0, 0xf);
    AndDigit(0xd90, 0xd9f, 0, 0);
    AndDigit(0xd900, 0xd9f0, 0, 0);
    AndDigit(0xd9000, 0xd9f00, 3, 3);
    AndDigit(0xd90003, 0xd9f003, 5, 5);
    AndDigit(0xd900035, 0xd9f0035, 3, 3);
    AndDigit(0xd900035, 0xd9f0035, 2, 7);
    AndDigit(0xd900035, 0xd9f0035, 7, 2);
    AndAbove16(0xd9000353, 0xd9f00353, 0);
    AndAbove16(0xd9000352, 0xd9f00357, 0);
    AndAbove16(0xd9000357, 0xd9f00352, 0);
  }

  /** Levels 2 and 3 have nested masks, level 1 does not. */
  lemma NestedLevels(fas: nat, level: nat)
    requires 1 <= level <= 3
    ensures Nested(InitNC(fas, level).value) <==> level != 1
  {
    MaskPairs();
  }

  lemma GearEntries()
    ensures Gear(84) == 0xcdd8af6cd9c471e1
    ensures Gear(94) == 0x4841a129f0804005
  {}

  /** The middle 32 bits of a word are all that such a mask sees. */
  lemma AndMiddle(high: nat, mid: nat, low: nat, mask: nat)
    requires low < 0x1_0000 && mask < 0x1_0000_0000
    ensures BitAnd(high * BIT_48 + mid * 0x1_0000 + low, mask * 0x1_0000) == 0x1_0000 * BitAnd(mid, mask)
  {
    hide BitAnd, Shl;
    Shl48(1);
    Shl48(high);
    BitAndLowBits(mid * 0x1_0000 + low, high, WINDOW, mask * 0x1_0000);
    AndAbove16(mid, mask, low);
  }

  lemma WitnessTests()
    ensures BitAnd(0xcdd8af6cd9c471e1, MASK_14) != 0
    ensures BitAnd(0xe3f30003a40923c7, MASK_14) == 0
    ensures BitAnd(0xe3f30003a40923c7, MASK_12) != 0
  {
    hide BitAnd;
    AndDigits();
    AndMiddle(0xcdd8, 0xaf6cd9c4, 0x71e1, 0xd9f00352);
    AndDigit(0xaf6cd9, 0xd9f003, 0xc, 5);
    AndDigit(0xaf6cd9c, 0xd9f0035, 4, 2);
    AndMiddle(0xe3f3, 0x0003a409, 0x23c7, 0xd9f00352);
    AndMiddle(0xe3f3, 0x0003a409, 0x23c7, 0xd9000357);
    AndDigit(0, 0xd9f, 3, 0);
    AndDigit(3, 0xd9f0, 0xa, 0);
    AndDigit(0x3a, 0xd9f00, 4, 3);
    AndDigit(0x3a4, 0xd9f003, 0, 5);
    AndDigit(0x3a40, 0xd9f0035, 9, 2);
    AndDigit(0x3a40, 0xd900035, 9, 7);
  }

  /** A buffer that is skipped up to the bytes 84, 94, which together pass the front mask of
      level 1 but not its back mask. */
  function Witness(min: nat): (p: Bytes)
    ensures |p| == min + 3 && p[min] == 84 && p[min + 1] == 94
  {
    seq(min, _ => 0) + [84, 94, 0]
  }

  /** At level 1 lowering the average moves the cut of this buffer later, whatever the configured
      average size. */
  lemma LevelOneCutsLater(fas: nat)
    requires fas >= 4
    ensures var ch, min := InitNC(fas, 1).value, fas / 4;
            && ch.AvgOk(min + 1) && ch.AvgOk(min + 3)
            && Cut(ch, min + 3, Witness(min)) == min + 1 && Cut(ch, min + 1, Witness(min)) > min + 1
  {
    var ch, min := InitNC(fas, 1).value, fas / 4;
    GearEntries();
    WitnessTests();
    WitnessCuts(ch, min, Witness(min));
  }

  lemma WitnessCuts(ch: Chunker, min: nat, p: Bytes)
    requires ch.Normalized? && ch.front == MASK_14 && ch.back == MASK_12 && ch.fas >= 4 && min == ch.fas / 4
    requires |p| == min + 3
    requires Gear(p[min]) == 0xcdd8af6cd9c471e1 && Gear(p[min + 1]) == 0x4841a129f0804005
    requires BitAnd(0xcdd8af6cd9c471e1, MASK_14) != 0
    requires BitAnd(0xe3f30003a40923c7, MASK_14) == 0
    requires BitAnd(0xe3f30003a40923c7, MASK_12) != 0
    ensures Cut(ch, min + 3, p) == min + 1 && Cut(ch, min + 1, p) > min + 1
  {
    hide Gear, BitAnd;
    var n := min + 3;
    assert Roll(0, p[min]) == 0xcdd8af6cd9c471e1;
    assert Roll(0xcdd8af6cd9c471e1, p[min + 1]) == 0xe3f30003a40923c7;
    assert FirstHit(p, min + 1, n, n, MASK_14, MASK_12, 0xcdd8af6cd9c471e1) == min + 1;
    assert FirstHit(p, min + 1, min + 1, n, MASK_14, MASK_12, 0xcdd8af6cd9c471e1) > min + 1;
    assert NextAvg(ch, n, p) == n && NextAvg(ch, min + 1, p) == min + 1;
  }

  /** Lowering the average never moves a cut later, on any buffer, exactly at the levels 2 and 3. */
  lemma MonotoneLevels(fas: nat, level: nat)
    requires fas >= 4 && 1 <= level <= 3
    ensures var ch := InitNC(fas, level).value;
            (forall low, high, p :: ch.AvgOk(low) && ch.AvgOk(high) && low <= high ==>
              Cut(ch, low, p) <= Cut(ch, high, p))
            <==> level != 1
  {
    hide Cut, Nested;
    var ch := InitNC(fas, level).value;
    NestedLevels(fas, level);
    if level == 1 {
      LevelOneCutsLater(fas);
    } else {
      forall low: nat, high: nat, p: Bytes | low <= high ensures Cut(ch, low, p) <= Cut(ch, high, p) {
        LowerAverageCutsNoLater(ch, low, high, p);
      }
    }
  }

  // ---------- The program's globals and loops ----------

  /** The global sizes, masks and `chunking` choice; `avg` is the one that calls change. */
  class Globals {
    const ch: Chunker
    var avg: nat

    ghost predicate Valid()
      reads this
    {
      ch.Valid() && ch.AvgOk(avg)
    }

    constructor (ch: Chunker)
      requires ch.Valid()
      ensures Valid() && this.ch == ch && avg == ch.InitialAvg()
    {
      this.ch := ch;
      avg := ch.InitialAvg();
    }

    method FSC(p: Bytes) returns (r: nat)
      requires ch.Fixed?
      ensures r == Cut(ch, avg, p)
    {
      if |p| >= ch.size {
        return ch.size;
      }
      return |p|;
    }

    method FastCDCWithNC(p: Bytes) returns (r: nat)
      requires Valid() && ch.Normalized?
      modifies this`avg
      ensures Valid()
      ensures r == Cut(ch, old(avg), p) && avg == NextAvg(ch, old(avg), p)
    {
      hide Roll, BitAnd;
      var n, fingerprint, i := |p|, 0, ch.MinSize();
      if n <= ch.MinSize() {
        return n;
      }
      if n > ch.MaxSize() {
        n := ch.MaxSize();
      } else if n <= avg {
        avg := n;
      }
      while i < avg
        invariant ch.MinSize() <= i <= avg <= n <= |p|
        invariant FirstHit(p, i, avg, n, ch.front, ch.back, fingerprint)
               == FirstHit(p, ch.MinSize(), avg, n, ch.front, ch.back, 0)
      {
        fingerprint := Roll(fingerprint, p[i]);
        if BitAnd(fingerprint, ch.front) == 0 {
          return i;
        }
        i := i + 1;
      }
      while i < n
        invariant avg <= i <= n <= |p|
        invariant FirstHit(p, i, avg, n, ch.front, ch.back, fingerprint)
               == FirstHit(p, ch.MinSize(), avg, n, ch.front, ch.back, 0)
      {
        fingerprint := Roll(fingerprint, p[i]);
        if BitAnd(fingerprint, ch.back) == 0 {
          return i;
        }
        i := i + 1;
      }
      return n;
    }

    method FastCDCWithoutNC(p: Bytes) returns (r: nat)
      requires Valid() && ch.Plain?
      ensures r == Cut(ch, avg, p)
    {
      hide Roll, BitAnd;
      var n, fingerprint, i := |p|, 0, ch.MinSize();
      if n <= ch.MinSize() {
        return n;
      }
      if n > ch.MaxSize() {
        n := ch.MaxSize();
      }
      while i < n
        invariant ch.MinSize() <= i <= n <= |p|
        invariant FirstHit(p, i, 0, n, MASK_08KB, MASK_08KB, fingerprint)
               == FirstHit(p, ch.MinSize(), 0, n, MASK_08KB, MASK_08KB, 0)
      {
        fingerprint := Roll(fingerprint, p[i]);
        if BitAnd(fingerprint, MASK_08KB) == 0 {
          return i;
        }
        i := i + 1;
      }
      return n;
    }

    /** The call through the `chunking` function pointer. */
    method Chunking(p: Bytes) returns (r: nat)
      requires Valid()
      modifies this`avg
      ensures Valid()
      ensures r == Cut(ch, old(avg), p) && avg == NextAvg(ch, old(avg), p)
    {
      match ch
      case Fixed(_) => r := FSC(p);
      case Plain(_) => r := FastCDCWithoutNC(p);
      case Normalized(_, _, _) => r := FastCDCWithNC(p);
    }
  }
}
