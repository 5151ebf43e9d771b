/** How the endpoint driver cuts its reserved memory into a header, two command areas, the command
    buffers and the data buffers, and when its size check really guarantees that they fit. */
module BufferLayout {
  import opened Arithmetic
  import opened BufferPool
  import opened Wrappers

  const TWO32: nat := 0x1_0000_0000
  const CMD_AREA: nat := 0x20_0000   // the data buffers start behind the 2 MB command area
  const HEADER: nat := 28            // seven 32-bit words of management information

  /** Module parameters and the size of the reserved memory. */
  datatype Config = Config(memSize: nat, dataNum: nat, dataSize: nat, cmdNum: nat, cmdSize: nat)

  /** What the driver is loaded with: a 32-bit memory size, at most 64 buffers, positive sizes. */
  predicate Loaded(c: Config) {
    && c.memSize < TWO32
    && c.dataNum <= BUF_NUM_MAX && c.cmdNum <= BUF_NUM_MAX
    && 0 < c.dataSize < 0x8000_0000 && 0 < c.cmdSize < 0x8000_0000
  }

  /** The driver's size check, in unsigned 32-bit arithmetic. */
  predicate Accepted(c: Config) {
    var dataTotal := c.dataNum * c.dataSize % TWO32;
    var cmdTotal := c.cmdNum * c.cmdSize % TWO32;
    var headInfo := (HEADER + c.cmdSize * 2) % TWO32;
    && (dataTotal + CMD_AREA) % TWO32 <= c.memSize
    && (cmdTotal + headInfo) % TWO32 <= CMD_AREA
  }

  /** No sum in the check exceeds 32 bits. */
  predicate NoWrap(c: Config) {
    && c.dataNum * c.dataSize + CMD_AREA < TWO32
    && c.cmdNum * c.cmdSize + (HEADER + c.cmdSize * 2) < TWO32
  }

  datatype Area = Header | RecvCmd | SendCmd | CmdBuf(i: nat) | DataBuf(i: nat)

  predicate Exists(c: Config, a: Area) {
    match a
    case CmdBuf(i) => i < c.cmdNum
    case DataBuf(i) => i < c.dataNum
    case _ => true
  }

  function Start(c: Config, a: Area): nat {
    match a
    case Header => 0
    case RecvCmd => HEADER
    case SendCmd => HEADER + c.cmdSize
    case CmdBuf(i) => HEADER + c.cmdSize * 2 + i * c.cmdSize
    case DataBuf(i) => CMD_AREA + i * c.dataSize
  }

  function Length(c: Config, a: Area): nat {
    match a
    case Header => HEADER
    case DataBuf(_) => c.dataSize
    case _ => c.cmdSize
  }

  predicate Separate(c: Config, a: Area, b: Area) {
    Start(c, a) + Length(c, a) <= Start(c, b) || Start(c, b) + Length(c, b) <= Start(c, a)
  }

  ghost predicate Inside(c: Config, a: Area) {
    Start(c, a) + Length(c, a) <= c.memSize
  }

  /** All areas lie inside the reserved memory and no two overlap. */
  ghost predicate SoundLayout(c: Config) {
    && (forall a :: Exists(c, a) ==> Inside(c, a))
    && (forall a, b :: Exists(c, a) && Exists(c, b) && a != b ==> Separate(c, a, b))
  }

  /** Without wrapping, the check says what it looks like. */
  lemma AcceptedMeans(c: Config)
    requires Accepted(c) && NoWrap(c)
    ensures c.dataNum * c.dataSize + CMD_AREA <= c.memSize
    ensures c.cmdNum * c.cmdSize + (HEADER + c.cmdSize * 2) <= CMD_AREA
  {
    var data, cmd := c.dataNum * c.dataSize, c.cmdNum * c.cmdSize;
    SumUnwrapped(data, CMD_AREA);
    SumUnwrapped(cmd, HEADER + c.cmdSize * 2);
  }

  lemma SumUnwrapped(x: nat, y: nat)
    requires x + y < TWO32
    ensures (x % TWO32 + y) % TWO32 == x + y
    ensures (x % TWO32 + y % TWO32) % TWO32 == x + y
  {
  }

  lemma EveryAreaInside(c: Config, a: Area)
    requires c.dataNum * c.dataSize + CMD_AREA <= c.memSize
    requires c.cmdNum * c.cmdSize + (HEADER + c.cmdSize * 2) <= CMD_AREA
    requires Exists(c, a)
    ensures Inside(c, a)
    ensures if a.DataBuf? then CMD_AREA <= Start(c, a) else Start(c, a) + Length(c, a) <= CMD_AREA
  {
    CommandsFit(c);
    match a
    case CmdBuf(i) => SlotInside(i, c.cmdNum, c.cmdSize, HEADER + c.cmdSize * 2, CMD_AREA);
    case DataBuf(i) => SlotInside(i, c.dataNum, c.dataSize, CMD_AREA, c.memSize);
    case _ =>
  }

  lemma CommandsFit(c: Config)
    requires c.dataNum * c.dataSize + CMD_AREA <= c.memSize
    requires c.cmdNum * c.cmdSize + (HEADER + c.cmdSize * 2) <= CMD_AREA
    ensures HEADER + c.cmdSize * 2 <= CMD_AREA <= c.memSize
  {
  }

  lemma SlotInside(i: nat, n: nat, size: nat, offset: nat, bound: nat)
    requires i < n && n * size + offset <= bound
    ensures offset + i * size + size <= bound
  {
    MulAtLeast(n, i + 1, size);
  }

  /** Two areas on the same side of the command-area boundary. */
  lemma SameSideSeparate(c: Config, a: Area, b: Area)
    requires a != b && a.DataBuf? == b.DataBuf?
    ensures Separate(c, a, b)
  {
    if a.CmdBuf? && b.CmdBuf? {
      SlotsSeparate(HEADER + c.cmdSize * 2, a.i, b.i, c.cmdSize);
    } else if a.DataBuf? && b.DataBuf? {
      SlotsSeparate(CMD_AREA, a.i, b.i, c.dataSize);
    } else if a.CmdBuf? {
      SlotBehind(HEADER + c.cmdSize * 2, a.i, c.cmdSize);
    } else if b.CmdBuf? {
      SlotBehind(HEADER + c.cmdSize * 2, b.i, c.cmdSize);
    }
  }

  lemma SlotBehind(offset: nat, i: nat, size: nat)
    ensures offset <= offset + i * size
  {
  }

  lemma SlotsSeparate(offset: nat, i: nat, j: nat, size: nat)
    requires i != j
    ensures (offset + i * size) + size <= offset + j * size || (offset + j * size) + size <= offset + i * size
  {
    if i < j {
      MulAtLeast(j, i + 1, size);
    } else {
      MulAtLeast(i, j + 1, size);
    }
  }

  lemma AreasSeparate(c: Config, a: Area, b: Area)
    requires Loaded(c) && Accepted(c) && NoWrap(c) && Exists(c, a) && Exists(c, b) && a != b
    ensures Separate(c, a, b)
  {
    if a.DataBuf? == b.DataBuf? {
      SameSideSeparate(c, a, b);
    } else {
      AcceptedMeans(c);
      EveryAreaInside(c, a);
      EveryAreaInside(c, b);
    }
  }

  /** When a sum of the check wraps, some area ends beyond 2^32 and so outside the memory. */
  lemma WrapLeavesMemory(c: Config) returns (a: Area)
    requires Loaded(c) && !NoWrap(c)
    ensures Exists(c, a) && !Inside(c, a)
  {
    if c.dataNum * c.dataSize + CMD_AREA >= TWO32 {
      a := DataBuf(c.dataNum - 1);
    } else if c.cmdNum > 0 {
      a := CmdBuf(c.cmdNum - 1);
    } else {
      a := SendCmd;
    }
  }

  /** The check admits a sound layout exactly when none of its sums wraps. */
  lemma AcceptedLayoutIsSound(c: Config)
    requires Loaded(c)
    ensures Accepted(c) ==> (SoundLayout(c) <==> NoWrap(c))
  {
    if !Accepted(c) {
      return;
    }
    if NoWrap(c) {
      AcceptedMeans(c);
      forall a | Exists(c, a)
        ensures Inside(c, a)
      {
        EveryAreaInside(c, a);
      }
      forall a, b | Exists(c, a) && Exists(c, b) && a != b
        ensures Separate(c, a, b)
      {
        AreasSeparate(c, a, b);
      }
    } else {
      var a := WrapLeavesMemory(c);
    }
  }

  /** Where the areas are: one after the other without gaps, the command areas and buffers behind the header of seven
      words, the data buffers behind the first two megabytes. */
  lemma AreasFollow(c: Config, i: nat)
    ensures Start(c, Header) == 0 && Length(c, Header) == 7 * 4
    ensures Start(c, RecvCmd) == Start(c, Header) + Length(c, Header) && Length(c, RecvCmd) == c.cmdSize
    ensures Start(c, SendCmd) == Start(c, RecvCmd) + Length(c, RecvCmd) && Length(c, SendCmd) == c.cmdSize
    ensures Start(c, CmdBuf(0)) == Start(c, SendCmd) + Length(c, SendCmd) && Length(c, CmdBuf(i)) == c.cmdSize
    ensures Start(c, CmdBuf(i + 1)) == Start(c, CmdBuf(i)) + Length(c, CmdBuf(i))
    ensures Start(c, DataBuf(0)) == 2 * 1024 * 1024 && Length(c, DataBuf(i)) == c.dataSize
    ensures Start(c, DataBuf(i + 1)) == Start(c, DataBuf(i)) + Length(c, DataBuf(i))
  {
    Following(i, c.cmdSize);
    Following(i, c.dataSize);
  }

  lemma Following(i: nat, size: nat)
    ensures (i + 1) * size == i * size + size
  {
  }

  /** The k-th of the areas of command size. */
  function Slot(k: nat): Area {
    if k == 0 then RecvCmd else if k == 1 then SendCmd else CmdBuf(k - 2)
  }

  lemma SlotStart(c: Config, k: nat)
    ensures Start(c, Slot(k)) == HEADER + k * c.cmdSize && Length(c, Slot(k)) == c.cmdSize
  {
    if k >= 2 {
      assert k * c.cmdSize == 2 * c.cmdSize + (k - 2) * c.cmdSize;
    }
  }

  /** The slot of that size into which an offset falls. */
  lemma SlotAround(n: nat, size: nat, offset: nat) returns (k: nat)
    requires size > 0 && offset < n * size
    ensures k < n && k * size <= offset < k * size + size
  {
    k := offset / size;
    DivBelow(offset, n, size);
    assert offset == k * size + offset % size;
  }

  lemma SlotMeetsData(c: Config, k: nat)
    requires c.dataSize > 0 && k * c.cmdSize <= CMD_AREA - HEADER < k * c.cmdSize + c.cmdSize
    ensures !Separate(c, Slot(k), DataBuf(0))
  {
    SlotStart(c, k);
    AreasFollow(c, 0);
  }

  /** If the command areas reached over the two megabytes, one of them would share a byte with the first data buffer. */
  lemma CommandsStayBelow(c: Config)
    requires Loaded(c) && SoundLayout(c) && c.dataNum > 0
    ensures HEADER + (c.cmdNum + 2) * c.cmdSize <= CMD_AREA
  {
    if HEADER + (c.cmdNum + 2) * c.cmdSize > CMD_AREA {
      var k := SlotAround(c.cmdNum + 2, c.cmdSize, CMD_AREA - HEADER);
      assert Exists(c, Slot(k)) && Exists(c, DataBuf(0));
      SlotMeetsData(c, k);
    }
  }

  lemma DataEnds(c: Config)
    requires Loaded(c) && SoundLayout(c) && c.dataNum > 0
    ensures c.dataNum * c.dataSize + CMD_AREA <= c.memSize
  {
    var a := DataBuf(c.dataNum - 1);
    assert Exists(c, a) && Inside(c, a);
    Following(c.dataNum - 1, c.dataSize);
  }

  lemma AreaSum(c: Config)
    ensures c.cmdNum * c.cmdSize + (HEADER + c.cmdSize * 2) == HEADER + (c.cmdNum + 2) * c.cmdSize
  {
  }

  lemma AcceptedUnwrapped(c: Config)
    requires NoWrap(c)
    ensures Accepted(c) <==>
              c.dataNum * c.dataSize + CMD_AREA <= c.memSize && HEADER + (c.cmdNum + 2) * c.cmdSize <= CMD_AREA
  {
    SumUnwrapped(c.dataNum * c.dataSize, CMD_AREA);
    SumUnwrapped(c.cmdNum * c.cmdSize, HEADER + c.cmdSize * 2);
    AreaSum(c);
  }

  /** As long as no sum wraps, the check refuses no sound layout either: it accepts exactly the sound ones; except that
      without data buffers it still wants the command area to be there and the command buffers to stay inside it. */
  lemma CheckIsExact(c: Config)
    requires Loaded(c) && NoWrap(c)
    ensures Accepted(c) <==>
              && SoundLayout(c)
              && (c.dataNum == 0 ==> HEADER + (c.cmdNum + 2) * c.cmdSize <= CMD_AREA <= c.memSize)
  {
    AcceptedUnwrapped(c);
    AcceptedLayoutIsSound(c);
    if SoundLayout(c) && c.dataNum > 0 {
      CommandsStayBelow(c);
      DataEnds(c);
    }
  }

  /** The check is fooled by 64 data buffers of 65520 KB each: their total does not wrap, but adding the
      command area does. */
  lemma WrappedSumIsAccepted()
    ensures var c := Config(0x1000_0000, 64, 0x3ff_c000, 64, 0x800);
            Loaded(c) && Accepted(c) && c.dataNum * c.dataSize < TWO32 && !SoundLayout(c)
  {
    var c := Config(0x1000_0000, 64, 0x3ff_c000, 64, 0x800);
    AcceptedLayoutIsSound(c);
  }

  /* ---------------------------------------------------------------- addresses */

  /** n addresses a fixed distance apart, in 32-bit arithmetic. */
  function Progression(first: nat, n: nat, size: nat): (s: seq<int>)
    ensures |s| == n
  {
    seq(n, i => (first + i * size) % TWO32)
  }

  /** The addresses given to the two pools, when the reserved memory lies at `base`. */
  function DataAddresses(c: Config, base: nat): seq<int> {
    Progression(base + CMD_AREA, c.dataNum, c.dataSize)
  }

  function CmdAddresses(c: Config, base: nat): seq<int> {
    Progression(base + (HEADER + c.cmdSize * 2), c.cmdNum, c.cmdSize)
  }

  /** Looking an address up gives back the id it came from. */
  predicate Inverts(virt: seq<int>) {
    forall i :: 0 <= i < |virt| ==> Lookup(virt, virt[i]) == Some(i)
  }

  lemma InvertsWhenDistinct(virt: seq<int>)
    ensures Inverts(virt) <==> Distinct(virt)
  {
    if Distinct(virt) {
      forall i | 0 <= i < |virt|
        ensures Lookup(virt, virt[i]) == Some(i)
      {
        LookupInverts(virt, i);
      }
    }
  }

  /** No two addresses are the same, so that the lookup inverts id-to-address; either half implies the other. */
  predicate Identifying(virt: seq<int>) {
    Distinct(virt) && Inverts(virt)
  }

  /** Where the areas lie inside memory that does not wrap, addresses are plain sums. */
  lemma AddressInside(c: Config, base: nat, a: Area)
    requires base + c.memSize <= TWO32 && Inside(c, a) && Length(c, a) > 0
    ensures (base + Start(c, a)) % TWO32 == base + Start(c, a)
  {
  }

  lemma SoundDataDistinct(c: Config, base: nat)
    requires Loaded(c) && base + c.memSize <= TWO32 && SoundLayout(c)
    ensures Distinct(DataAddresses(c, base))
  {
    forall i, j | 0 <= i < j < c.dataNum
      ensures DataAddresses(c, base)[i] != DataAddresses(c, base)[j]
    {
      AddressInside(c, base, DataBuf(i));
      AddressInside(c, base, DataBuf(j));
      assert Separate(c, DataBuf(i), DataBuf(j));
    }
  }

  lemma SoundCmdDistinct(c: Config, base: nat)
    requires Loaded(c) && base + c.memSize <= TWO32 && SoundLayout(c)
    ensures Distinct(CmdAddresses(c, base))
  {
    forall i, j | 0 <= i < j < c.cmdNum
      ensures CmdAddresses(c, base)[i] != CmdAddresses(c, base)[j]
    {
      AddressInside(c, base, CmdBuf(i));
      AddressInside(c, base, CmdBuf(j));
      assert Separate(c, CmdBuf(i), CmdBuf(j));
    }
  }

  /** When the check accepts without wrapping, the areas do not overlap, so no two buffers of a pool have the same
      32-bit address and the lookup inverts id-to-address. */
  lemma AddressesIdentifyBuffers(c: Config, base: nat)
    requires Loaded(c) && base + c.memSize <= TWO32
    ensures Accepted(c) && NoWrap(c) ==>
              Identifying(DataAddresses(c, base)) && Identifying(CmdAddresses(c, base))
  {
    AcceptedLayoutIsSound(c);
    if Accepted(c) && NoWrap(c) {
      SoundDataDistinct(c, base);
      SoundCmdDistinct(c, base);
      InvertsWhenDistinct(DataAddresses(c, base));
      InvertsWhenDistinct(CmdAddresses(c, base));
    }
  }

  /** The largest power of two that divides a positive number: its lowest set bit. */
  function LowBit(n: nat): (b: nat)
    requires n > 0
    ensures b > 0
  {
    if n % 2 == 1 then 1 else 2 * LowBit(n / 2)
  }

  predicate PowerOfTwo(n: nat) {
    n == 1 || (n > 0 && n % 2 == 0 && PowerOfTwo(n / 2))
  }

  lemma Doubled(b: nat, odd: nat)
    ensures 2 * (b * odd) == (2 * b) * odd
  {
  }

  /** A number is its lowest set bit times an odd number. */
  lemma {:induction false} LowBitSplits(n: nat) returns (odd: nat)
    requires n > 0
    ensures odd % 2 == 1 && n == LowBit(n) * odd && PowerOfTwo(LowBit(n))
  {
    if n % 2 == 1 {
      odd := n;
    } else {
      odd := LowBitSplits(n / 2);
      assert n == 2 * (LowBit(n / 2) * odd);
      Doubled(LowBit(n / 2), odd);
    }
  }

  /** Of two powers of two the smaller divides the larger, and the quotient is a power of two. */
  lemma {:induction false} PowersDivide(a: nat, b: nat) returns (q: nat)
    requires PowerOfTwo(a) && PowerOfTwo(b) && a <= b
    ensures b == a * q && PowerOfTwo(q)
  {
    if a == 1 {
      q := b;
    } else {
      q := PowersDivide(a / 2, b / 2);
      assert b == 2 * (a / 2 * q) == a * q;
    }
  }

  lemma {:induction false} DoubleIsPower(n: nat)
    requires PowerOfTwo(n)
    ensures PowerOfTwo(2 * n)
  {
  }

  lemma {:induction false} ProductIsPower(a: nat, b: nat)
    requires PowerOfTwo(a) && PowerOfTwo(b)
    ensures PowerOfTwo(a * b)
  {
    if a > 1 {
      ProductIsPower(a / 2, b);
      DoubleIsPower(a / 2 * b);
      assert a * b == 2 * (a / 2 * b);
    }
  }

  lemma TwoTo32IsPower()
    ensures PowerOfTwo(TWO32)
  {
    var byte := 0x100;
    assert PowerOfTwo(byte);
    ProductIsPower(byte, byte);
    ProductIsPower(byte * byte, byte * byte);
  }

  lemma OddTimesOdd(d: nat, odd: nat)
    requires d % 2 == 1 && odd % 2 == 1
    ensures d * odd % 2 == 1
  {
    var x, y := d / 2, odd / 2;
    assert d * odd == 2 * (x * odd + y) + 1 by {
      assert (2 * x + 1) * odd == 2 * x * odd + odd;
    }
  }

  lemma TimesDouble(q: nat, p: nat, h: nat)
    requires p == 2 * h
    ensures q * p == 2 * (q * h) && q * p % 2 == 0
  {
  }

  lemma HalfOfProduct(d: nat, odd: nat, q: nat, p: nat)
    requires odd % 2 == 1 && d * odd == q * p && p % 2 == 0
    ensures d % 2 == 0 && d / 2 * odd == q * (p / 2)
  {
    TimesDouble(q, p, p / 2);
    if d % 2 == 1 {
      OddTimesOdd(d, odd);
    } else {
      TimesDouble(odd, d, d / 2);
    }
  }

  /** A power of two that divides a product with an odd number divides the other factor. */
  lemma {:induction false} OddFactorDrops(d: nat, odd: nat, q: nat, p: nat) returns (r: nat)
    requires PowerOfTwo(p) && odd % 2 == 1 && d * odd == q * p
    ensures d == r * p
    decreases p
  {
    if p == 1 {
      r := d;
    } else {
      HalfOfProduct(d, odd, q, p);
      r := OddFactorDrops(d / 2, odd, q, p / 2);
      TimesDouble(r, p, p / 2);
    }
  }

  lemma SameResidue(x: nat, y: nat, m: nat)
    requires 0 < m && x <= y
    ensures x % m == y % m <==> (y - x) % m == 0
  {
    if x % m == y % m {
      MultipleOf(y - x, m, y / m - x / m);
    } else if (y - x) % m == 0 {
      AddMultiple(x, m, (y - x) / m);
    }
  }

  lemma CancelFactor(b: nat, x: nat, y: nat)
    requires b > 0 && b * x == b * y
    ensures x == y
  {
    if x < y {
      MulAtLeast(y, x + 1, b);
    } else if y < x {
      MulAtLeast(x, y + 1, b);
    }
  }

  /** n addresses `size` apart are distinct in 32 bits, and the lookup inverts id-to-address, exactly when n times
      the lowest set bit of the size does not exceed 2^32. */
  lemma ProgressionExactlyDistinct(first: nat, n: nat, size: nat)
    requires 0 < size < TWO32
    ensures Identifying(Progression(first, n, size)) <==> n * LowBit(size) <= TWO32
  {
    var odd, c := FactorsOf(size);
    SameFactor(n, c, LowBit(size));
    if n <= c {
      FewAreDistinct(first, n, size, LowBit(size), odd, c);
    } else {
      ManyCollide(first, n, size, LowBit(size), odd, c);
    }
    InvertsWhenDistinct(Progression(first, n, size));
  }

  /** The exact condition for the two pools, for every configuration the driver can be loaded with, accepted or
      not, and wherever the memory lies. */
  lemma AddressesExactlyDistinct(c: Config, base: nat)
    requires Loaded(c)
    ensures Identifying(DataAddresses(c, base)) <==> c.dataNum * LowBit(c.dataSize) <= TWO32
    ensures Identifying(CmdAddresses(c, base)) <==> c.cmdNum * LowBit(c.cmdSize) <= TWO32
  {
    ProgressionExactlyDistinct(base + CMD_AREA, c.dataNum, c.dataSize);
    ProgressionExactlyDistinct(base + (HEADER + c.cmdSize * 2), c.cmdNum, c.cmdSize);
  }

  lemma FactorsOf(size: nat) returns (odd: nat, c: nat)
    requires 0 < size < TWO32
    ensures odd % 2 == 1 && size == LowBit(size) * odd
    ensures c > 0 && PowerOfTwo(c) && TWO32 == LowBit(size) * c
  {
    odd := LowBitSplits(size);
    TwoTo32IsPower();
    MulAtLeast(odd, 1, LowBit(size));
    c := PowersDivide(LowBit(size), TWO32);
  }

  lemma SameFactor(n: nat, c: nat, b: nat)
    requires b > 0
    ensures n <= c <==> n * b <= b * c
  {
    if n <= c {
      MulAtLeast(c, n, b);
    } else {
      MulAtLeast(n, c + 1, b);
    }
  }

  lemma FewAreDistinct(first: nat, n: nat, size: nat, b: nat, odd: nat, c: nat)
    requires size == b * odd && TWO32 == b * c && b > 0 && PowerOfTwo(c) && odd % 2 == 1 && n <= c
    ensures Distinct(Progression(first, n, size))
  {
    forall i: nat, j: nat | i < j < n
      ensures Progression(first, n, size)[i] != Progression(first, n, size)[j]
    {
      NoReturn(first, i, j, size, b, odd, c);
    }
  }

  lemma NoReturn(first: nat, i: nat, j: nat, size: nat, b: nat, odd: nat, c: nat)
    requires size == b * odd && TWO32 == b * c && b > 0 && PowerOfTwo(c) && odd % 2 == 1 && i < j < c + i
    ensures (first + i * size) % TWO32 != (first + j * size) % TWO32
  {
    StepsResidue(first, i, j, size, TWO32);
    if (j - i) * size % TWO32 == 0 {
      NoMultiple(j - i, size, b, odd, c, (j - i) * size / TWO32, TWO32);
    }
  }

  /** Fewer than c steps make no multiple of m. */
  lemma NoMultiple(d: nat, size: nat, b: nat, odd: nat, c: nat, q: nat, m: nat)
    requires size == b * odd && m == b * c && b > 0 && PowerOfTwo(c) && odd % 2 == 1 && 0 < d < c
    ensures d * size != q * m
  {
    if d * size == q * m {
      ShareFactor(d, b, odd, q, c);
      var r := OddFactorDrops(d, odd, q, c);
      if r > 0 {
        MulAtLeast(r, 1, c);
      }
    }
  }

  lemma ShareFactor(d: nat, b: nat, odd: nat, q: nat, c: nat)
    requires b > 0 && d * (b * odd) == q * (b * c)
    ensures d * odd == q * c
  {
    assert d * (b * odd) == b * (d * odd);
    assert q * (b * c) == b * (q * c);
    CancelFactor(b, d * odd, q * c);
  }

  lemma StepsResidue(first: nat, i: nat, j: nat, size: nat, m: nat)
    requires i < j && m > 0
    ensures (first + i * size) % m == (first + j * size) % m <==> (j - i) * size % m == 0
  {
    var x, y := first + i * size, first + j * size;
    assert y - x == (j - i) * size;
    SameResidue(x, y, m);
  }

  lemma ManyCollide(first: nat, n: nat, size: nat, b: nat, odd: nat, c: nat)
    requires size == b * odd && TWO32 == b * c && 0 < c < n
    ensures !Distinct(Progression(first, n, size))
  {
    assert c * size == odd * TWO32;
    AddMultiple(first, TWO32, odd);
    var s := Progression(first, n, size);
    assert s[0] == s[c];
  }

  /** Accepted configurations can hand the same address to two buffers: with sixty-four buffers of 256 MB, data
      buffers 0 and 16 coincide, and looking up buffer 16 gives buffer 0. */
  lemma AcceptedBuffersCollide(base: nat)
    ensures var c := Config(0x1000_0000, 64, 0x1000_0000, 64, 0x800);
            var virt := DataAddresses(c, base);
            Loaded(c) && Accepted(c) && virt[0] == virt[16] && Lookup(virt, virt[16]) == Some(0)
  {
    var c := Config(0x1000_0000, 64, 0x1000_0000, 64, 0x800);
    AddMultiple(base + CMD_AREA, TWO32, 1);
  }
}
