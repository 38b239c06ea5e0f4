/** I/O counters of iostat: their machine-word sums and what is read from two of them. */
module DeviceStats {
  import opened Arithmetic

  type Half = x: int | 0 <= x < TWO_32

  /** A struct io_stats: ten counters of 64 bits and seven of 32. */
  datatype Io = Io(rdSectors: Word, wrSectors: Word, dcSectors: Word, rdIos: Word, rdMerges: Word, wrIos: Word,
                   wrMerges: Word,
                   dcIos: Word, dcMerges: Word, flIos: Word, rdTicks: Half, wrTicks: Half, dcTicks: Half, flTicks: Half,
                   iosPgr: Half, totTicks: Half, rqTicks: Half)

  const ZERO: Io := Io(0, 0, 0, 0, 0, 0, 0, 0, 0, 0, 0, 0, 0, 0, 0, 0, 0)

  /** The additions of compute_device_groups_stats. */
  function Add(g: Io, d: Io): Io {
    Io(U64(g.rdSectors + d.rdSectors), U64(g.wrSectors + d.wrSectors), U64(g.dcSectors + d.dcSectors),
       U64(g.rdIos + d.rdIos),
       U64(g.rdMerges + d.rdMerges), U64(g.wrIos + d.wrIos), U64(g.wrMerges + d.wrMerges), U64(g.dcIos + d.dcIos),
       U64(g.dcMerges + d.dcMerges), U64(g.flIos + d.flIos), U32(g.rdTicks + d.rdTicks), U32(g.wrTicks + d.wrTicks),
       U32(g.dcTicks + d.dcTicks), U32(g.flTicks + d.flTicks), U32(g.iosPgr + d.iosPgr), U32(g.totTicks + d.totTicks),
       U32(g.rqTicks + d.rqTicks))
  }

  /** No operation was ever counted. */
  predicate Idle(s: Io) {
    s.rdIos == 0 && s.wrIos == 0 && s.dcIos == 0 && s.flIos == 0
  }

  predicate SameIos(a: Io, b: Io) {
    a.rdIos == b.rdIos && a.wrIos == b.wrIos && a.dcIos == b.dcIos && a.flIos == b.flIos
  }

  function Ios(s: Io): Word {
    U64(s.rdIos + s.wrIos + s.dcIos + s.flIos)
  }

  /** A device that seems to have been removed and inserted again. */
  predicate Replaced(curr: Io, prev: Io) {
    && Ios(curr) < Ios(prev)
    && (prev.rdSectors == 0 || curr.rdSectors < prev.rdSectors)
    && (prev.wrSectors == 0 || curr.wrSectors < prev.wrSectors)
    && (prev.dcSectors == 0 || curr.dcSectors < prev.dcSectors)
  }

  // ----- Differences of sector counts

  /** The number of sectors in an interval (write_basic_stat). */
  function SectorDelta(curr: Word, prev: Word): Word {
    var d := U64(curr - prev);
    if curr < prev && prev <= 0xFFFF_FFFF then U32(d) else d
  }

  /**
    A counter of 32 bits that has counted n sectors: the difference is n modulo 2^32, so it is n
    exactly if n < 2^32, even where the counter has wrapped.
   */
  lemma NarrowCounter(from: nat, n: nat)
    ensures SectorDelta((from + n) % TWO_32, from % TWO_32) == n % TWO_32
    ensures SectorDelta((from + n) % TWO_32, from % TWO_32) == n <==> n < TWO_32
  {
    var curr, prev := (from + n) % TWO_32, from % TWO_32;
    NarrowDifference(curr, prev, n, (from + n) / TWO_32 - from / TWO_32);
  }

  lemma NarrowDifference(curr: nat, prev: nat, n: nat, k: int)
    requires curr < TWO_32 && prev < TWO_32 && curr - prev == n - k * TWO_32
    ensures SectorDelta(curr, prev) == n % TWO_32
  {
    if curr < prev {
      assert U64(curr - prev) == curr - prev + TWO_64;
      assert (n - k * TWO_32 + TWO_64) % TWO_32 == n % TWO_32;
    } else {
      assert (n - k * TWO_32) % TWO_32 == n % TWO_32;
    }
  }

  /**
    A counter of 64 bits that has counted n < 2^64 sectors: the difference is n unless the counter
    has wrapped from a value that looks like one of 32 bits.
   */
  lemma WideCounterIff(from: nat, n: nat)
    ensures var curr, prev := (from + n) % TWO_64, from % TWO_64;
            SectorDelta(curr, prev) == n <==> n < TWO_64 && !(curr < prev <= 0xFFFF_FFFF)
  {
    var curr, prev := (from + n) % TWO_64, from % TWO_64;
    WideDifference(curr, prev, n, (from + n) / TWO_64 - from / TWO_64);
  }

  lemma WideDifference(curr: nat, prev: nat, n: nat, k: int)
    requires curr < TWO_64 && prev < TWO_64 && curr - prev == n - k * TWO_64
    ensures SectorDelta(curr, prev) == n <==> n < TWO_64 && !(curr < prev <= 0xFFFF_FFFF)
  {
    assert U64(curr - prev) == n % TWO_64 by {
      assert (n - k * TWO_64) % TWO_64 == n % TWO_64;
    }
  }

  /** A 64-bit counter that wraps from 5 to 2: all but 2^32 - 3 of its sectors are lost. */
  lemma SmallWrapIsMisread()
    ensures (5 + (TWO_64 - 3)) % TWO_64 == 2 && SectorDelta(2, 5) == TWO_32 - 3
  {
  }

  // ----- Sums of devices

  function Sum(s: seq<Io>): Io {
    if s == [] then ZERO else Add(Sum(s[..|s| - 1]), s[|s| - 1])
  }

  /** The counters by name. */
  datatype Counter = RdSectors | WrSectors | DcSectors | RdIos | RdMerges | WrIos | WrMerges | DcIos | DcMerges
                   | FlIos | RdTicks | WrTicks | DcTicks | FlTicks | IosPgr | TotTicks | RqTicks

  function Get(s: Io, f: Counter): nat {
    match f
    case RdSectors => s.rdSectors
    case WrSectors => s.wrSectors
    case DcSectors => s.dcSectors
    case RdIos => s.rdIos
    case RdMerges => s.rdMerges
    case WrIos => s.wrIos
    case WrMerges => s.wrMerges
    case DcIos => s.dcIos
    case DcMerges => s.dcMerges
    case FlIos => s.flIos
    case RdTicks => s.rdTicks
    case WrTicks => s.wrTicks
    case DcTicks => s.dcTicks
    case FlTicks => s.flTicks
    case IosPgr => s.iosPgr
    case TotTicks => s.totTicks
    case RqTicks => s.rqTicks
  }

  predicate Wide(f: Counter) {
    match f
    case RdTicks | WrTicks | DcTicks | FlTicks | IosPgr | TotTicks | RqTicks => false
    case _ => true
  }

  function Width(f: Counter): int {
    if Wide(f) then TWO_64 else TWO_32
  }

  function Exact(s: seq<Io>, f: Counter): nat {
    if s == [] then 0 else Exact(s[..|s| - 1], f) + Get(s[|s| - 1], f)
  }

  /** Each counter of a sum is the exact sum of that counter, modulo its width. */
  lemma {:induction false} SumIsFieldwise(s: seq<Io>, f: Counter)
    ensures Get(Sum(s), f) == Exact(s, f) % Width(f)
  {
    if s != [] {
      var t := s[..|s| - 1];
      SumIsFieldwise(t, f);
      AddToExact(Sum(t), Exact(t, f), s[|s| - 1], f);
    }
  }

  lemma AddIsFieldwise(a: Io, b: Io, f: Counter)
    ensures Get(Add(a, b), f) == (Get(a, f) + Get(b, f)) % Width(f)
  {
  }

  lemma AddToExact(a: Io, exact: nat, b: Io, f: Counter)
    requires Get(a, f) == exact % Width(f)
    ensures Get(Add(a, b), f) == (exact + Get(b, f)) % Width(f)
  {
    AddIsFieldwise(a, b, f);
    ModAdd(exact, Get(b, f), Width(f));
  }

  lemma ModAdd(a: nat, b: nat, width: int)
    requires width > 0
    ensures (a % width + b) % width == (a + b) % width
  {
    QuotientAndRemainder(a, width);
    ModMultiple(a % width + b, a / width, width);
  }

  lemma ModMultiple(x: nat, k: nat, width: int)
    requires width > 0
    ensures (x + k * width) % width == x % width
  {
    var y := x + k * width;
    QuotientAndRemainder(x, width);
    QuotientAndRemainder(y, width);
    assert (x / width + k) * width == (x / width) * width + k * width;
    DigitsUnique(width, y % width, y / width, x % width, x / width + k);
  }
}
