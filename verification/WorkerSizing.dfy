/**
 The number of worker processes a container runs: `resolve_worker_count`.

 The memory a worker may use depends on the count, and the part of it the cache takes
 depends on that memory; the count is nevertheless the largest that fits.
 */
module WorkerSizing {
  import opened Options

  const DEFAULT_BASE_MB := 2048
  const DEFAULT_RESERVE_MB := 512
  const DEFAULT_MAX_WORKERS := 8
  const DEFAULT_L1_PERCENT := 10.0

  /** A setting that is missing, unreadable or not positive counts as its default. */
  function Setting(value: Option<int>, default: int): (r: int)
    requires default > 0
    ensures r > 0
  {
    if value.Some? && value.value > 0 then value.value else default
  }

  function RealSetting(value: Option<real>, default: real): (r: real)
    requires default > 0.0
    ensures r > 0.0
  {
    if value.Some? && value.value > 0.0 then value.value else default
  }

  /** `override` is a usable explicit count; memory and cores are what the container reveals, if anything. */
  datatype Host = Host(override: Option<int>, totalMb: Option<int>, cores: Option<real>)

  datatype Settings = Settings(baseMb: int, reserveMb: int, l1Fraction: real, maxWorkers: int) {
    predicate Valid() { baseMb > 0 && reserveMb > 0 && l1Fraction > 0.0 && maxWorkers > 0 }
  }

  /** The settings as the environment gives them, where it does. */
  datatype Environment = Environment(baseMb: Option<int>, reserveMb: Option<int>, l1Percent: Option<real>, maxWorkers: Option<int>)

  function SettingsFrom(e: Environment): (s: Settings)
    ensures s.Valid()
  {
    Settings(Setting(e.baseMb, DEFAULT_BASE_MB), Setting(e.reserveMb, DEFAULT_RESERVE_MB),
             RealSetting(e.l1Percent, DEFAULT_L1_PERCENT) / 100.0, Setting(e.maxWorkers, DEFAULT_MAX_WORKERS))
  }

  function Min(a: int, b: int): int { if a <= b then a else b }
  function Max(a: int, b: int): int { if a >= b then a else b }

  /** `int(x)`: toward zero. */
  function Truncated(x: real): int { if x >= 0.0 then x.Floor else -((-x).Floor) }

  function CpuCap(s: Settings, cores: Option<real>): int {
    if cores.Some? && cores.value != 0.0 then Max(1, Truncated(cores.value)) else s.maxWorkers
  }

  function UsableMb(s: Settings, totalMb: int): real { (totalMb - s.reserveMb) as real }

  function MemoryCap(s: Settings, totalMb: int): int
    requires s.Valid()
  {
    MemoryCapOf(UsableMb(s, totalMb), s.l1Fraction, s.baseMb as real)
  }

  function MemoryCapOf(usable: real, p: real, base: real): int
    requires base > 0.0
  {
    (usable * (1.0 - p) / base).Floor
  }

  function DerivedCount(h: Host, s: Settings): int
    requires s.Valid()
  {
    if h.totalMb.None? then 1
    else if 1.0 - s.l1Fraction <= 0.0 then 1
    else if h.totalMb.value - s.reserveMb <= 0 then 1
    else Max(1, Min(Min(MemoryCap(s, h.totalMb.value), CpuCap(s, h.cores)), s.maxWorkers))
  }

  function ResolveWorkerCount(h: Host, e: Environment): int {
    if h.override.Some? && h.override.value >= 1 then h.override.value else DerivedCount(h, SettingsFrom(e))
  }

  // ---------------------------------------------------------------- what the count has to meet

  /** n workers fit: each one's share of the memory holds its own base and the cache's part of that share. */
  predicate Fits(s: Settings, totalMb: int, n: int)
    requires s.Valid() && n >= 1
  {
    ShareHolds(UsableMb(s, totalMb), s.l1Fraction, s.baseMb as real, n)
  }

  /** A share is there, and holds a worker's base and the cache's fraction of the share itself. */
  predicate ShareHolds(usable: real, p: real, base: real, n: int)
    requires n >= 1
  {
    var share := usable / (n as real);
    share > 0.0 && share >= base + p * share
  }

  predicate Allowed(h: Host, s: Settings, n: int)
    requires s.Valid() && n >= 1
  {
    h.totalMb.Some? && Fits(s, h.totalMb.value, n) && EnoughCores(h.cores, n) && n <= s.maxWorkers
  }

  /** A core per worker, as far as the cores are known. */
  predicate EnoughCores(cores: Option<real>, n: int) {
    cores.Some? && cores.value != 0.0 ==> n as real <= cores.value
  }

  lemma MulDiv(a: real, b: real)
    requires b > 0.0
    ensures a / b * b == a
    ensures a > 0.0 <==> a / b > 0.0
  {
  }

  lemma MulKeepsOrder(a: real, b: real, c: real)
    requires c > 0.0
    ensures a >= b <==> a * c >= b * c
  {
  }

  lemma ShareIff(share: real, p: real, base: real)
    ensures share >= base + p * share <==> share * (1.0 - p) >= base
  {
  }

  lemma Swap(a: real, b: real, c: real)
    ensures a * b * c == a * c * b
  {
  }

  lemma SharesFill(usable: real, headroom: real, m: real)
    requires m > 0.0
    ensures (usable / m * headroom) * m == usable * headroom
  {
    Swap(usable / m, headroom, m);
    MulDiv(usable, m);
  }

  lemma QuotientIff(room: real, base: real, m: real)
    requires base > 0.0
    ensures room >= base * m <==> m <= room / base
  {
    MulDiv(room, base);
    MulKeepsOrder(room / base, m, base);
    assert m * base == base * m;
  }

  /** The circular constraint on a worker's share, unrolled into a bound on the number of shares. */
  lemma CircularIff(usable: real, p: real, base: real, m: real)
    requires base > 0.0 && m > 0.0
    ensures var share := usable / m;
            share >= base + p * share <==> m <= usable * (1.0 - p) / base
  {
    var held, room := usable / m * (1.0 - p), usable * (1.0 - p);
    ShareIff(usable / m, p, base);
    MulKeepsOrder(held, base, m);
    SharesFill(usable, 1.0 - p, m);
    QuotientIff(room, base, m);
  }

  lemma CapIff(usable: real, p: real, base: real, n: int)
    requires usable > 0.0 && base > 0.0 && n >= 1
    ensures ShareHolds(usable, p, base, n) <==> n <= MemoryCapOf(usable, p, base)
  {
    FloorIff(usable * (1.0 - p) / base, n);
    CircularIff(usable, p, base, n as real);
    SharePositive(usable, n as real);
  }

  lemma FitsIff(s: Settings, totalMb: int, n: int)
    requires s.Valid() && n >= 1
    requires totalMb > s.reserveMb && s.l1Fraction < 1.0
    ensures Fits(s, totalMb, n) <==> n <= MemoryCap(s, totalMb)
  {
    CapIff(UsableMb(s, totalMb), s.l1Fraction, s.baseMb as real, n);
  }

  lemma SharePositive(usable: real, m: real)
    requires usable > 0.0 && m > 0.0
    ensures usable / m > 0.0
  {
  }

  lemma FloorIff(x: real, n: int)
    ensures n <= x.Floor <==> n as real <= x
  {
  }

  /** Without memory to share out, or with a cache that wants all of it, nothing fits. */
  lemma NothingFits(s: Settings, totalMb: int, n: int)
    requires s.Valid() && n >= 1
    requires totalMb <= s.reserveMb || s.l1Fraction >= 1.0
    ensures !Fits(s, totalMb, n)
  {
    var share := UsableMb(s, totalMb) / (n as real);
    MulDiv(UsableMb(s, totalMb), n as real);
    if share > 0.0 && s.l1Fraction >= 1.0 {
      MulKeepsOrder(s.l1Fraction, 1.0, share);
    }
  }

  /**
   n workers of `base` MB each, and a cache taking `percent` of every worker's share, fit into
   `total` MB of which `reserve` are held back, on that many cores, if known.
   */
  predicate Feasible(total: int, base: int, reserve: int, percent: real, max: int, cores: Option<real>, n: int)
    requires n >= 1
  {
    && ShareHolds((total - reserve) as real, percent / 100.0, base as real, n)
    && EnoughCores(cores, n)
    && n <= max
  }

  /**
   Whatever the environment says: an explicit count of at least one is taken as it is.  Else
   the count is the largest that is feasible, and 1 when none is or the memory is unknown; a
   setting that is missing or not positive is 2048 MB a worker, 512 MB held back, 10 percent
   for the cache, 8 workers at most.
   */
  lemma WorkerCountIsLargest(h: Host, e: Environment)
    ensures h.override.Some? && h.override.value >= 1 ==> ResolveWorkerCount(h, e) == h.override.value
    ensures !(h.override.Some? && h.override.value >= 1) ==>
              var n := ResolveWorkerCount(h, e);
              var base := if e.baseMb.Some? && e.baseMb.value > 0 then e.baseMb.value else 2048;
              var reserve := if e.reserveMb.Some? && e.reserveMb.value > 0 then e.reserveMb.value else 512;
              var percent := if e.l1Percent.Some? && e.l1Percent.value > 0.0 then e.l1Percent.value else 10.0;
              var max := if e.maxWorkers.Some? && e.maxWorkers.value > 0 then e.maxWorkers.value else 8;
              && 1 <= n <= max
              && (h.totalMb.None? ==> n == 1)
              && (h.totalMb.Some? && n >= 2 ==> Feasible(h.totalMb.value, base, reserve, percent, max, h.cores, n))
              && (h.totalMb.Some? ==>
                    forall m :: 1 <= m && Feasible(h.totalMb.value, base, reserve, percent, max, h.cores, m) ==> m <= n)
  {
    var s := SettingsFrom(e);
    DerivedIsLargest(h, s);
    if h.totalMb.Some? {
      var percent := if e.l1Percent.Some? && e.l1Percent.value > 0.0 then e.l1Percent.value else 10.0;
      forall m | 1 <= m
        ensures Feasible(h.totalMb.value, s.baseMb, s.reserveMb, percent, s.maxWorkers, h.cores, m) <==> Allowed(h, s, m)
      {
        AllowedIsFeasible(h, s, percent, m);
      }
    }
  }

  lemma AllowedIsFeasible(h: Host, s: Settings, percent: real, n: int)
    requires s.Valid() && h.totalMb.Some? && n >= 1 && s.l1Fraction == percent / 100.0
    ensures Feasible(h.totalMb.value, s.baseMb, s.reserveMb, percent, s.maxWorkers, h.cores, n) <==> Allowed(h, s, n)
  {
  }

  lemma DerivedIsLargest(h: Host, s: Settings)
    requires s.Valid()
    ensures var n := DerivedCount(h, s);
            && 1 <= n <= s.maxWorkers
            && (n >= 2 ==> Allowed(h, s, n))
            && (forall m :: 1 <= m && Allowed(h, s, m) ==> m <= n)
  {
    var n := DerivedCount(h, s);
    if h.totalMb.Some? {
      forall m | 1 <= m && Allowed(h, s, m)
        ensures m <= n
      {
        LargestStep(h, s, m);
      }
      if n >= 2 {
        FitsIff(s, h.totalMb.value, n);
      }
    }
  }

  lemma LargestStep(h: Host, s: Settings, m: int)
    requires s.Valid() && m >= 1 && Allowed(h, s, m)
    ensures m <= DerivedCount(h, s)
  {
    var total := h.totalMb.value;
    if total <= s.reserveMb || s.l1Fraction >= 1.0 {
      NothingFits(s, total, m);
    } else {
      FitsIff(s, total, m);
    }
  }
}
