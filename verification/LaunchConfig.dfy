/** The occupancy calculation and the search for a block size: include/cuda_launch_config.h. All quantities are
    non-negative ints, without overflow. */
module LaunchConfig {
  import opened Arithmetic

  /** cudaDeviceProp, as far as it is used. */
  datatype Device = Device(
    major: nat, minor: nat, warpSize: nat, maxThreadsPerBlock: nat, maxThreadsPerMultiProcessor: nat,
    sharedMemPerBlock: nat, regsPerBlock: nat)

  /** cudaFuncAttributes, as far as it is used. */
  datatype Attributes = Attributes(maxThreadsPerBlock: nat, numRegs: nat, sharedSizeBytes: nat)

  // ----- rounding

  function DivideRi(x: nat, y: nat): nat
    requires y > 0
  {
    (x + (y - 1)) / y
  }

  function RoundI(x: nat, y: nat): nat
    requires y > 0
  {
    y * DivideRi(x, y)
  }

  lemma QuotientBound(a: nat, b: nat, n: nat)
    requires b > 0
    ensures n <= a / b <==> n * b <= a
  {
    var q, r := a / b, a % b;
    assert a == q * b + r;
    if n <= q {
      MulMonotone(n, q, b);
    } else {
      MulMonotone(q + 1, n, b);
      assert (q + 1) * b == q * b + b;
    }
  }

  /** divide_ri is the least number of units that hold x, and round_i what they hold. */
  lemma RoundIsLeast(x: nat, y: nat, k: nat)
    requires y > 0
    ensures x <= RoundI(x, y) == DivideRi(x, y) * y
    ensures x <= k * y <==> DivideRi(x, y) <= k
  {
    var d := DivideRi(x, y);
    QuotientBound(x + (y - 1), y, d);
    QuotientBound(x + (y - 1), y, d + 1);
    assert (d + 1) * y == d * y + y;
    if d <= k { MulMonotone(d, k, y); } else { MulMonotone(k + 1, d, y); assert (k + 1) * y == k * y + y; }
  }

  // ----- the tables

  function SmemAllocationUnit(p: Device): (u: nat)
    ensures u > 0
  {
    match p.major
    case 1 => 512
    case 2 => 128
    case _ => 256
  }

  function RegAllocationUnit(p: Device, regsPerThread: nat): (u: nat)
    ensures u > 0
  {
    match p.major
    case 1 => if p.minor <= 1 then 256 else 512
    case 2 => if regsPerThread in {21, 22, 29, 30, 37, 38, 45, 46} then 128 else 64
    case _ => 256
  }

  function WarpAllocationMultiple(p: Device): (u: nat)
    ensures u > 0
  {
    if p.major <= 1 then 2 else 1
  }

  function NumSides(p: Device): (n: nat)
    ensures n > 0
  {
    match p.major
    case 1 => 1
    case 2 => 2
    case _ => 4
  }

  function MaxBlocks(p: Device): nat {
    if p.major <= 2 then 8 else 16
  }

  // ----- occupancy

  function Min(a: nat, b: nat): nat {
    if b < a then b else a
  }

  function SmemPerBlock(p: Device, f: Attributes, smem: nat): nat {
    RoundI(f.sharedSizeBytes + smem, SmemAllocationUnit(p))
  }

  function Warps(p: Device, size: nat): (w: nat)
    requires p.warpSize > 0 && size > 0
    ensures w > 0
  {
    RoundIsLeast(size, p.warpSize, 0);
    RoundIsLeast(DivideRi(size, p.warpSize), WarpAllocationMultiple(p), 0);
    RoundI(DivideRi(size, p.warpSize), WarpAllocationMultiple(p))
  }

  function RegsPerBlock(p: Device, f: Attributes, size: nat): nat
    requires p.warpSize > 0 && size > 0
  {
    RoundI(f.numRegs * p.warpSize * Warps(p, size), RegAllocationUnit(p, f.numRegs))
  }

  function RegsPerWarp(p: Device, f: Attributes): nat {
    RoundI(f.numRegs * p.warpSize, RegAllocationUnit(p, f.numRegs))
  }

  /** The warps whose registers fit on all sides of the multiprocessor together. */
  function WarpsOnSides(p: Device, regsPerWarp: nat): nat
    requires regsPerWarp > 0
  {
    Quotient(Quotient(p.regsPerBlock, NumSides(p)), regsPerWarp) * NumSides(p)
  }

  function Quotient(a: nat, b: nat): (q: nat)
    requires b > 0
    ensures forall n: nat :: n <= q <==> n * b <= a
  {
    assert forall n: nat :: n <= a / b <==> n * b <= a by {
      forall n: nat
        ensures n <= a / b <==> n * b <= a
      {
        QuotientBound(a, b, n);
      }
    }
    a / b
  }

  function MaxActiveBlocks(p: Device, f: Attributes, size: nat, smem: nat): nat
    requires p.warpSize > 0 && size > 0
  {
    var limitThreads := if size <= p.maxThreadsPerBlock then Quotient(p.maxThreadsPerMultiProcessor, size) else 0;
    var limitSmem := if SmemPerBlock(p, f, smem) > 0 then Quotient(p.sharedMemPerBlock, SmemPerBlock(p, f, smem))
      else MaxBlocks(p);
    var limitRegs :=
      if p.major <= 1 then
        if RegsPerBlock(p, f, size) > 0 then Quotient(p.regsPerBlock, RegsPerBlock(p, f, size)) else MaxBlocks(p)
      else
        if RegsPerWarp(p, f) > 0 then Quotient(WarpsOnSides(p, RegsPerWarp(p, f)), Warps(p, size)) else MaxBlocks(p);
    Min(limitRegs, Min(limitSmem, Min(limitThreads, MaxBlocks(p))))
  }

  /** n blocks have the shared memory they need, static and dynamic, in whole allocation units. */
  ghost predicate SmemFits(p: Device, f: Attributes, smem: nat, n: nat) {
    exists units: nat ::
      HoldsBytes(p, f, smem, units) && n * (units * SmemAllocationUnit(p)) <= p.sharedMemPerBlock
  }

  predicate HoldsBytes(p: Device, f: Attributes, smem: nat, units: nat) {
    f.sharedSizeBytes + smem <= units * SmemAllocationUnit(p)
  }

  /** That many warps hold the threads of a block, and are allocated in their multiples. */
  predicate HoldsThreads(p: Device, size: nat, warps: nat) {
    size <= warps * p.warpSize && warps % WarpAllocationMultiple(p) == 0
  }

  /** The registers of that many threads, in whole allocation units. */
  predicate HoldsRegs(p: Device, f: Attributes, threads: nat, units: nat) {
    f.numRegs * threads <= units * RegAllocationUnit(p, f.numRegs)
  }

  /** Up to capability 1 registers are allocated to blocks: n blocks of that many warps have theirs. */
  ghost predicate BlockRegsFit(p: Device, f: Attributes, warps: nat, n: nat) {
    exists units: nat ::
      HoldsRegs(p, f, p.warpSize * warps, units) && n * (units * RegAllocationUnit(p, f.numRegs)) <= p.regsPerBlock
  }

  /** From capability 2 on they are allocated to warps: each side of the multiprocessor has its share of the registers,
      enough for the warps on it, and the sides together have the warps. */
  ghost predicate WarpRegsFit(p: Device, f: Attributes, warps: nat) {
    exists units: nat, perSide: nat ::
      HoldsRegs(p, f, p.warpSize, units)
      && SideHolds(p, f, units, perSide) && warps <= perSide * NumSides(p)
  }

  predicate SideHolds(p: Device, f: Attributes, units: nat, perSide: nat) {
    perSide * (units * RegAllocationUnit(p, f.numRegs)) <= p.regsPerBlock / NumSides(p)
  }

  /** n blocks of that many warps each have their registers. */
  ghost predicate RegsFit(p: Device, f: Attributes, warps: nat, n: nat) {
    if p.major <= 1 then BlockRegsFit(p, f, warps, n) else WarpRegsFit(p, f, n * warps)
  }

  /** n blocks fit on a multiprocessor together. */
  ghost predicate Fits(p: Device, f: Attributes, size: nat, smem: nat, n: nat) {
    && n <= (if p.major <= 2 then 8 else 16)
    && (n > 0 ==> size <= p.maxThreadsPerBlock) && n * size <= p.maxThreadsPerMultiProcessor
    && SmemFits(p, f, smem, n)
    && exists warps: nat :: HoldsThreads(p, size, warps) && RegsFit(p, f, warps, n)
  }

  // ----- the least allocation is the one to look at

  lemma SmemIs(p: Device, f: Attributes, smem: nat, n: nat)
    ensures SmemFits(p, f, smem, n) <==> n * SmemPerBlock(p, f, smem) <= p.sharedMemPerBlock
  {
    hide RoundI, DivideRi, SmemAllocationUnit;
    var bytes, unit := f.sharedSizeBytes + smem, SmemAllocationUnit(p);
    RoundIsLeast(bytes, unit, 0);
    assert HoldsBytes(p, f, smem, DivideRi(bytes, unit));
    forall units: nat | HoldsBytes(p, f, smem, units)
      ensures n * SmemPerBlock(p, f, smem) <= n * (units * unit)
    {
      RoundIsLeast(bytes, unit, units);
      RoundUpTo(bytes, unit, units);
      MulMonotone(SmemPerBlock(p, f, smem), units * unit, n);
    }
  }

  /** Any number of units that holds x is at least as long as x rounded up. */
  lemma RoundUpTo(x: nat, y: nat, k: nat)
    requires y > 0 && x <= k * y
    ensures RoundI(x, y) <= k * y
  {
    RoundIsLeast(x, y, k);
    MulMonotone(DivideRi(x, y), k, y);
  }

  lemma WarpsLeast(p: Device, size: nat, warps: nat)
    requires p.warpSize > 0 && size > 0
    ensures HoldsThreads(p, size, Warps(p, size))
    ensures HoldsThreads(p, size, warps) ==> Warps(p, size) <= warps
  {
    var m, least := WarpAllocationMultiple(p), DivideRi(size, p.warpSize);
    RoundIsLeast(size, p.warpSize, least);
    RoundIsLeast(size, p.warpSize, Warps(p, size));
    RoundIsLeast(least, m, DivideRi(least, m));
    MultipleMod(DivideRi(least, m), m);
    if HoldsThreads(p, size, warps) {
      RoundIsLeast(size, p.warpSize, warps);
      assert warps == (warps / m) * m;
      RoundUpTo(least, m, warps / m);
    }
  }

  lemma BlockRegsIs(p: Device, f: Attributes, warps: nat, n: nat)
    ensures BlockRegsFit(p, f, warps, n) <==>
      n * RoundI(f.numRegs * p.warpSize * warps, RegAllocationUnit(p, f.numRegs)) <= p.regsPerBlock
  {
    hide RoundI, DivideRi, RegAllocationUnit;
    var unit, regs := RegAllocationUnit(p, f.numRegs), f.numRegs * p.warpSize * warps;
    assert regs == f.numRegs * (p.warpSize * warps);
    RoundIsLeast(regs, unit, 0);
    assert HoldsRegs(p, f, p.warpSize * warps, DivideRi(regs, unit));
    forall units: nat | HoldsRegs(p, f, p.warpSize * warps, units)
      ensures n * RoundI(regs, unit) <= n * (units * unit)
    {
      RoundUpTo(regs, unit, units);
      MulMonotone(RoundI(regs, unit), units * unit, n);
    }
  }

  /** Fewer warps need no more. */
  lemma FewerBlockRegs(p: Device, f: Attributes, fewer: nat, warps: nat, n: nat)
    requires BlockRegsFit(p, f, warps, n) && fewer <= warps
    ensures BlockRegsFit(p, f, fewer, n)
  {
    var units: nat :| HoldsRegs(p, f, p.warpSize * warps, units)
      && n * (units * RegAllocationUnit(p, f.numRegs)) <= p.regsPerBlock;
    MulMonotone(fewer, warps, p.warpSize);
    MulMonotone(p.warpSize * fewer, p.warpSize * warps, f.numRegs);
    assert HoldsRegs(p, f, p.warpSize * fewer, units);
  }

  /** No allocation has more warps on the sides ... */
  lemma SideBound(p: Device, f: Attributes, units: nat, perSide: nat)
    requires RegsPerWarp(p, f) > 0 && HoldsRegs(p, f, p.warpSize, units) && SideHolds(p, f, units, perSide)
    ensures perSide * NumSides(p) <= WarpsOnSides(p, RegsPerWarp(p, f))
  {
    hide NumSides, RegAllocationUnit, RoundI, DivideRi;
    var unit := RegAllocationUnit(p, f.numRegs);
    RoundUpTo(f.numRegs * p.warpSize, unit, units);
    var share := p.regsPerBlock / NumSides(p);
    SmallerDivisor(share, RegsPerWarp(p, f), units * unit, perSide);
    QuotientIs(p.regsPerBlock, NumSides(p));
    QuotientIs(share, RegsPerWarp(p, f));
    MulMonotone(perSide, share / RegsPerWarp(p, f), NumSides(p));
  }

  lemma SmallerDivisor(a: nat, b: nat, c: nat, k: nat)
    requires 0 < b <= c && k * c <= a
    ensures k <= a / b
  {
    QuotientBound(a, b, k);
    MulMonotone(b, c, k);
  }

  lemma QuotientIs(a: nat, b: nat)
    requires b > 0
    ensures Quotient(a, b) == a / b
  {
  }

  /** ... than the least one, which reaches that number. */
  lemma SideReached(p: Device, f: Attributes) returns (units: nat)
    ensures HoldsRegs(p, f, p.warpSize, units) && units * RegAllocationUnit(p, f.numRegs) == RegsPerWarp(p, f)
    ensures RegsPerWarp(p, f) > 0 ==>
      SideHolds(p, f, units, Quotient(Quotient(p.regsPerBlock, NumSides(p)), RegsPerWarp(p, f)))
    ensures RegsPerWarp(p, f) == 0 ==> forall warps: nat :: SideHolds(p, f, units, warps)
  {
    hide NumSides, RegAllocationUnit;
    units := DivideRi(f.numRegs * p.warpSize, RegAllocationUnit(p, f.numRegs));
    RoundIsLeast(f.numRegs * p.warpSize, RegAllocationUnit(p, f.numRegs), 0);
  }

  lemma WarpRegsIs(p: Device, f: Attributes, warps: nat)
    ensures RegsPerWarp(p, f) > 0 ==> (WarpRegsFit(p, f, warps) <==> warps <= WarpsOnSides(p, RegsPerWarp(p, f)))
    ensures RegsPerWarp(p, f) == 0 ==> WarpRegsFit(p, f, warps)
  {
    hide NumSides, RegAllocationUnit, HoldsRegs, SideHolds, RegsPerWarp;
    var least := SideReached(p, f);
    if RegsPerWarp(p, f) > 0 {
      forall units: nat, perSide: nat | HoldsRegs(p, f, p.warpSize, units) && SideHolds(p, f, units, perSide)
        ensures perSide * NumSides(p) <= WarpsOnSides(p, RegsPerWarp(p, f))
      {
        SideBound(p, f, units, perSide);
      }
    } else {
      assert SideHolds(p, f, least, warps);
      MulMonotone(1, NumSides(p), warps);
    }
  }

  /** Whatever number of warps is allocated to a block, the least one does. */
  lemma RegsIs(p: Device, f: Attributes, size: nat, n: nat)
    requires p.warpSize > 0 && size > 0
    ensures (exists warps: nat :: HoldsThreads(p, size, warps) && RegsFit(p, f, warps, n)) <==>
      if p.major <= 1 then n * RegsPerBlock(p, f, size) <= p.regsPerBlock
      else RegsPerWarp(p, f) > 0 ==> n * Warps(p, size) <= WarpsOnSides(p, RegsPerWarp(p, f))
  {
    hide BlockRegsFit, WarpRegsFit, HoldsThreads, Warps, RegsPerWarp, WarpsOnSides, RoundI;
    var least := Warps(p, size);
    WarpsLeast(p, size, least);
    BlockRegsIs(p, f, least, n);
    WarpRegsIs(p, f, n * least);
    forall warps: nat | HoldsThreads(p, size, warps)
      ensures BlockRegsFit(p, f, warps, n) ==> BlockRegsFit(p, f, least, n)
      ensures WarpRegsFit(p, f, n * warps) ==> WarpRegsFit(p, f, n * least)
    {
      WarpsLeast(p, size, warps);
      if BlockRegsFit(p, f, warps, n) { FewerBlockRegs(p, f, least, warps, n); }
      MulMonotone(least, warps, n);
      FewerWarps(p, f, n * least, n * warps);
    }
  }

  lemma FewerWarps(p: Device, f: Attributes, fewer: nat, warps: nat)
    requires fewer <= warps
    ensures WarpRegsFit(p, f, warps) ==> WarpRegsFit(p, f, fewer)
  {
  }

  /** max_active_blocks_per_multiprocessor is the largest number of blocks that fit. */
  lemma ActiveBlocksFit(p: Device, f: Attributes, size: nat, smem: nat, n: nat)
    requires p.warpSize > 0 && size > 0
    ensures n <= MaxActiveBlocks(p, f, size, smem) <==> Fits(p, f, size, smem, n)
  {
    hide RoundI, Warps, RegsPerBlock, RegsPerWarp, WarpsOnSides, WarpRegsFit, BlockRegsFit, HoldsThreads, SmemFits,
      SmemPerBlock, Quotient;
    SmemIs(p, f, smem, n);
    RegsIs(p, f, size, n);
    Nothing(SmemPerBlock(p, f, smem), n);
    Nothing(RegsPerBlock(p, f, size), n);
  }

  lemma Nothing(x: nat, n: nat)
    ensures x == 0 ==> n * x == 0
  {
  }

  function Occupancy(p: Device, f: Attributes, smem: int -> nat, size: nat): nat
    requires p.warpSize > 0 && size > 0
  {
    size * MaxActiveBlocks(p, f, size, smem(size))
  }

  /** Why the search may stop early: no block size keeps more threads busy than the multiprocessor has. */
  lemma OccupancyBound(p: Device, f: Attributes, smem: int -> nat, size: nat)
    requires p.warpSize > 0 && size > 0
    ensures Occupancy(p, f, smem, size) <= p.maxThreadsPerMultiProcessor
  {
    hide MaxActiveBlocks;
    ActiveBlocksFit(p, f, size, smem(size), MaxActiveBlocks(p, f, size, smem(size)));
  }

  // ----- the search

  function LargestSize(p: Device, f: Attributes): nat {
    Min(p.maxThreadsPerBlock, f.maxThreadsPerBlock)
  }

  /** The sizes the search may look at: the largest one that device and kernel allow, less a number of warps. */
  predicate Candidate(p: Device, f: Attributes, size: int) {
    && 0 < size <= p.maxThreadsPerBlock && size <= f.maxThreadsPerBlock && p.warpSize > 0
    && ((if p.maxThreadsPerBlock < f.maxThreadsPerBlock then p.maxThreadsPerBlock else f.maxThreadsPerBlock) - size)
         % p.warpSize == 0
  }

  /** The search ends with a size; or it reaches a negative size, for which the occupancy calculation divides by zero or
      gives a count. */
  datatype Outcome = Found(size: nat) | DividesByZero(below: int) | GoesOn(below: int)

  /** No candidate has more threads in blocks that fit together than n blocks of the size best, and no larger one as
      many. */
  ghost predicate MostThreads(p: Device, f: Attributes, smem: int -> nat, best: nat, n: nat) {
    forall size: int, m: nat | Candidate(p, f, size) && Fits(p, f, size, smem(size), m) ::
      size * m <= best * n && (size > best ==> size * m < best * n)
  }

  /** best is the largest candidate that keeps most threads active; or it is 0, and no block of any candidate fits. */
  ghost predicate Best(p: Device, f: Attributes, smem: int -> nat, best: nat) {
    if best == 0 then forall size: int, n: nat | Candidate(p, f, size) && Fits(p, f, size, smem(size), n) :: n == 0
    else Candidate(p, f, best)
         && exists n: nat :: n > 0 && Fits(p, f, best, smem(best), n) && MostThreads(p, f, smem, best, n)
  }

  /** Some candidate keeps all threads of the multiprocessor active. */
  ghost predicate FullOccupancy(p: Device, f: Attributes, smem: int -> nat) {
    exists size: int, n: nat ::
      Candidate(p, f, size) && Fits(p, f, size, smem(size), n) && size * n == p.maxThreadsPerMultiProcessor
  }

  /** The same in terms of the computed occupancy. */
  ghost predicate Greatest(p: Device, f: Attributes, smem: int -> nat, best: nat) {
    && p.warpSize > 0
    && (best > 0 ==> Candidate(p, f, best))
    && (forall size | Candidate(p, f, size) ::
          Occupancy(p, f, smem, size) <= if best == 0 then 0 else Occupancy(p, f, smem, best))
    && (best > 0 ==> Occupancy(p, f, smem, best) > 0)
    && (forall size | Candidate(p, f, size) && size > best > 0 ::
          Occupancy(p, f, smem, size) < Occupancy(p, f, smem, best))
  }

  ghost predicate Saturated(p: Device, f: Attributes, smem: int -> nat) {
    p.warpSize > 0 && exists size ::
      Candidate(p, f, size) && Occupancy(p, f, smem, size) == p.maxThreadsPerMultiProcessor
  }

  /** Blocks that fit have at most the computed occupancy. */
  lemma WithinOccupancy(p: Device, f: Attributes, smem: int -> nat, size: nat, n: nat)
    requires p.warpSize > 0 && size > 0 && Fits(p, f, size, smem(size), n)
    ensures size * n <= Occupancy(p, f, smem, size)
    ensures Occupancy(p, f, smem, size) == 0 ==> n == 0
  {
    hide Fits, MaxActiveBlocks;
    ActiveBlocksFit(p, f, size, smem(size), n);
    MulMonotone(n, MaxActiveBlocks(p, f, size, smem(size)), size);
    if n > 0 { MulMonotone(1, n, size); }
  }

  lemma RegsInUse(p: Device, f: Attributes)
    requires p.warpSize > 0
    ensures RegsPerWarp(p, f) > 0 <==> f.numRegs > 0
  {
    hide RegAllocationUnit;
    RoundIsLeast(f.numRegs * p.warpSize, RegAllocationUnit(p, f.numRegs), 0);
    if f.numRegs > 0 { MulMonotone(1, f.numRegs, p.warpSize); } else { RoundUpTo(0, RegAllocationUnit(p, 0), 0); }
  }

  lemma GreatestIsBest(p: Device, f: Attributes, smem: int -> nat, best: nat)
    requires Greatest(p, f, smem, best)
    ensures Best(p, f, smem, best)
  {
    hide Fits, MaxActiveBlocks;
    forall size: int, m: nat | Candidate(p, f, size) && Fits(p, f, size, smem(size), m)
      ensures size * m <= Occupancy(p, f, smem, size)
      ensures Occupancy(p, f, smem, size) == 0 ==> m == 0
    {
      WithinOccupancy(p, f, smem, size, m);
    }
    if best > 0 {
      var n := MaxActiveBlocks(p, f, best, smem(best));
      ActiveBlocksFit(p, f, best, smem(best), n);
      assert MostThreads(p, f, smem, best, n);
    }
  }

  lemma SaturatedIsFull(p: Device, f: Attributes, smem: int -> nat)
    requires p.warpSize > 0
    ensures Saturated(p, f, smem) <==> FullOccupancy(p, f, smem)
  {
    hide Fits, MaxActiveBlocks;
    if Saturated(p, f, smem) {
      var size :| Candidate(p, f, size) && Occupancy(p, f, smem, size) == p.maxThreadsPerMultiProcessor;
      ActiveBlocksFit(p, f, size, smem(size), MaxActiveBlocks(p, f, size, smem(size)));
    }
    if FullOccupancy(p, f, smem) {
      var size: int, n: nat :| Candidate(p, f, size) && Fits(p, f, size, smem(size), n)
        && size * n == p.maxThreadsPerMultiProcessor;
      WithinOccupancy(p, f, smem, size, n);
      OccupancyBound(p, f, smem, size);
    }
  }

  /** When the warp size divides the largest size, the candidates are the multiples of the warp size. */
  lemma CandidatesAreWarps(p: Device, f: Attributes, size: int)
    requires p.warpSize > 0 && LargestSize(p, f) % p.warpSize == 0
    ensures Candidate(p, f, size) <==> 0 < size <= LargestSize(p, f) && size % p.warpSize == 0
  {
    SameRemainder(LargestSize(p, f), size, p.warpSize);
  }

  lemma SameRemainder(a: int, b: int, w: nat)
    requires w > 0
    ensures (a - b) % w == 0 <==> a % w == b % w
  {
    var q, r := a / w - b / w, a % w - b % w;
    assert a == (a / w) * w + a % w && b == (b / w) * w + b % w;
    assert a - b == q * w + r;
    if r >= 0 {
      ModUnique(a - b, w, q, r);
    } else {
      assert (q - 1) * w == q * w - w;
      ModUnique(a - b, w, q - 1, r + w);
    }
  }

  lemma NoneBetween(largest: int, size: int, c: int, w: nat)
    requires w > 0 && (largest - size) % w == 0 && (largest - c) % w == 0 && c < size
    ensures c <= size - w
  {
    SameRemainder(largest, size, w);
    SameRemainder(largest, c, w);
    SameRemainder(size, c, w);
    if c > size - w { ModUnique(size - c, w, 0, size - c); }
  }

  lemma OneWarpLess(largest: int, size: int, w: nat)
    requires w > 0 && (largest - size) % w == 0
    ensures (largest - (size - w)) % w == 0
  {
    var q := (largest - size) / w;
    assert (q + 1) * w == q * w + w;
    ModUnique(largest - (size - w), w, q + 1, 0);
  }

  /** The search so far: best is the best of the candidates above size, and none of them has full occupancy. */
  ghost predicate SearchedTo(p: Device, f: Attributes, smem: int -> nat, size: int, best: nat, highest: nat) {
    && p.warpSize > 0 && (LargestSize(p, f) - size) % p.warpSize == 0 && size <= LargestSize(p, f)
    && (best > 0 ==> Candidate(p, f, best) && best > size)
    && highest == (if best == 0 then 0 else Occupancy(p, f, smem, best)) && (best > 0 ==> highest > 0)
    && (forall c | Candidate(p, f, c) && c > size ::
          Occupancy(p, f, smem, c) <= highest && Occupancy(p, f, smem, c) != p.maxThreadsPerMultiProcessor)
    && (forall c | Candidate(p, f, c) && c > best > 0 :: Occupancy(p, f, smem, c) < highest)
  }

  /** Looking at one more candidate. */
  lemma SearchNext(p: Device, f: Attributes, smem: int -> nat, size: nat, best: nat, highest: nat)
    requires size > 0 && SearchedTo(p, f, smem, size, best, highest)
    ensures Candidate(p, f, size)
    ensures var occupancy := Occupancy(p, f, smem, size);
      var best' := if occupancy > highest then size else best;
      var highest' := if occupancy > highest then occupancy else highest;
      if highest' == p.maxThreadsPerMultiProcessor then Greatest(p, f, smem, best') && Saturated(p, f, smem)
      else SearchedTo(p, f, smem, size - p.warpSize, best', highest')
  {
    hide Occupancy;
    var occupancy := Occupancy(p, f, smem, size);
    OccupancyBound(p, f, smem, size);
    if best > 0 { OccupancyBound(p, f, smem, best); }
    if (if occupancy > highest then occupancy else highest) == p.maxThreadsPerMultiProcessor {
      forall c | Candidate(p, f, c)
        ensures Occupancy(p, f, smem, c) <= p.maxThreadsPerMultiProcessor
      {
        OccupancyBound(p, f, smem, c);
      }
      forall c | Candidate(p, f, c) && c > size
        ensures Occupancy(p, f, smem, c) <= highest
      {
      }
    } else {
      OneWarpLess(LargestSize(p, f), size, p.warpSize);
      forall c | Candidate(p, f, c) && c > size - p.warpSize
        ensures c >= size
      {
        if c < size { NoneBetween(LargestSize(p, f), size, c, p.warpSize); }
      }
    }
  }

  /** Below zero no candidates are left. */
  lemma SearchEnds(p: Device, f: Attributes, smem: int -> nat, size: int, best: nat, highest: nat)
    requires size <= 0 && SearchedTo(p, f, smem, size, best, highest)
    ensures Greatest(p, f, smem, best) && !Saturated(p, f, smem)
    ensures size + p.warpSize > 0 ==> (size == 0 <==> LargestSize(p, f) % p.warpSize == 0)
    ensures size < 0 < size + p.warpSize ==> size == LargestSize(p, f) % p.warpSize - p.warpSize
  {
    hide Occupancy;
    if size + p.warpSize > 0 { ZeroOrMissed(LargestSize(p, f), size, p.warpSize); }
  }

  lemma ZeroOrMissed(largest: int, size: int, w: nat)
    requires size <= 0 < size + w && (largest - size) % w == 0
    ensures size == 0 <==> largest % w == 0
    ensures size < 0 ==> size == largest % w - w
  {
    SameRemainder(largest, size, w);
    if size == 0 { ModUnique(size, w, 0, 0); } else { ModUnique(size, w, -1, size + w); }
  }

  // ----- below zero

  /** The operator / of C. */
  function Truncated(x: int, y: int): int
    requires y != 0
  {
    if x >= 0 then (if y > 0 then x / y else -(x / -y)) else (if y > 0 then -(-x / y) else -x / -y)
  }

  datatype Count = DivisionByZero | Blocks(n: int)

  function MinInt(a: int, b: int): int {
    if b < a then b else a
  }

  function CodeWarps(p: Device, size: int): int
    requires p.warpSize > 0
  {
    var m := WarpAllocationMultiple(p);
    m * Truncated(Truncated(size + (p.warpSize - 1), p.warpSize) + (m - 1), m)
  }

  /** max_active_blocks_per_multiprocessor on any size but zero. */
  function CodeActiveBlocks(p: Device, f: Attributes, size: int, smem: nat): Count
    requires p.warpSize > 0 && size != 0
  {
    var limitThreads := if size <= p.maxThreadsPerBlock then Truncated(p.maxThreadsPerMultiProcessor, size) else 0;
    var limitSmem := if SmemPerBlock(p, f, smem) > 0 then p.sharedMemPerBlock / SmemPerBlock(p, f, smem)
      else MaxBlocks(p);
    var unit, warps := RegAllocationUnit(p, f.numRegs), CodeWarps(p, size);
    var regsPerBlock := unit * Truncated(f.numRegs * p.warpSize * warps + (unit - 1), unit);
    if p.major > 1 && RegsPerWarp(p, f) > 0 && warps == 0 then DivisionByZero else
      var limitRegs :=
        if p.major <= 1 then
          if regsPerBlock > 0 then Truncated(p.regsPerBlock, regsPerBlock) else MaxBlocks(p)
        else
          if RegsPerWarp(p, f) > 0 then Truncated(WarpsOnSides(p, RegsPerWarp(p, f)), warps) else MaxBlocks(p);
      Blocks(MinInt(limitRegs, MinInt(limitSmem, MinInt(limitThreads, MaxBlocks(p)))))
  }

  /** On sizes above zero it is the number of blocks that fit. */
  lemma CodeAboveZero(p: Device, f: Attributes, size: nat, smem: nat)
    requires p.warpSize > 0 && size > 0
    ensures CodeActiveBlocks(p, f, size, smem) == Blocks(MaxActiveBlocks(p, f, size, smem))
  {
    hide SmemPerBlock, RegsPerWarp, WarpsOnSides, MaxBlocks, RegAllocationUnit;
    WarpsAgree(p, size);
    RegsAgree(p, f, size);
  }

  lemma WarpsAgree(p: Device, size: nat)
    requires p.warpSize > 0 && size > 0
    ensures CodeWarps(p, size) == Warps(p, size)
  {
  }

  lemma RegsAgree(p: Device, f: Attributes, size: nat)
    requires p.warpSize > 0 && size > 0
    ensures var unit := RegAllocationUnit(p, f.numRegs);
      unit * Truncated(f.numRegs * p.warpSize * Warps(p, size) + (unit - 1), unit) == RegsPerBlock(p, f, size)
  {
  }

  /** The first size below zero has no warps. With registers in use on capability 2 or higher the calculation then
      divides by zero; otherwise it gives a count that is not positive, so that size and count multiply to an occupancy
      like that of the size without its sign. */
  lemma FirstBelowZero(p: Device, f: Attributes, size: int, smem: nat)
    requires size < 0 < size + p.warpSize
    ensures CodeWarps(p, size) == 0
    ensures CodeActiveBlocks(p, f, size, smem) ==
      if p.major > 1 && RegsPerWarp(p, f) > 0 then DivisionByZero
      else Blocks(-(p.maxThreadsPerMultiProcessor / -size))
  {
    hide SmemPerBlock, RegsPerWarp, WarpsOnSides, MaxBlocks, RegAllocationUnit, CodeWarps, Truncated;
    NoWarps(p, size);
    NoRegs(f.numRegs * p.warpSize, RegAllocationUnit(p, f.numRegs));
    TruncatedBelow(p.maxThreadsPerMultiProcessor, size);
    if SmemPerBlock(p, f, smem) > 0 { NotNegative(p.sharedMemPerBlock, SmemPerBlock(p, f, smem)); }
    assert MaxBlocks(p) >= 0;
  }

  lemma NoWarps(p: Device, size: int)
    requires size < 0 < size + p.warpSize
    ensures CodeWarps(p, size) == 0
  {
    ModUnique(size + (p.warpSize - 1), p.warpSize, 0, size + (p.warpSize - 1));
  }

  lemma NoRegs(regs: nat, unit: nat)
    requires unit > 0
    ensures unit * Truncated(regs * 0 + (unit - 1), unit) == 0
  {
    ModUnique(unit - 1, unit, 0, unit - 1);
  }

  lemma TruncatedBelow(x: nat, size: int)
    requires size < 0
    ensures Truncated(x, size) == -(x / -size) <= 0
  {
    NotNegative(x, -size);
  }

  lemma NotNegative(x: nat, y: nat)
    requires y > 0
    ensures x / y >= 0
  {
  }

  /** default_block_size. It finds the largest candidate of greatest occupancy. Unless the warp size divides the
      largest size or some candidate has full occupancy, the countdown misses zero; the first size below zero makes it
      divide by zero if registers are in use on capability 2 or higher, and otherwise it goes on with negative sizes. */
  method DefaultBlockSize(p: Device, f: Attributes, smem: int -> nat) returns (r: Outcome)
    requires p.warpSize > 0
    ensures r.Found? ==> Best(p, f, smem, r.size)
    ensures !r.Found? <==> LargestSize(p, f) % p.warpSize != 0 && !FullOccupancy(p, f, smem)
    ensures !r.Found? ==> r.below == LargestSize(p, f) % p.warpSize - p.warpSize < 0
    ensures !r.Found? ==> (r.DividesByZero? <==> p.major > 1 && f.numRegs > 0)
  {
    hide Occupancy, SearchedTo, Greatest, Saturated, Best, FullOccupancy, CodeActiveBlocks, RegsPerWarp, LargestSize;
    var maxOccupancy, granularity := p.maxThreadsPerMultiProcessor, p.warpSize;
    var maxBlocksize: nat, highestOccupancy: nat := 0, 0;
    var blocksize: int := LargestSize(p, f);
    SearchStarts(p, f, smem);
    SaturatedIsFull(p, f, smem);
    RegsInUse(p, f);
    while blocksize != 0
      invariant blocksize >= 0 && SearchedTo(p, f, smem, blocksize, maxBlocksize, highestOccupancy)
      decreases blocksize
    {
      SearchNext(p, f, smem, blocksize, maxBlocksize, highestOccupancy);
      var occupancy := Occupancy(p, f, smem, blocksize);
      if occupancy > highestOccupancy {
        maxBlocksize := blocksize;
        highestOccupancy := occupancy;
      }
      // nothing can be better than all threads
      if highestOccupancy == maxOccupancy {
        GreatestIsBest(p, f, smem, maxBlocksize);
        return Found(maxBlocksize);
      }
      blocksize := blocksize - granularity;
      if blocksize < 0 {
        SearchEnds(p, f, smem, blocksize, maxBlocksize, highestOccupancy);
        FirstBelowZero(p, f, blocksize, smem(blocksize));
        match CodeActiveBlocks(p, f, blocksize, smem(blocksize))
        case DivisionByZero => return DividesByZero(blocksize);
        case Blocks(_) => return GoesOn(blocksize);
      }
    }
    SearchEnds(p, f, smem, blocksize, maxBlocksize, highestOccupancy);
    GreatestIsBest(p, f, smem, maxBlocksize);
    return Found(maxBlocksize);
  }

  /** A device of capability 3 with 1024 threads a block and 2048 on a multiprocessor, and a kernel of 32 registers a
      thread that is limited to 1000 threads a block. */
  const DEVICE := Device(3, 0, 32, 1024, 2048, 49152, 65536)
  const KERNEL := Attributes(1000, 32, 0)

  /** For it the search misses zero and divides by zero: the candidates are 8 modulo 32, so none of them divides 2048
      into at most 16 blocks. */
  lemma SearchFails(smem: int -> nat)
    ensures LargestSize(DEVICE, KERNEL) % DEVICE.warpSize != 0 && !FullOccupancy(DEVICE, KERNEL, smem)
    ensures DEVICE.major > 1 && KERNEL.numRegs > 0
  {
    hide Fits;
    forall size: int, n: nat | Candidate(DEVICE, KERNEL, size) && Fits(DEVICE, KERNEL, size, smem(size), n)
      ensures size * n != 2048
    {
      CandidateOfThousand(size);
      AtMostSixteen(size, smem(size), n);
      NoFactor(size, n);
    }
  }

  lemma CandidateOfThousand(size: int)
    requires Candidate(DEVICE, KERNEL, size)
    ensures 0 < size <= 1000 && (1000 - size) % 32 == 0
  {
  }

  lemma AtMostSixteen(size: nat, smem: nat, n: nat)
    requires Fits(DEVICE, KERNEL, size, smem, n)
    ensures n <= 16
  {
    hide SmemFits, HoldsThreads, BlockRegsFit, WarpRegsFit;
  }

  lemma NoFactor(size: nat, n: nat)
    requires (1000 - size) % 32 == 0 && size <= 1000 && n <= 16
    ensures size * n != 2048
  {
    var k := (1000 - size) / 32;
    assert size == 1000 - 32 * k && size % 32 == 8;
  }

  lemma SearchStarts(p: Device, f: Attributes, smem: int -> nat)
    requires p.warpSize > 0
    ensures SearchedTo(p, f, smem, LargestSize(p, f), 0, 0)
  {
  }
}
