/** The model-fit estimate: whether a model of a given size fits a machine. Sizes are bytes, in exact arithmetic. */
module ModelFit {
  import opened Common

  const GIB := 1024 * 1024 * 1024

  datatype Hardware = Hardware(
    totalRam: nat, availableRam: nat, diskFree: Option<nat>, gpuVram: nat, unifiedMemory: bool, localRuntime: bool)

  datatype Verdict = Unknown | Insufficient | Tight | Fits

  function Ceil(x: real): int { -((-x).Floor) }

  /** The memory the estimate asks for. */
  function Required(size: nat): int { Ceil(size as real * 1.25 + 0.75 * GIB as real) }

  function DiskNeeded(size: nat): int { Ceil(size as real * 1.2) }

  function RMax(a: real, b: real): real { if a >= b then a else b }

  function RMin(a: real, b: real): real { if a <= b then a else b }

  /** What is kept free for the rest of the system. */
  function Reserve(h: Hardware): real { RMax(0.75 * GIB as real, RMin(2.0 * GIB as real, h.totalRam as real * 0.15)) }

  function Budget(h: Hardware): real { RMax(0.0, h.totalRam as real - Reserve(h)) }

  function DedicatedVram(h: Hardware): nat { if h.unifiedMemory then 0 else h.gpuVram }

  /** The model fits into dedicated video memory. */
  predicate OnGpu(size: nat, h: Hardware) { DedicatedVram(h) >= Required(size) }

  /** The system memory the model will take. */
  function Load(size: nat, h: Hardware): int { if OnGpu(size, h) then 2 * GIB else Required(size) }

  /** `compatibility`, its status. */
  function Compatibility(size: nat, h: Hardware): Verdict {
    if !h.localRuntime then Unknown
    else if h.diskFree.Some? && h.diskFree.value < DiskNeeded(size) then Insufficient
    else if Required(size) as real > Budget(h) && !(OnGpu(size, h) && h.totalRam >= 4 * GIB) then Insufficient
    else if Load(size, h) as real > h.availableRam as real - Reserve(h) then Tight
    else Fits
  }

  function Rank(v: Verdict): nat {
    match v
    case Unknown => 0
    case Insufficient => 1
    case Tight => 2
    case Fits => 3
  }

  predicate NoBetter(a: Verdict, b: Verdict) { Rank(a) <= Rank(b) }

  // ----- the estimate in integers -----

  lemma RequiredExact(size: nat)
    ensures Required(size) == (5 * size + 3) / 4 + 805_306_368
  {
    var n := (5 * size + 3) / 4;
    assert size as real * 1.25 == (5 * size) as real / 4.0;
    assert 4 * n >= 5 * size > 4 * n - 4;
    assert n as real >= size as real * 1.25 > n as real - 1.0;
    assert 0.75 * GIB as real == 805_306_368.0;
  }

  lemma DiskNeededExact(size: nat)
    ensures DiskNeeded(size) == (6 * size + 4) / 5
  {
    var n := (6 * size + 4) / 5;
    assert 5 * n >= 6 * size > 5 * n - 5;
    assert n as real >= size as real * 1.2 > n as real - 1.0;
  }

  /** The reserve is 15% of the memory, but 0.75 GiB for a machine of at most 5 GiB and 2 GiB for one of at least 13 1/3. */
  lemma ReserveExact(h: Hardware)
    ensures h.totalRam <= 5_368_709_120 ==> Reserve(h) == 805_306_368.0
    ensures 3 * h.totalRam >= 42_949_672_960 ==> Reserve(h) == 2_147_483_648.0
    ensures h.totalRam >= 5_368_709_120 && 3 * h.totalRam <= 42_949_672_960 ==>
              20.0 * Reserve(h) == 3.0 * h.totalRam as real
    ensures 805_306_368.0 <= Reserve(h) <= 2_147_483_648.0
  {
    assert 20.0 * (h.totalRam as real * 0.15) == 3.0 * h.totalRam as real;
  }

  // ----- size -----

  /** The smallest size that no longer fits into `v` bytes of video memory. */
  function FirstBeyond(v: nat): nat
    requires v >= 805_306_368
  {
    4 * (v - 805_306_368) / 5 + 1
  }

  lemma FirstBeyondIsFirst(v: nat, size: nat)
    requires v >= 805_306_368
    ensures Required(size) > v <==> size >= FirstBeyond(v)
  {
    RequiredExact(size);
  }

  /**
   The hardware on which a larger model can get a better verdict: dedicated video memory for some model but less than 2
   GiB, less than 2 GiB of usable memory, yet enough of everything for the smallest model that exceeds the video memory.
   */
  predicate Inverts(h: Hardware) {
    var v := DedicatedVram(h);
    var usable := h.availableRam as real - Reserve(h);
    && h.localRuntime && v >= Required(1) && usable < 2.0 * GIB as real
    && var d := FirstBeyond(v);
       && Required(d) as real <= usable && Required(d) as real <= Budget(h)
       && (h.diskFree.Some? ==> h.diskFree.value >= DiskNeeded(d))
  }

  /** Sizes are positive: the catalog takes no model of less than one byte. */
  ghost predicate LargerNeverBetter(h: Hardware) {
    forall a: nat, b: nat :: 1 <= a <= b ==> NoBetter(Compatibility(b, h), Compatibility(a, h))
  }

  lemma MonotoneNeeds(a: nat, b: nat)
    requires a <= b
    ensures Required(a) <= Required(b) && DiskNeeded(a) <= DiskNeeded(b)
  {
    RequiredExact(a);
    RequiredExact(b);
    DiskNeededExact(a);
    DiskNeededExact(b);
  }

  lemma NotInvertedPair(a: nat, b: nat, h: Hardware)
    requires 1 <= a <= b && !Inverts(h)
    ensures NoBetter(Compatibility(b, h), Compatibility(a, h))
  {
    MonotoneNeeds(a, b);
    MonotoneNeeds(1, a);
    RequiredExact(1);
    var v := DedicatedVram(h);
    if OnGpu(a, h) && !OnGpu(b, h) {
      FirstBeyondIsFirst(v, b);
      MonotoneNeeds(FirstBeyond(v), b);
    }
  }

  /** On fixed hardware a larger model never gets a better verdict, if and only if the hardware is not of that kind. */
  lemma LargerNeverBetterIff(h: Hardware)
    ensures LargerNeverBetter(h) <==> !Inverts(h)
  {
    if Inverts(h) {
      var v := DedicatedVram(h);
      var d := FirstBeyond(v);
      RequiredExact(1);
      FirstBeyondIsFirst(v, 1);
      FirstBeyondIsFirst(v, d);
      MonotoneNeeds(1, d);
      assert Compatibility(d, h) == Fits && Compatibility(1, h) == Tight;
      assert !NoBetter(Compatibility(d, h), Compatibility(1, h));
    } else {
      forall a: nat, b: nat | 1 <= a <= b ensures NoBetter(Compatibility(b, h), Compatibility(a, h)) {
        NotInvertedPair(a, b, h);
      }
    }
  }

  /** In particular without dedicated video memory, or with at least 2 GiB of it. */
  lemma PlainHardwareNeverInverts(h: Hardware)
    requires DedicatedVram(h) == 0 || DedicatedVram(h) >= 2 * GIB
    ensures LargerNeverBetter(h)
  {
    if DedicatedVram(h) >= 2 * GIB {
      FirstBeyondIsFirst(DedicatedVram(h), FirstBeyond(DedicatedVram(h)));
    }
    LargerNeverBetterIff(h);
  }

  // ----- memory and disk -----

  /** More available memory, or more known free disk space, never worsens a verdict. */
  lemma MoreNeverWorse(size: nat, h: Hardware, available: nat, disk: Option<nat>)
    requires available >= h.availableRam
    requires disk.Some? == h.diskFree.Some? && (disk.Some? ==> disk.value >= h.diskFree.value)
    ensures NoBetter(Compatibility(size, h), Compatibility(size, h.(availableRam := available, diskFree := disk)))
  {
    assert Reserve(h.(availableRam := available, diskFree := disk)) == Reserve(h);
    assert Budget(h.(availableRam := available, diskFree := disk)) == Budget(h);
  }

  // ----- the verdict in closed form -----

  /** The largest size whose memory estimate is at most `x` bytes; negative if there is none. */
  function Capacity(x: real): int { 4 * (x.Floor - 805_306_368) / 5 }

  /** The largest size that is not insufficient; negative if every size is. */
  function PossibleUpTo(h: Hardware): int {
    var memory := Max(Capacity(Budget(h)), if h.totalRam >= 4 * GIB then Capacity(DedicatedVram(h) as real) else -1);
    if h.diskFree.Some? then Min(5 * h.diskFree.value / 6, memory) else memory
  }

  /** The available memory that a model may take. */
  function Usable(h: Hardware): real { h.availableRam as real - Reserve(h) }

  /** The smallest size that fits: with little usable memory nothing that goes to video memory does. */
  function FitsFrom(h: Hardware): nat {
    if Usable(h) < 2.0 * GIB as real && DedicatedVram(h) >= 805_306_368 then FirstBeyond(DedicatedVram(h)) else 0
  }

  /** The largest size that fits; negative, or below the smallest, if none does. */
  function FitsUpTo(h: Hardware): int {
    Min(PossibleUpTo(h),
        if Usable(h) < 2.0 * GIB as real then Capacity(Usable(h))
        else Max(Capacity(DedicatedVram(h) as real), Capacity(Usable(h))))
  }

  lemma CapacityExact(size: nat, x: real)
    ensures Required(size) as real <= x <==> size <= Capacity(x)
  {
    RequiredExact(size);
    assert Required(size) as real <= x <==> Required(size) <= x.Floor;
  }

  lemma DiskCapacityExact(size: nat, d: nat)
    ensures DiskNeeded(size) <= d <==> size <= 5 * d / 6
  {
    DiskNeededExact(size);
  }

  /** On every local machine the sizes that are insufficient are exactly those above one closed bound. */
  lemma InsufficientAbove(size: nat, h: Hardware)
    requires h.localRuntime
    ensures Compatibility(size, h) == Insufficient <==> size > PossibleUpTo(h)
  {
    CapacityExact(size, Budget(h));
    CapacityExact(size, DedicatedVram(h) as real);
    if h.diskFree.Some? {
      DiskCapacityExact(size, h.diskFree.value);
    }
  }

  /** On every local machine the sizes that fit are exactly an interval between two closed bounds. */
  lemma FitsBetween(size: nat, h: Hardware)
    requires h.localRuntime
    ensures Compatibility(size, h) == Fits <==> FitsFrom(h) <= size <= FitsUpTo(h)
  {
    InsufficientAbove(size, h);
    CapacityExact(size, Usable(h));
    CapacityExact(size, DedicatedVram(h) as real);
    if DedicatedVram(h) >= 805_306_368 {
      FirstBeyondIsFirst(DedicatedVram(h), size);
    } else {
      RequiredExact(size);
    }
  }

  /** The verdict on every machine and every size, by closed bounds. */
  lemma VerdictExact(size: nat, h: Hardware)
    ensures Compatibility(size, h) ==
              if !h.localRuntime then Unknown
              else if size > PossibleUpTo(h) then Insufficient
              else if FitsFrom(h) <= size <= FitsUpTo(h) then Fits
              else Tight
  {
    if h.localRuntime {
      InsufficientAbove(size, h);
      FitsBetween(size, h);
    }
  }

  /** The inverting hardware is that on which the interval is not empty and leaves out the smallest model. */
  lemma InvertsIff(h: Hardware)
    requires h.localRuntime
    ensures Inverts(h) <==> 1 < FitsFrom(h) <= FitsUpTo(h)
  {
    RequiredExact(1);
    if FitsFrom(h) > 1 {
      var d := FirstBeyond(DedicatedVram(h));
      FitsBetween(d, h);
      FirstBeyondIsFirst(DedicatedVram(h), d);
    }
  }

  /** There is such hardware: 8 GiB of memory, 3 GiB of it available, and a video card with 1 GiB. */
  lemma InvertingHardware()
    ensures Inverts(Hardware(8 * GIB, 3 * GIB, None, GIB, false, true))
    ensures !LargerNeverBetter(Hardware(8 * GIB, 3 * GIB, None, GIB, false, true))
  {
    RequiredExact(FirstBeyond(GIB));
    LargerNeverBetterIff(Hardware(8 * GIB, 3 * GIB, None, GIB, false, true));
  }

  /** Without enough video memory, "fits" means that available memory covers the requirement and 0.75 to 2 GiB more. */
  lemma FitsOnCpuHasReserve(size: nat, h: Hardware)
    requires Compatibility(size, h) == Fits && !OnGpu(size, h)
    ensures Required(size) as real + Reserve(h) <= h.availableRam as real
    ensures 0.75 * GIB as real <= Reserve(h) <= 2.0 * GIB as real
  {
    ReserveExact(h);
  }
}
