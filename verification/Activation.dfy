/**
 Activation and deactivation: a two-mode machine that stashes the run-time options, switches the
 heap to its cheapest configuration and later restores everything, re-poisoning the heap.
 */
module Activation {
  import opened Words
  import opened Layout
  import opened Chunks
  import opened Machine
  import opened Invariant
  import opened Sweep
  import opened Reactivation
  import AsanAllocator

  const U8: nat := 0x100
  const U16: nat := 0x1_0000
  const MB: nat := 0x10_0000
  const KB: nat := 0x400

  type u8 = x: int | 0 <= x < U8
  type u16 = x: int | 0 <= x < U16
  type s32 = x: int | -0x8000_0000 <= x < 0x8000_0000

  /** Conversions between C integer types. */
  function ToS32(x: u32): s32 { if x < 0x8000_0000 then x else x - 0x1_0000_0000 }
  function ToU32(x: s32): u32 { if x >= 0 then x else x + 0x1_0000_0000 }
  function ToU16(x: s32): u16 { ToU32(x) % U16 }
  function ToByte(b: bool): u8 { if b then 1 else 0 }

  // --------------------------------------------------------------------- options

  /** `AllocatorOptions`. */
  datatype Options = Options(
    quarantineMb: u32, cacheKb: u32, minRedzone: u16, maxRedzone: u16,
    mayReturnNull: u8, mismatch: u8, releaseMs: s32)

  /** The same settings as the running allocator keeps them. */
  datatype Settings = Settings(
    maxSize: u64, maxCacheSize: u64, rz: Redzones, mayReturnNull: bool, mismatch: u8, releaseMs: s32)

  /** The activation flags as the flag parser sees them. */
  datatype FlagSet = FlagSet(
    quarantineMb: s32, cacheKb: s32, redzone: s32, maxRedzone: s32, mayReturnNull: bool, mismatch: bool,
    releaseMs: s32, contextSize: s32, poisonHeap: bool)

  /** `CheckOptions`, and the CHECK in `Quarantine::Init`. */
  ghost predicate Accepted(o: Options) {
    && CheckRedzones(Redzones(o.minRedzone, o.maxRedzone))
    && ((o.quarantineMb == 0 && o.cacheKb == 0) || o.cacheKb != 0)
  }

  /** `ApplyOptions` with `SharedInitCode`. */
  function Applied(o: Options): Settings {
    Settings(o.quarantineMb * MB, o.cacheKb * KB, Redzones(o.minRedzone, o.maxRedzone), o.mayReturnNull != 0, o.mismatch, o.releaseMs)
  }

  /** `GetOptions`. */
  function GetOptions(s: Settings): Options {
    Options(s.maxSize / MB % U32, s.maxCacheSize / KB % U32, s.rz.min % U16, s.rz.max % U16,
            ToByte(s.mayReturnNull), s.mismatch, s.releaseMs)
  }

  /** `AllocatorOptions::CopyTo`, with the rest of the stash. */
  function CopyTo(o: Options, contextSize: s32, poisonHeap: bool): FlagSet {
    FlagSet(ToS32(o.quarantineMb), ToS32(o.cacheKb), o.minRedzone, o.maxRedzone, o.mayReturnNull != 0, o.mismatch != 0,
            o.releaseMs, contextSize, poisonHeap)
  }

  /** `AllocatorOptions::SetFrom`. */
  function SetFrom(f: FlagSet): Options {
    Options(ToU32(f.quarantineMb), ToU32(f.cacheKb), ToU16(f.redzone), ToU16(f.maxRedzone), ToByte(f.mayReturnNull),
            ToByte(f.mismatch), f.releaseMs)
  }

  /** Reading back options that were applied gives them again exactly when the boolean one was 0 or 1. */
  lemma OptionsRoundTripIff(o: Options)
    ensures GetOptions(Applied(o)) == o <==> o.mayReturnNull <= 1
  {
    assert o.quarantineMb * MB / MB == o.quarantineMb;
    assert o.cacheKb * KB / KB == o.cacheKb;
  }

  /** Going through the flags and back does so exactly when both boolean options were 0 or 1. */
  lemma FlagsRoundTripIff(o: Options, contextSize: s32, poisonHeap: bool)
    ensures SetFrom(CopyTo(o, contextSize, poisonHeap)) == o <==> o.mayReturnNull <= 1 && o.mismatch <= 1
  {
  }

  // ---------------------------------------------------------------- mode machine

  datatype Stash = Stash(options: Options, contextSize: s32, poisonHeap: bool)

  datatype Mode = Mode(settings: Settings, on: bool, contextSize: u32, stash: Stash, deactivated: bool)

  /** The settings are what some flags, accepted as options, were applied as: all options come from flags. */
  ghost predicate Configured(s: Settings) {
    exists f: FlagSet :: Accepted(SetFrom(f)) && s == Applied(SetFrom(f))
  }

  function Disabled(o: Options): Options {
    o.(quarantineMb := 0, cacheKb := 0, minRedzone := 16, maxRedzone := 16, mismatch := 0, mayReturnNull := 1)
  }

  /** `AsanDeactivate`. */
  function Deactivated(m: Mode): Mode {
    var o := GetOptions(m.settings);
    Mode(Applied(Disabled(o)), false, 1, Stash(o, ToS32(m.contextSize), m.on), true)
  }

  /** The flags after `OverrideFromActivationFlags`; `env` is what the environment makes of them. */
  function Overridden(stash: Stash, env: Option<FlagSet>): FlagSet {
    if env.Some? then env.value else CopyTo(stash.options, stash.contextSize, stash.poisonHeap)
  }

  /** `AsanActivate`. */
  function Activated(m: Mode, env: Option<FlagSet>): Mode {
    if !m.deactivated then m
    else
      var f := Overridden(m.stash, env);
      Mode(Applied(SetFrom(f)), f.poisonHeap, ToU32(f.contextSize), Stash(SetFrom(f), f.contextSize, f.poisonHeap), false)
  }

  /** The settings that flags ask for, field by field: sizes in bytes, conversions modulo 2^32 and 2^16. */
  predicate Follows(s: Settings, f: FlagSet) {
    && s.maxSize == f.quarantineMb % 0x1_0000_0000 * 0x10_0000 && s.maxCacheSize == f.cacheKb % 0x1_0000_0000 * 0x400
    && s.rz.min == f.redzone % 0x1_0000 && s.rz.max == f.maxRedzone % 0x1_0000
    && s.mayReturnNull == f.mayReturnNull && s.mismatch == (if f.mismatch then 1 else 0) && s.releaseMs == f.releaseMs
  }

  /** The settings that options in the stash stand for. */
  predicate Means(o: Options, s: Settings) {
    && s.maxSize == o.quarantineMb * 0x10_0000 && s.maxCacheSize == o.cacheKb * 0x400
    && s.rz == Redzones(o.minRedzone, o.maxRedzone)
    && s.mayReturnNull == (o.mayReturnNull != 0) && (s.mismatch != 0 <==> o.mismatch != 0) && s.releaseMs == o.releaseMs
  }

  /** The cheapest configuration: no quarantine, no cache, the smallest redzones, null on failure, no mismatch reports. */
  predicate Cheapest(s: Settings) {
    s.maxSize == 0 && s.maxCacheSize == 0 && s.rz == Redzones(16, 16) && s.mayReturnNull && s.mismatch == 0
  }

  /** The CHECKs on options, said of the flags they come from. */
  lemma AcceptedIff(f: FlagSet)
    ensures Accepted(SetFrom(f)) <==>
              RedzonesAccepted(f.redzone % 0x1_0000, f.maxRedzone % 0x1_0000) && (f.quarantineMb == 0 || f.cacheKb != 0)
  {
    FlagFields(f, SetFrom(f));
    RedzonesAcceptedIff(SetFrom(f).minRedzone, SetFrom(f).maxRedzone);
  }

  lemma FlagFields(f: FlagSet, o: Options)
    requires o == SetFrom(f)
    ensures o.minRedzone == f.redzone % 0x1_0000 && o.maxRedzone == f.maxRedzone % 0x1_0000
    ensures (o.quarantineMb == 0 <==> f.quarantineMb == 0) && (o.cacheKb == 0 <==> f.cacheKb == 0)
  {
  }

  /** Both are among the eight powers of two from 16 to 2048, in order. */
  predicate RedzonesAccepted(lo: nat, hi: nat) {
    lo <= hi && lo in PowersTo2048() && hi in PowersTo2048()
  }

  lemma RedzonesAcceptedIff(lo: nat, hi: nat)
    ensures CheckRedzones(Redzones(lo, hi)) <==> RedzonesAccepted(lo, hi)
  {
    RedzonePowers(lo);
    RedzonePowers(hi);
  }

  function PowersTo2048(): set<nat> {
    {16, 32, 64, 128, 256, 512, 1024, 2048}
  }

  lemma AppliedFollows(f: FlagSet)
    ensures Follows(Applied(SetFrom(f)), f)
  {
  }

  /** Options read from settings that came from flags mean those settings ... */
  lemma StashMeans(s: Settings)
    requires Configured(s)
    ensures Means(GetOptions(s), s)
  {
    var f: FlagSet :| Accepted(SetFrom(f)) && s == Applied(SetFrom(f));
    OptionsRoundTripIff(SetFrom(f));
  }

  /** ... and going through the flags without an override leaves the meaning alone. */
  lemma ResumedMeans(o: Options, contextSize: s32, poisonHeap: bool)
    ensures Means(o, Applied(SetFrom(CopyTo(o, contextSize, poisonHeap))))
  {
  }

  lemma DisabledIsCheapest(o: Options)
    ensures Cheapest(Applied(Disabled(o))) && Applied(Disabled(o)).releaseMs == o.releaseMs
  {
  }

  lemma DisabledAccepted(o: Options)
    ensures Accepted(Disabled(o)) && Configured(Applied(Disabled(o)))
  {
    SixteenIsPower();
    FlagsRoundTripIff(Disabled(o), 0, false);
  }

  lemma SixteenIsPower()
    ensures IsPowerOfTwo(16)
  {
    assert Pow2(4) == 16;
  }

  /** Stashed options go through the flags without loss. */
  lemma StashRestores(s: Settings, contextSize: s32, poisonHeap: bool)
    requires Configured(s)
    ensures var o := SetFrom(CopyTo(GetOptions(s), contextSize, poisonHeap)); Accepted(o) && Applied(o) == s
  {
    var f: FlagSet :| Accepted(SetFrom(f)) && s == Applied(SetFrom(f));
    OptionsRoundTripIff(SetFrom(f));
    FlagsRoundTripIff(SetFrom(f), contextSize, poisonHeap);
  }

  /** One cycle without an override. */
  lemma CycleRestores(m: Mode)
    requires Configured(m.settings)
    ensures Configured(Deactivated(m).settings)
    ensures var m2 := Activated(Deactivated(m), None);
            m2.settings == m.settings && m2.on == m.on && m2.contextSize == m.contextSize && !m2.deactivated
  {
    DisabledAccepted(GetOptions(m.settings));
    StashRestores(m.settings, ToS32(m.contextSize), m.on);
  }

  /** Any number of cycles. */
  function Cycles(m: Mode, n: nat): Mode {
    if n == 0 then m else Activated(Deactivated(Cycles(m, n - 1)), None)
  }

  /**
   Any number of cycles restores the allocator's settings, the poisoning flag and the context size
   exactly; the options applied on the way are accepted by the allocator.
   */
  lemma {:induction false} CyclesRestore(m: Mode, n: nat)
    requires Configured(m.settings)
    ensures Cycles(m, n).settings == m.settings && Cycles(m, n).on == m.on && Cycles(m, n).contextSize == m.contextSize
    ensures n > 0 ==> !Cycles(m, n).deactivated
    ensures Configured(Deactivated(Cycles(m, n)).settings)
  {
    if n > 0 {
      CyclesRestore(m, n - 1);
      CycleRestores(Cycles(m, n - 1));
    }
    CycleRestores(Cycles(m, n));
  }

  // --------------------------------------------------------------------- runtime

  class Runtime {
    const heap: AsanAllocator.Allocator
    var settings: Settings
    var contextSize: u32
    var stash: Stash
    var deactivated: bool

    /** The options of a starting runtime come from its flags. */
    constructor (heap: AsanAllocator.Allocator, f: FlagSet, contextSize: u32)
      requires Accepted(SetFrom(f)) && Inv(heap.St())
      requires heap.redzones == Redzones(SetFrom(f).minRedzone, SetFrom(f).maxRedzone)
      ensures Valid() && this.heap == heap
      ensures Now() == Mode(Applied(SetFrom(f)), heap.canPoison, contextSize, Stash(SetFrom(f), 0, false), false)
    {
      var o := SetFrom(f);
      this.heap := heap;
      this.settings, this.contextSize, this.stash, this.deactivated := Applied(o), contextSize, Stash(o, 0, false), false;
    }

    ghost predicate Valid()
      reads this, heap
    {
      && Inv(heap.St()) && heap.redzones == settings.rz && Configured(settings)
      && (deactivated ==> Accepted(SetFrom(Overridden(stash, None))))
    }

    ghost function Now(): Mode
      reads this, heap
    {
      Mode(settings, heap.canPoison, contextSize, stash, deactivated)
    }

    /**
     `AsanDeactivate`, whose first line checks that the runtime is active. Other threads may be
     inside the allocator. The stash keeps what was in force; the cheapest settings take over; the
     heap keeps memory, shadow and blocks.
     */
    method Deactivate()
      requires Valid() && !deactivated
      modifies this, heap
      ensures Valid() && deactivated && Now() == Deactivated(old(Now()))
      ensures Cheapest(settings) && settings.releaseMs == old(settings).releaseMs && contextSize == 1
      ensures Means(stash.options, old(settings)) && stash.poisonHeap == old(heap.canPoison)
      ensures stash.contextSize % 0x1_0000_0000 == old(contextSize)
      ensures !heap.canPoison && heap.redzones == Redzones(16, 16)
      ensures heap.mem == old(heap.mem) && heap.shadow == old(heap.shadow) && heap.blocks == old(heap.blocks)
      ensures Safe(old(heap.St()), ReInit(false, Redzones(16, 16)))
      ensures heap.St() == Apply(old(heap.St()), ReInit(false, Redzones(16, 16)))
    {
      Disable();
      SwitchOff();
      deactivated := true;
    }

    /** Lines 100-115: the options go to the stash, the cheapest ones take their place. */
    method Disable()
      requires Configured(settings)
      modifies this`stash, this`contextSize, this`settings
      ensures stash == Stash(GetOptions(old(settings)), ToS32(old(contextSize)), heap.canPoison) && contextSize == 1
      ensures settings == Applied(Disabled(GetOptions(old(settings)))) && Configured(settings)
      ensures CheckRedzones(settings.rz) && Accepted(SetFrom(Overridden(stash, None)))
      ensures Cheapest(settings) && settings.releaseMs == old(settings).releaseMs && Means(stash.options, old(settings))
      ensures stash.contextSize % 0x1_0000_0000 == old(contextSize)
    {
      var o := GetOptions(settings);
      StashMeans(settings);
      DisabledIsCheapest(o);
      stash := Stash(o, ToS32(contextSize), heap.canPoison);
      contextSize := 1;
      var disabled := o.(quarantineMb := 0, cacheKb := 0, minRedzone := 16, maxRedzone := 16, mismatch := 0, mayReturnNull := 1);
      DisabledAccepted(o);
      StashRestores(settings, stash.contextSize, stash.poisonHeap);
      settings := Applied(disabled);
    }

    /** `ReInitializeAllocator` with these options. */
    method SwitchOff()
      requires Inv(heap.St()) && CheckRedzones(settings.rz)
      modifies heap
      ensures Inv(heap.St()) && heap.St() == Switched(old(heap.St()), false, settings.rz)
      ensures !heap.canPoison && heap.redzones == settings.rz
      ensures heap.mem == old(heap.mem) && heap.shadow == old(heap.shadow) && heap.blocks == old(heap.blocks)
    {
      heap.ReInitialize(false, settings.rz);
    }

    /**
     `AsanActivate`. Without an override the stashed options always pass the allocator's CHECKs;
     with one, `ok` says whether they do, and false stands for the abort.
     */
    method Activate(env: Option<FlagSet>) returns (ok: bool)
      requires Valid()
      modifies this, heap
      ensures ok <==> !old(deactivated) || Accepted(SetFrom(Overridden(old(stash), env)))
      ensures ok ==> Valid() && Now() == Activated(old(Now()), env)
      ensures env.None? ==> ok
      ensures ok && old(deactivated) && env.Some? ==>
                Follows(settings, env.value) && contextSize == env.value.contextSize % 0x1_0000_0000 && heap.canPoison == env.value.poisonHeap
      ensures ok && old(deactivated) && env.None? ==>
                && Means(old(stash).options, settings) && contextSize == old(stash).contextSize % 0x1_0000_0000
                && heap.canPoison == old(stash).poisonHeap
      ensures ok && old(deactivated) ==>
                !deactivated && heap.redzones == settings.rz && heap.mem == old(heap.mem) && heap.blocks == old(heap.blocks)
      ensures !ok || !old(deactivated) ==> heap.St() == old(heap.St())
      ensures ok && old(deactivated) ==>
                && CheckRedzones(Now().settings.rz) && BlocksInMemory(old(heap.St()))
                && heap.St() == ReInitialized(old(heap.St()), Now().on, Now().settings.rz)
      ensures ok && old(deactivated) && Now().on ==> AllReactivated(old(heap.St()), heap.shadow)
    {
      if !deactivated {
        return true;
      }
      var f := Overridden(stash, env);
      if !IsAccepted(SetFrom(f)) {
        return false;
      }
      ResumedMeans(stash.options, stash.contextSize, stash.poisonHeap);
      Resume(f);
      ok := true;
    }

    /** Lines 128-135: everything comes back as the flags say. */
    method Resume(f: FlagSet)
      requires Valid() && Accepted(SetFrom(f))
      modifies this, heap
      ensures Valid()
      ensures Now() == Mode(Applied(SetFrom(f)), f.poisonHeap, ToU32(f.contextSize), Stash(SetFrom(f), f.contextSize, f.poisonHeap), false)
      ensures CheckRedzones(Now().settings.rz) && BlocksInMemory(old(heap.St()))
      ensures heap.St() == ReInitialized(old(heap.St()), f.poisonHeap, Now().settings.rz)
      ensures f.poisonHeap ==> AllReactivated(old(heap.St()), heap.shadow)
      ensures Follows(settings, f) && contextSize == f.contextSize % 0x1_0000_0000 && heap.canPoison == f.poisonHeap
      ensures heap.redzones == settings.rz && heap.mem == old(heap.mem) && heap.blocks == old(heap.blocks)
    {
      TakeFlags(f);
      SwitchTo(f.poisonHeap);
      deactivated := false;
    }

    /** What the flags say becomes the settings, and stays in the stash. */
    method TakeFlags(f: FlagSet)
      modifies this`stash, this`contextSize, this`settings
      ensures stash == Stash(SetFrom(f), f.contextSize, f.poisonHeap)
      ensures settings == Applied(SetFrom(f)) && Follows(settings, f)
      ensures contextSize == ToU32(f.contextSize) == f.contextSize % 0x1_0000_0000
    {
      var o := SetFrom(f);
      stash := Stash(o, f.contextSize, f.poisonHeap);
      contextSize := ToU32(f.contextSize);
      settings := Applied(o);
      AppliedFollows(f);
    }

    /** `ReInitializeAllocator` with the settings, poisoning on or off. */
    method SwitchTo(on: bool)
      requires Inv(heap.St()) && CheckRedzones(settings.rz)
      modifies heap
      ensures BlocksInMemory(old(heap.St())) && heap.St() == ReInitialized(old(heap.St()), on, settings.rz) && Inv(heap.St())
      ensures on ==> AllReactivated(old(heap.St()), heap.shadow)
      ensures heap.canPoison == on && heap.redzones == settings.rz && heap.mem == old(heap.mem) && heap.blocks == old(heap.blocks)
    {
      ghost var before := heap.St();
      heap.ReInitialize(on, settings.rz);
      if on {
        ReactivationRestores(before, settings.rz);
      }
    }
  }

  /** The CHECKs as the allocator computes them. */
  predicate IsAccepted(o: Options)
    ensures IsAccepted(o) <==> Accepted(o)
  {
    RedzonePowers(o.minRedzone);
    RedzonePowers(o.maxRedzone);
    && 16 <= o.minRedzone <= o.maxRedzone <= 2048
    && o.minRedzone in {16, 32, 64, 128, 256, 512, 1024, 2048} && o.maxRedzone in {16, 32, 64, 128, 256, 512, 1024, 2048}
    && (o.quarantineMb == 0 || o.cacheKb != 0)
  }

  lemma RedzonePowers(x: nat)
    ensures 16 <= x <= 2048 ==> (IsPowerOfTwo(x) <==> x in {16, 32, 64, 128, 256, 512, 1024, 2048})
  {
    assert Pow2(4) == 16 && Pow2(5) == 32 && Pow2(6) == 64 && Pow2(7) == 128;
    assert Pow2(8) == 256 && Pow2(9) == 512 && Pow2(10) == 1024 && Pow2(11) == 2048;
    if 16 <= x <= 2048 && IsPowerOfTwo(x) {
      var k: nat :| x == Pow2(k);
      if k < 4 {
        Pow2Monotone(k, 3);
      } else if k > 11 {
        Pow2Monotone(12, k);
      }
    }
  }
}
