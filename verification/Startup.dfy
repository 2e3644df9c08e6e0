/** From pmm_init and paging_init to the first processes. */
module Startup {
  import opened ByteWords
  import opened Tables
  import opened AddressSpaces
  import opened Bitmaps
  import opened Frames
  import opened PageMapping
  import opened Vmm
  import opened Images
  import opened Processes
  import opened BootLayout

  ghost function Now(m: Machine): Memory
    requires m.pmm.Valid()
    reads m, m.pmm, m.pmm.frameBitmap, m.pmm.frameBitmap.storage
  {
    Memory(m.phys, m.spaces, m.owner, m.pmm.Used())
  }

  // ----- How far frames and pages go -----

  /** Frames that the direct map reaches and that are free. */
  ghost function FreeLow(used: set<nat>): set<nat> { set f: nat | f < 2047 && f !in used }

  /** Kernel pages that a search can still find. */
  ghost function Vacancies(m: Phys, k: Kernel): set<(nat, Page)>
    requires k.dir < |m|
  {
    set d: nat, t: nat |
      d < ENTRIES && t < ENTRIES && Searched(Page(d, t)) && Walk(m, k.dir, Page(d, t)) == NotPresent ::
      (k.dir, Page(d, t))
  }

  /** There is more of everything than so many frames and kernel pages. */
  ghost predicate Ample(k: Kernel, b: Memory, frames: nat, pages: nat)
    requires k.dir < |b.phys|
  {
    |Free(b.phys, b.used)| > frames && |FreeLow(b.used)| > frames && |Vacancies(b.phys, k)| > pages + 1
  }

  lemma LowNone(used: set<nat>)
    ensures Low(used) ==> |FreeLow(used)| == 0
  {
    if Low(used) {
      assert FreeLow(used) == {};
    }
  }

  lemma AmpleLeft(k: Kernel, b: Memory, frames: nat, pages: nat)
    requires k.dir < |b.phys|
    ensures Ample(k, b, frames, pages) ==> !OutOfRoom(b.phys, k, b.used) && !OutOfReach(b)
  {
    if Ample(k, b, frames, pages) {
      AmpleNotOut(k, b);
    }
  }

  lemma AmpleNotOut(k: Kernel, b: Memory)
    requires k.dir < |b.phys| && Ample(k, b, 0, 0)
    ensures !OutOfRoom(b.phys, k, b.used) && !OutOfReach(b)
  {
    FreeLess(b.phys, b.used, 0);
    LowNone(b.used);
    hide Walk, Free, FreeLow, NoFrames;
    if forall p, q ::
      && Searched(p) && Searched(q)
      && Walk(b.phys, k.dir, p) == NotPresent && Walk(b.phys, k.dir, q) == NotPresent
      ==> p == q
    {
      var x :| x in Vacancies(b.phys, k);
      CardinalityMore(Vacancies(b.phys, k), {x});
    }
  }

  /** What is left after so many frames were taken and so many kernel pages mapped. */
  lemma AmpleLess(k: Kernel, a: Memory, b: Memory, but: set<(nat, Page)>, frames: nat, pages: nat, m: nat, n: nat)
    requires Sane(k, a) && Undisturbed(a.phys, b.phys, k, a.spaces, a.owner, b.owner, but)
    requires |b.phys| == |a.phys| && Grows(a.used, b.used, m) && |but| <= n
    ensures Ample(k, a, frames + m, pages + n) ==> Ample(k, b, frames, pages)
  {
    KernelSpace(a.phys, k, a.spaces, a.owner);
    FewerLeft(Free(a.phys, a.used), Free(b.phys, b.used), b.used - a.used);
    FewerLeft(FreeLow(a.used), FreeLow(b.used), b.used - a.used);
    VacanciesKept(k, a, b, but);
    FewerLeft(Vacancies(a.phys, k), Vacancies(b.phys, k), but);
  }

  lemma VacanciesKept(k: Kernel, a: Memory, b: Memory, but: set<(nat, Page)>)
    requires k.dir < |a.phys| && k.dir in a.spaces && Undisturbed(a.phys, b.phys, k, a.spaces, a.owner, b.owner, but)
    ensures k.dir < |b.phys| && Vacancies(a.phys, k) - but <= Vacancies(b.phys, k)
  {
    hide Walk, DataKept, Kept;
  }

  lemma FewerLeft<T>(a: set<T>, b: set<T>, gone: set<T>)
    requires a - gone <= b
    ensures |a| <= |b| + |gone|
  {
    CardinalityMore(a, b + gone);
    BothBounded(b, gone);
  }

  /** Some table is out of reach; so memory reaches beyond the direct map and all of it below is in use. */
  ghost predicate OutOfReach(b: Memory)
  {
    Strayed(b.phys, b.spaces) && Low(b.used) && |b.phys| > 2047
  }

  lemma ValidStrays(m: Machine)
    requires m.Valid() && Strayed(m.phys, m.spaces)
    ensures m.pmm.Valid() && OutOfReach(Now(m))
  {
    hide FrameAllocator.Used, Walk, EntryAt, TablesOwned, IdentityMapped, Agrees, Blank, PagesOwned;
    StrayedLow(m.phys, m.kernel, m.spaces, m.owner, m.boot, m.pmm.Used());
  }

  /** What was reserved at boot, the bitmap among it, is never written. */
  lemma ReservedKept(m: Machine)
    requires m.Valid()
    ensures forall f: nat :: f in m.boot.reserved && f < |m.phys| ==>
              f < |m.boot.image| && m.phys[f] == m.boot.image[f]
    ensures forall f: nat :: f < m.pmm.totalFrames && m.pmm.InBitmap(f) ==> f in m.boot.reserved && f !in m.owner
  {
  }

  lemma ValidSane(m: Machine)
    requires m.Valid()
    ensures m.pmm.Valid() && m.kernel.dir < |m.phys| && Sane(m.kernel, Now(m))
  {
    hide FrameAllocator.Used, Walk, EntryAt;
    KernelSpace(m.phys, m.kernel, m.spaces, m.owner);
  }

  /** One call of create_pcb is one step of a run. */
  method CreateOne(m: Machine, image: seq<Byte>, user: bool) returns (r: Creation, ghost o: Attempt)
    requires m.Valid() && |image| <= IMAGE_MAX
    modifies m`tlb, m`phys, m`owner, m`stale, m`spaces, m.pmm.frameBitmap.storage
    ensures m.Valid() && m.kernel.dir < |m.phys| == |old(m.phys)|
    ensures Creates(m.kernel, old(Now(m)), Now(m), o)
    ensures r.Created? <==> o.Started?
    ensures o.Started? ==> o.p.dir == r.process.dir && o.p.image == image && o.p.user == user
    ensures !r.CreationLost? && (o.Failure? || !o.p.whole) ==>
              OutOfRoom(m.phys, m.kernel, m.pmm.Used())
    ensures r.CreationLost? ==> OutOfReach(Now(m))
    ensures forall frames: nat, pages: nat ::
              Ample(m.kernel, old(Now(m)), frames + FramesFor(|image|), pages + PagesFor(|image|) + 3) ==>
                Ample(m.kernel, Now(m), frames, pages)
    ensures m.boot.clean ==> m.stale <= old(m.stale)
  {
    hide Ample, Machine.Valid, FrameAllocator.Used, Creates, Undisturbed, PartProcess, WholeProcess, OutOfRoom, Sane,
         OutOfReach, Strayed, Legible;
    ValidSane(m);
    ghost var a := Now(m);
    ghost var but, whole;
    r, but, whole := CreateProcess(m, image, user);
    ValidSane(m);
    if r.CreationLost? {
      ValidStrays(m);
    }
    o := if r.Created? then Started(Program(r.process.dir, image, user, whole)) else Failure;
    Attempted(m.kernel, a, Now(m), o, but);
    forall frames: nat, pages: nat
      ensures Ample(m.kernel, a, frames + FramesFor(|image|), pages + PagesFor(|image|) + 3) ==>
                Ample(m.kernel, Now(m), frames, pages)
    {
      AmpleLess(m.kernel, a, Now(m), but, frames, pages, FramesFor(|image|), PagesFor(|image|) + 3);
    }
  }

  /** What a process is made from. */
  datatype Source = Source(image: seq<Byte>, user: bool)

  /** More frames and kernel pages than processes made from these sources can take. */
  function FramesForAll(sources: seq<Source>): nat
  {
    if sources == [] then 0 else FramesFor(|sources[0].image|) + FramesForAll(sources[1..])
  }

  function PagesForAll(sources: seq<Source>): nat
  {
    if sources == [] then 0 else PagesFor(|sources[0].image|) + 3 + PagesForAll(sources[1..])
  }

  ghost predicate AllApart(k: Kernel, b: Memory, os: seq<Attempt>)
  {
    forall i: nat, j: nat, q: Page, q': Page {:trigger Apart(k, b, os[i].p.dir, q, os[j].p.dir, q')} ::
      i < |os| && j < |os| && os[i].Started? && os[j].Started? && Legal(q) && Legal(q') ==>
        Apart(k, b, os[i].p.dir, q, os[j].p.dir, q')
  }

  ghost predicate AllHold(b: Memory, os: seq<Attempt>)
  {
    forall o :: o in os && o.Started? ==> o.p.dir in b.spaces && Holds(b.phys, o.p)
  }

  /** Every process of which nothing is missing reads its image and its stack, byte by byte. */
  ghost predicate AllLegible(b: Memory, os: seq<Attempt>)
  {
    forall o :: o in os && o.Started? && o.p.whole ==> Legible(b.phys, o.p.dir, 0xC000_1FD8, o.p.image, o.p.user)
  }

  lemma HoldLegible(b: Memory, os: seq<Attempt>)
    requires AllHold(b, os)
    ensures AllLegible(b, os)
  {
    hide WholeProcess, PartProcess, Legible;
    forall o | o in os && o.Started? && o.p.whole
      ensures Legible(b.phys, o.p.dir, 0xC000_1FD8, o.p.image, o.p.user)
    {
      assert Holds(b.phys, o.p);
      WholeLegible(b.phys, o.p.dir, o.p.image, o.p.user);
    }
  }

  /** The attempts are calls for the sources, in order. */
  ghost predicate For(os: seq<Attempt>, sources: seq<Source>)
  {
    |os| <= |sources| &&
    forall i :: 0 <= i < |os| && os[i].Started? ==>
      os[i].p.image == sources[i].image && os[i].p.user == sources[i].user
  }

  ghost predicate AllWhole(os: seq<Attempt>) { forall i :: 0 <= i < |os| ==> os[i].Started? && os[i].p.whole }

  lemma OneMore(os: seq<Attempt>, o: Attempt, sources: seq<Source>)
    requires For(os, sources) && |os| < |sources|
    requires o.Started? ==> o.p.image == sources[|os|].image && o.p.user == sources[|os|].user
    ensures For(os + [o], sources)
    ensures AllWhole(os) && o.Started? && o.p.whole ==> AllWhole(os + [o])
  {
  }

  /** The calls of create_pcb, one after the other. */
  method CreateEach(m: Machine, sources: seq<Source>)
    returns (lost: bool, ghost run: seq<Memory>, ghost os: seq<Attempt>)
    requires m.Valid() && forall s :: s in sources ==> |s.image| <= IMAGE_MAX
    modifies m`tlb, m`phys, m`owner, m`stale, m`spaces, m.pmm.frameBitmap.storage
    ensures m.Valid() && m.kernel.dir < |m.phys| == |old(m.phys)| && For(os, sources) && (lost || |os| == |sources|)
    ensures Run(m.kernel, run, os) && |run| == |os| + 1 && run[0] == old(Now(m)) && run[|os|] == Now(m)
    ensures !lost && !OutOfRoom(m.phys, m.kernel, m.pmm.Used()) ==> AllWhole(os)
    ensures lost ==> OutOfReach(Now(m))
    ensures LeftFor(m.kernel, old(Now(m)), Now(m), sources, |os|)
    ensures m.boot.clean ==> m.stale <= old(m.stale)
  {
    hide Machine.Valid, FrameAllocator.Used, Creates, Sane, OutOfRoom, Run, OutOfReach, Ample, FramesFor, PagesFor, Now,
         LeftFor, For, AllWhole;
    ValidSane(m);
    ghost var k, start, b := m.kernel, Now(m), Now(m);
    NowParts(m);
    run, os, lost := [b], [], false;
    RunStart(k, b);
    AllLeft(k, start, sources);
    for n := 0 to |sources|
      invariant m.Valid() && !lost && b == Now(m) && Run(k, run, os) && |run| == n + 1 && |os| == n
      invariant run[0] == start && run[n] == b && k.dir < |b.phys| == |start.phys| == |m.phys|
      invariant For(os, sources) && (!OutOfRoom(b.phys, k, b.used) ==> AllWhole(os))
      invariant LeftFor(k, start, b, sources, n)
      invariant m.boot.clean ==> m.stale <= old(m.stale)
    {
      ghost var a := b;
      var r; ghost var o;
      NowParts(m);
      r, o := CreateOne(m, sources[n].image, sources[n].user);
      ValidSane(m);
      NowParts(m);
      b := Now(m);
      RunMore(k, run, os, b, o);
      if OutOfRoom(a.phys, k, a.used) {
        RoomStaysGone(k, a, b, o);
      }
      LeftForNext(k, start, a, b, sources, n);
      OneMore(os, o, sources);
      run, os := run + [b], os + [o];
      if r.CreationLost? {
        lost := true;
        break;
      }
    }
    ValidSane(m);
    NowParts(m);
  }

  lemma AllLeft(k: Kernel, a: Memory, sources: seq<Source>)
    requires k.dir < |a.phys|
    ensures LeftFor(k, a, a, sources, 0) && For([], sources) && AllWhole([])
  {
    assert sources[0..] == sources;
  }

  /**
    Creates processes one after the other.  The calls form a run; afterwards all processes hold what
    they were made from and are apart.  Every one of them is started and is whole if frames, frames
    in the direct map and kernel pages are ample before the call, or if room is left after it.  Only
    where a table is out of reach do the calls end early, which needs more than 2047 frames and all of
    the first 2047 in use.
   */
  method CreateAll(m: Machine, sources: seq<Source>)
    returns (lost: bool, ghost run: seq<Memory>, ghost os: seq<Attempt>)
    requires m.Valid() && forall s :: s in sources ==> |s.image| <= IMAGE_MAX
    modifies m`tlb, m`phys, m`owner, m`stale, m`spaces, m.pmm.frameBitmap.storage
    ensures m.Valid() && m.kernel.dir < |m.phys| == |old(m.phys)| && For(os, sources) && (lost || |os| == |sources|)
    ensures Run(m.kernel, run, os) && run[0] == old(Now(m)) && run[|os|] == Now(m)
    ensures AllHold(Now(m), os) && AllApart(m.kernel, Now(m), os) && AllLegible(Now(m), os)
    ensures !lost && !OutOfRoom(m.phys, m.kernel, m.pmm.Used()) ==> AllWhole(os)
    ensures lost ==> OutOfReach(Now(m))
    ensures Ample(m.kernel, old(Now(m)), FramesForAll(sources), PagesForAll(sources)) ==> !lost && AllWhole(os)
    ensures m.boot.clean ==> m.stale <= old(m.stale)
  {
    hide Machine.Valid, FrameAllocator.Used, Creates, Sane, OutOfRoom, Run, OutOfReach, Ample, FramesFor, PagesFor, Now,
         LeftFor, For, AllWhole, AllHold, AllApart, AllLegible;
    ValidSane(m);
    NowParts(m);
    ghost var start := Now(m);
    lost, run, os := CreateEach(m, sources);
    ValidSane(m);
    NowParts(m);
    ForLength(os, sources);
    LeftForEnd(m.kernel, start, Now(m), sources, |os|);
    RunApart(m.kernel, run, os);
    HoldLegible(Now(m), os);
  }

  lemma ForLength(os: seq<Attempt>, sources: seq<Source>)
    requires For(os, sources)
    ensures |os| <= |sources|
  {
  }

  lemma NowParts(m: Machine)
    requires m.pmm.Valid()
    ensures Now(m).phys == m.phys && Now(m).used == m.pmm.Used() && Now(m).spaces == m.spaces
  {
  }

  /** If there was enough of everything at the start, there is enough for the sources from n on. */
  ghost predicate LeftFor(k: Kernel, a: Memory, b: Memory, sources: seq<Source>, n: nat)
  {
    k.dir < |a.phys| == |b.phys| && n <= |sources| &&
    (Ample(k, a, FramesForAll(sources), PagesForAll(sources)) ==>
       Ample(k, b, FramesForAll(sources[n..]), PagesForAll(sources[n..])))
  }

  lemma LeftForNext(k: Kernel, start: Memory, a: Memory, b: Memory, sources: seq<Source>, n: nat)
    requires n < |sources| && LeftFor(k, start, a, sources, n) && |b.phys| == |a.phys|
    requires forall frames: nat, pages: nat ::
               Ample(k, a, frames + FramesFor(|sources[n].image|), pages + PagesFor(|sources[n].image|) + 3) ==>
                 Ample(k, b, frames, pages)
    ensures LeftFor(k, start, b, sources, n + 1)
  {
    hide Ample, FramesFor, PagesFor;
    var rest := sources[n + 1..];
    assert sources[n..][1..] == rest && sources[n..][0] == sources[n];
    assert Ample(k, a, FramesForAll(rest) + FramesFor(|sources[n].image|),
                 PagesForAll(rest) + PagesFor(|sources[n].image|) + 3) ==>
             Ample(k, b, FramesForAll(rest), PagesForAll(rest));
  }

  lemma LeftForEnd(k: Kernel, a: Memory, b: Memory, sources: seq<Source>, n: nat)
    requires LeftFor(k, a, b, sources, n)
    ensures k.dir < |a.phys| == |b.phys|
    ensures Ample(k, a, FramesForAll(sources), PagesForAll(sources)) ==>
              !OutOfRoom(b.phys, k, b.used) && !OutOfReach(b)
  {
    AmpleLeft(k, b, FramesForAll(sources[n..]), PagesForAll(sources[n..]));
    hide Ample;
  }

  lemma RunStart(k: Kernel, a: Memory)
    requires Sane(k, a)
    ensures Run(k, [a], []) && k.dir < |a.phys|
  {
  }

  lemma RunApart(k: Kernel, run: seq<Memory>, os: seq<Attempt>)
    requires Run(k, run, os)
    ensures |run| == |os| + 1 && AllHold(run[|os|], os) && AllApart(k, run[|os|], os)
  {
    RunKeepsProcesses(k, run, os);
    hide Run, Apart, Holds;
    forall i: nat, j: nat, q: Page, q': Page |
      i < |os| && j < |os| && os[i].Started? && os[j].Started? && Legal(q) && Legal(q')
      ensures Apart(k, run[|os|], os[i].p.dir, q, os[j].p.dir, q')
    {
      RunIsolates(k, run, os, i, q, j, q');
    }
  }

  /**
    pmm_init, paging_init and the first processes: what the kernel's main function does with memory,
    where the bitmap ends at the start of a frame and nobody else writes the frames.  What lies
    below the end of the bitmap keeps its bytes.
   */
  method Boot(totalRamBytes: nat, storage: array<bv32>, bitmapStart: nat, phys: Phys, sections: Sections,
              speculative: bool, eager: set<Page>, ghost clean: bool, sources: seq<Source>)
    returns (m: Machine, lost: bool, ghost run: seq<Memory>, ghost os: seq<Attempt>)
    requires totalRamBytes < U32 && |phys| * 4096 <= totalRamBytes < (|phys| + 1) * 4096
    requires storage.Length >= Words(|phys|)
    requires var end := BitmapEnd(bitmapStart, |phys|);
             && end < U32 && end % FRAME_SIZE == 0
             && 0 < end / FRAME_SIZE && end / FRAME_SIZE + 3 <= 2047 && end / FRAME_SIZE + 3 <= |phys|
    requires clean ==> forall f: nat :: f < |phys| && (f == 0 || f >= FrameOf(BitmapEnd(bitmapStart, |phys|))) ==>
                         Clean(phys, f)
    requires forall s :: s in sources ==> |s.image| <= IMAGE_MAX
    modifies storage
    ensures fresh(m) && m.Valid() && (clean ==> m.stale == {})
    ensures var e := FrameOf(BitmapEnd(bitmapStart, |phys|));
            && m.kernel == Kernel(e, e + 1, e + 2) && |m.phys| == |phys|
            && forall f :: 0 <= f < e ==> m.phys[f] == phys[f]
    ensures Run(m.kernel, run, os) && run[0].spaces == {m.kernel.dir} && run[|os|] == Now(m)
    ensures m.kernel.dir < |m.phys| && For(os, sources) && (lost || |os| == |sources|)
    ensures AllHold(Now(m), os) && AllApart(m.kernel, Now(m), os) && AllLegible(Now(m), os)
    ensures var taken := FramesForAll(sources) + FrameOf(BitmapEnd(bitmapStart, |phys|)) + 3;
            taken < |phys| && taken < 2047 ==> !lost && AllWhole(os)
    ensures !lost && !OutOfRoom(m.phys, m.kernel, m.pmm.Used()) ==> AllWhole(os)
    ensures lost ==> OutOfReach(Now(m))
  {
    hide Machine.Valid, FrameAllocator.Used, Creates, Sane, OutOfRoom, Run, AllHold, AllApart, AllLegible, AllWhole,
         For, Ample, Boots, Below, Now, Words, FramesIn, OutOfReach, Walk, Legal, EntryAt, Clean;
    WholeFrames(totalRamBytes);
    var pmm := ReservedPmm(totalRamBytes, storage, bitmapStart);
    ghost var e := FrameOf(BitmapEnd(bitmapStart, |phys|));
    BootsAt(e, |phys|);
    m := new Machine(pmm, phys, sections, speculative, eager, clean);
    BootsOne(Below(e), |phys|, m.kernel, Kernel(e, e + 1, e + 2));
    ValidSane(m);
    NowParts(m);
    assert Below(e) + {e, e + 1, e + 2} == Below(e + 3);
    ghost var b := Now(m);
    if FramesForAll(sources) + e + 3 < |phys| && FramesForAll(sources) + e + 3 < 2047 {
      PagesAtMost(sources);
      BootAmple(m.kernel, b, e + 3, FramesForAll(sources), PagesForAll(sources));
    }
    lost, run, os := CreateAll(m, sources);
    ReservedKept(m);
  }

  /**
    kernel_main with its bitmap at 4 MB on the machines whose bitmap fills one frame: the idle process of
    58 bytes and the two processes of 30 bytes are all started, and each reads its image and its stack.
   */
  method KernelMain(totalRamBytes: nat, storage: array<bv32>, phys: Phys, sections: Sections, speculative: bool,
                    eager: set<Page>, idle: seq<Byte>, one: seq<Byte>, two: seq<Byte>)
    returns (m: Machine, ghost os: seq<Attempt>)
    requires 32737 * 4096 <= totalRamBytes < 32769 * 4096 && |phys| == totalRamBytes / 4096 && storage.Length >= 1024
    requires |idle| == 58 && |one| == 30 && |two| == 30
    modifies storage
    ensures fresh(m) && m.Valid() && m.kernel == Kernel(0x401, 0x402, 0x403) && |os| == 3
    ensures forall i :: 0 <= i < 3 ==>
              && os[i].Started? && os[i].p.image == [idle, one, two][i] && os[i].p.user
              && Legible(m.phys, os[i].p.dir, 0xC000_1FD8, os[i].p.image, true)
    ensures os[0].p.dir != os[1].p.dir && os[0].p.dir != os[2].p.dir && os[1].p.dir != os[2].p.dir
  {
    hide Machine.Valid, FrameAllocator.Used, Run, AllHold, AllApart, OutOfRoom, Ample, OutOfReach, Legible, Walk;
    var sources := [Source(idle, true), Source(one, true), Source(two, true)];
    assert BitmapEnd(0x40_0000, |phys|) == 0x40_1000 && FrameOf(0x40_1000) == 0x401;
    ThreeFrames(sources);
    var lost; ghost var run;
    m, lost, run, os := Boot(totalRamBytes, storage, 0x40_0000, phys, sections, speculative, eager, false, sources);
    RunKeepsProcesses(m.kernel, run, os);
  }

  lemma ThreeFrames(sources: seq<Source>)
    requires |sources| == 3 && forall s :: s in sources ==> |s.image| <= 4096
    ensures FramesForAll(sources) <= 30
  {
    assert FramesForAll(sources[3..]) == 0;
    assert sources[2..][1..] == sources[3..] && sources[1..][1..] == sources[2..];
    assert FramesForAll(sources[2..]) <= 10;
    assert FramesForAll(sources[1..]) <= 20;
  }

  /** The first pages that a search looks at. */
  ghost function FirstPages(k: Kernel, n: nat): (s: set<(nat, Page)>)
    requires n <= 4096
    ensures |s| == n
    ensures forall x :: x in s ==> x.0 == k.dir && Searched(x.1) && x.1.d * ENTRIES + x.1.t < 2048 + n
  {
    if n == 0 then {} else FirstPages(k, n - 1) + {(k.dir, PageNo(2047 + n))}
  }

  lemma LowStep(n: nat)
    requires n < 2047
    ensures |FreeLow(Below(n))| == |FreeLow(Below(n + 1))| + 1
  {
    assert FreeLow(Below(n)) == FreeLow(Below(n + 1)) + {n} && n !in FreeLow(Below(n + 1));
  }

  lemma {:induction false} LowCount(n: nat)
    requires n <= 2047
    ensures |FreeLow(Below(n))| == 2047 - n
    decreases 2047 - n
  {
    if n < 2047 {
      hide FreeLow, Below;
      LowStep(n);
      LowCount(n + 1);
    } else {
      LowNone(Below(n));
    }
  }

  lemma {:induction false} PagesAtMost(sources: seq<Source>)
    ensures PagesForAll(sources) <= FramesForAll(sources)
  {
    if sources != [] {
      PagesAtMost(sources[1..]);
    }
  }

  /** What a machine that was just booted has of everything. */
  lemma BootAmple(k: Kernel, b: Memory, n: nat, frames: nat, pages: nat)
    requires k.dir < |b.phys| && b.used == Below(n) && frames + n < |b.phys| && frames + n < 2047 && pages <= frames
    requires forall p :: Legal(p) && p.d >= 2 ==> Walk(b.phys, k.dir, p) == NotPresent
    ensures Ample(k, b, frames, pages)
  {
    FreeCount(b.phys, n);
    LowCount(n);
    hide Walk;
    CardinalityMore(FirstPages(k, 4096), Vacancies(b.phys, k));
  }

  /** pmm_init where the bitmap ends at the start of a frame */
  method ReservedPmm(totalRamBytes: nat, storage: array<bv32>, bitmapStart: nat) returns (pmm: FrameAllocator)
    requires totalRamBytes < U32 && storage.Length >= Words(FramesIn(totalRamBytes))
    requires BitmapEnd(bitmapStart, FramesIn(totalRamBytes)) < U32
    requires BitmapEnd(bitmapStart, FramesIn(totalRamBytes)) % FRAME_SIZE == 0
    requires FrameOf(BitmapEnd(bitmapStart, FramesIn(totalRamBytes))) <= FramesIn(totalRamBytes)
    modifies storage
    ensures fresh(pmm) && fresh(pmm.frameBitmap) && pmm.Valid() && pmm.frameBitmap.storage == storage
    ensures pmm.totalFrames == FramesIn(totalRamBytes) && pmm.BitmapReserved()
    ensures pmm.Used() == Below(FrameOf(BitmapEnd(bitmapStart, FramesIn(totalRamBytes))))
  {
    hide FrameAllocator.Used, Words, FramesIn;
    pmm := new FrameAllocator(totalRamBytes, storage, bitmapStart);
    ReservedBelow(pmm.Used(), pmm.totalFrames, BitmapEnd(bitmapStart, pmm.totalFrames));
  }
}
