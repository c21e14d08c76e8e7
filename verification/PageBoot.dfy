/** A machine as the bootloader can leave it: one PML4 and one PDPT that maps the first GiB
    in the higher half. It satisfies the invariants of the paging runs, and it is where the
    limits of the paging code show. */
module PageBoot {
  import opened Words
  import opened PageEntry
  import opened PageForest
  import opened PageWalk
  import opened PageOps
  import opened PageRuns
  import opened Tlb

  const HHDM_PAGE: nat := 0xF_FFF8_0000_0000   // hhdm_offset 0xFFFF_8000_0000_0000, in pages
  const GIB: nat := 0x4_0000                   // frames in a GiB

  function TableEntry(x: nat): Entry { Entry(true, true, false, false, false, x, {}) }

  function HugeEntry(): Entry { Entry(true, true, false, true, false, 0, {}) }

  function BootMem(): Mem { map[1 := Blank()[256 := TableEntry(2)], 2 := Blank()[0 := HugeEntry()]] }

  function BootCert(): Cert { Cert(map[1 := L4(1), 2 := L3(1, 256)], map[1 := seq(512, _ => 1)]) }

  function BootSys(): Sys { Sys(State(BootMem(), 3 * PAGE), BootCert(), {}) }

  function BootEnv(): Env { Env((f: nat) => PageOf(HHDM_PAGE + f), VPNS, GIB) }

  lemma DirectMapPage(f: nat)
    requires f < GIB
    ensures var p := PageOf(HHDM_PAGE + f); p.i4 == 256 && p.i3 == 0 && p.i2 * 512 + p.i1 == f
  {
    QuotientUnique(HHDM_PAGE + f, 0x800_0000, 0x1FF_FF00, f);
    QuotientUnique(HHDM_PAGE + f, 0x4_0000, 0x3_FFFE_0000, f);
    QuotientUnique(HHDM_PAGE + f, 512, 0x7FF_FC00_0000 + f / 512, f % 512);
    QuotientUnique(0x7FF_FC00_0000 + f / 512, 512, 0x3_FFFE_0000, f / 512);
  }

  /** Frame f resolves at its direct-map page, for the kernel only. */
  lemma BootTranslates(f: nat)
    requires f < GIB
    ensures Translate(BootMem(), 1, PageOf(HHDM_PAGE + f)) == Hit(f, Rights(true, false, false), {})
  {
    hide PageOf;
    var p := PageOf(HHDM_PAGE + f);
    DirectMapPage(f);
    var e := BootMem()[1][p.i4];
    assert e == TableEntry(2) && BootMem()[2][p.i3] == HugeEntry();
    assert Walk(BootMem(), 2, 3, p, Meet(ALL, e)) == Hit(f, Rights(true, false, false), {});
  }

  lemma BootForest()
    ensures Forest(BootMem(), BootCert()) && InStep(BootMem(), BootCert())
  {
    var mem, c := BootMem(), BootCert();
    forall t, i: Index | t in mem ensures SlotOk(mem, c, t, i) {
      assert t == 1 || t == 2;
    }
  }

  lemma BootShape()
    ensures Shape(BootSys(), BootEnv()) && FreshFrame(BootSys().s.brk) == 3
  {
    hide Forest, InStep;
    BootForest();
  }

  /** The invariant of the paging runs holds at boot, with all of the heap left. */
  lemma BootValid()
    ensures Valid(BootSys(), BootEnv()) && Room(BootSys().s, BootEnv(), GIB - 3)
  {
    hide Shape, Translate, PageOf;
    BootShape();
    HhdmIsDirectMap(HHDM_PAGE, VPNS, GIB);
    BootDirectMap();
    forall r, f | r in BootCert().space && InUse(BootSys().s, BootEnv(), f)
      ensures Resolves(BootMem(), BootEnv(), r, f)
    {
      BootTranslates(f);
    }
  }

  lemma BootDirectMap()
    requires DirectMap(Env((f: nat) => PageOf(HHDM_PAGE + f), VPNS, GIB))
    ensures DirectMap(BootEnv())
  {
    var env := Env((f: nat) => PageOf(HHDM_PAGE + f), VPNS, GIB);
    forall a: nat, b: nat | a < VPNS && b < VPNS && BootEnv().dm(a) == BootEnv().dm(b) ensures a == b {
      assert env.dm(a) == env.dm(b);
    }
  }

  /** ... and the TLB starts out empty, hence coherent, under any cr3 that names the PML4. */
  lemma BootTlbOk(cr3: nat, pge: bool)
    requires FrameOf(cr3) == 1
    ensures Ok(Cpu(BootSys().s, BootCert(), cr3, pge, {}), GIB)
  {
    hide Forest, InStep, FrameOf;
    BootForest();
  }

  lemma BootCanWalk()
    ensures CanWalk(BootSys().s, BootCert(), 1, GIB) && InStep(BootMem(), BootCert())
  {
    hide Forest, InStep;
    BootForest();
  }

  // ------------------------------------------------------------- where promises end

  /** A user page mapped where there were no tables resolves, but not for the user. */
  lemma UserMappingHidden(frame: nat)
    ensures CanWalk(BootSys().s, BootCert(), 1, GIB)
    ensures var e := Entry(true, true, true, false, false, frame, {});
            var x := Translate(MapPage(BootSys().s, BootCert(), 1, Page(0, 0, 0, 0), e, GIB).s.mem, 1, Page(0, 0, 0, 0));
            x.Hit? && x.frame == frame && !x.rights.user
  {
    hide Translate, InStep, MapPage;
    BootCanWalk();
    var e := Entry(true, true, true, false, false, frame, {});
    assert !BootMem()[1][0].present;
    assert !PathOpen(BootMem(), 1, 4, Page(0, 0, 0, 0));
    UserMappingVisible(BootSys().s, BootCert(), 1, Page(0, 0, 0, 0), e, GIB);
    MapPageExact(BootSys().s, BootCert(), 1, Page(0, 0, 0, 0), e, GIB, 1, Page(0, 0, 0, 0));
  }

  /** Unmapping the direct-map page of frame 0 returns 0, as if it had not been mapped. */
  lemma UnmapFrameZero()
    ensures CanWalk(BootSys().s, BootCert(), 1, GIB)
    ensures Translate(BootMem(), 1, PageOf(HHDM_PAGE)).Hit?
    ensures UnmapPage(BootSys().s, BootCert(), 1, PageOf(HHDM_PAGE), GIB).1 == 0
  {
    hide Translate, InStep, UnmapPage, PageOf;
    BootCanWalk();
    BootTranslates(0);
    UnmapPageExact(BootSys().s, BootCert(), 1, PageOf(HHDM_PAGE), GIB, 1, PageOf(HHDM_PAGE));
  }

  /** 0x1018 is a cr3 for the PML4 in frame 1 with its two cache-control bits set. */
  lemma DirtyCr3()
    ensures FrameOf(0x1018) == 1 && And(0x1018, FRAME_MASK) != 0x1018
  {
    hide Low, Shr, And, Pow2, Shl, Ones;
    Pow2Values();
    ShiftIs(0x1018, 12);
    ShiftIs(Shr(0x1018, 12), 40);
    GetAddr(0x1018);
  }

  /** With it, unmapping a guard page that the hardware has just touched leaves the stale
      translation in the TLB. */
  lemma DirtyCr3LeavesStale(f: nat, pge: bool)
    requires f < GIB
    ensures FrameOf(0x1018) == 1
    ensures var u := Cpu(BootSys().s, BootCert(), 0x1018, pge, {});
            && Ok(u, GIB) && HasRoom(u, GIB)
            && var v := LiveUnmap(u, u.cr3, PageOf(HHDM_PAGE + f), [PageOf(HHDM_PAGE + f)], [], GIB);
               !Coherent(v.tlb, v.s.mem, Root(v))
  {
    hide Translate, FrameOf, And, LiveUnmap, Ok, Coherent, PageOf;
    DirtyCr3();
    BootTlbOk(0x1018, pge);
    BootTranslates(f);
    UnmapReadCr3(Cpu(BootSys().s, BootCert(), 0x1018, pge, {}), PageOf(HHDM_PAGE + f), [], GIB);
  }
}
