/**
 * The MB86292 register file as a value: the host-interface, display-engine
 * and drawing-engine registers the device keeps, together with the video
 * memory, the configured screen, the vsync timer and the levels the device
 * has driven on its XINT interrupt line. Each register handler is a function
 * from the old state to the new one.
 */
module Registers {
  import opened BitOps
  import opened Raster
  import opened Crtc

  /** IST bit raised by the display-list Interrupt command (command-list end). */
  const IRQ_CEND: bv32 := 0x2
  /** IST bit raised by the vertical-sync timer. */
  const IRQ_VSYNC: bv32 := 0x4

  /** LSA and LCO are 24 bits wide; `cur` is the interpreter's cursor. */
  datatype DisplayList = DisplayList(lsa: bv24, lco: bv24, lreq: bool, cur: int)

  /** Interrupt status and mask. */
  datatype Irq = Irq(ist: bv32, mask: bv32)

  /** Frame buffer base (26 bits) and row length in pixels (12 bits). */
  datatype FrameBuffer = FrameBuffer(base: bv26, xres: bv12)

  /** Drawing colours, 16 bits each. */
  datatype DrawRegs = DrawRegs(fc: bv16, bc: bv16)

  /** Console layer: the mode word, the values unpacked from it, and its display address. */
  datatype ConsoleLayer = ConsoleLayer(cm: bv32, cc: bool, ch: int, cw: int, cda: bv26)

  datatype Machine = Machine(
    dce: bv16,
    displaylist: DisplayList,
    crtc: CrtcRegs,
    irq: Irq,
    fb: FrameBuffer,
    draw: DrawRegs,
    clayer: ConsoleLayer,
    screen: Screen,
    vsync: Vsync,
    xint: seq<bool>,
    vram: seq<bv8>)

  /** The XINT level: some status bit is set that the mask enables. */
  predicate Level(irq: Irq)
  {
    irq.ist & irq.mask != 0
  }

  /** ch, cw and cc are what CM says they are. */
  predicate ConsoleDerived(c: ConsoleLayer)
  {
    && c.ch == ConsoleHeight(c.cm)
    && c.cw == ConsoleWidth(c.cm)
    && c.cc == (c.cm & 0x8000_0000 != 0)
  }

  /** CM bits 11-0 hold the console height minus one. */
  function ConsoleHeight(cm: bv32): int
  {
    Low12(cm) as int + 1
  }

  /** CM bits 21-16 hold the console row stride in units of 64 bytes. */
  function ConsoleWidth(cm: bv32): int
  {
    ((cm >> 16) & 0x3f) as bv6 as int * 64
  }

  /** The frame buffer as a plane of 16-bit pixels: xres pixels, 2 * xres bytes, per row. */
  function FbPlane(fb: FrameBuffer): (pl: Plane)
    ensures pl.origin == fb.base as int && pl.pitch == 2 * fb.xres as int
    ensures pl.pitch % 2 == 0 && 0 <= pl.origin < 0x400_0000
  {
    Plane(fb.base as int, 2 * fb.xres as int)
  }

  /** check_irqs: drive XINT with the current level. */
  function CheckIrqs(m: Machine): (r: Machine)
    ensures |r.xint| == |m.xint| + 1 && r.xint[..|m.xint|] == m.xint
    ensures r.xint[|m.xint|] == Level(m.irq)
    ensures r.(xint := m.xint) == m
  {
    m.(xint := m.xint + [Level(m.irq)])
  }

  /** IST write: `ist &= data`, then XINT follows. */
  function WriteIst(m: Machine, data: bv32): (r: Machine)
    ensures r.irq.mask == m.irq.mask
    ensures r.xint == m.xint + [Level(r.irq)]
    ensures r.(irq := m.irq, xint := m.xint) == m
  {
    CheckIrqs(m.(irq := m.irq.(ist := KeepBits(m.irq.ist, data))))
  }

  /** An acknowledge clears the bits written as 0, keeps those written as 1, and sets none. */
  lemma WriteIstLaws(m: Machine, data: bv32)
    ensures WriteIst(m, data).irq.ist & data == m.irq.ist & data
    ensures WriteIst(m, data).irq.ist & !data == 0
    ensures WriteIst(m, data).irq.ist & !m.irq.ist == 0
  {
    KeepBitsLaws(m.irq.ist, data);
  }

  /** MASK write: a masked 32-bit update, then XINT follows. */
  function WriteMask(m: Machine, data: bv32, mask: bv32): (r: Machine)
    ensures r.irq.ist == m.irq.ist
    ensures r.xint == m.xint + [Level(r.irq)]
    ensures r.(irq := m.irq, xint := m.xint) == m
  {
    CheckIrqs(m.(irq := m.irq.(mask := Combine32(m.irq.mask, data, mask))))
  }

  lemma WriteMaskLaws(m: Machine, data: bv32, mask: bv32)
    ensures WriteMask(m, data, mask).irq.mask & mask == data & mask
    ensures WriteMask(m, data, mask).irq.mask & !mask == m.irq.mask & !mask
  {
    Combine32Laws(m.irq.mask, data, mask);
  }

  /** LSA write: a masked update of the 24-bit register. */
  function WriteLsa(m: Machine, data: bv32, mask: bv32): (r: Machine)
    ensures r.displaylist.(lsa := m.displaylist.lsa) == m.displaylist
    ensures r.(displaylist := m.displaylist) == m
  {
    m.(displaylist := m.displaylist.(lsa := Combine24(m.displaylist.lsa, Low24(data), Low24(mask))))
  }

  lemma WriteLsaLaws(m: Machine, data: bv32, mask: bv32)
    ensures WriteLsa(m, data, mask).displaylist.lsa & Low24(mask) == Low24(data) & Low24(mask)
    ensures WriteLsa(m, data, mask).displaylist.lsa & !Low24(mask) == m.displaylist.lsa & !Low24(mask)
    ensures WriteLsa(m, data, mask).displaylist.lsa as bv32 == Combine32(m.displaylist.lsa as bv32, data, mask) & 0xff_ffff
  {
    CombineData24(m.displaylist.lsa, data, mask);
    Combine24Laws(m.displaylist.lsa, Low24(data), Low24(mask));
  }

  /** LCO write: a masked update of the 24-bit register. */
  function WriteLco(m: Machine, data: bv32, mask: bv32): (r: Machine)
    ensures r.displaylist.(lco := m.displaylist.lco) == m.displaylist
    ensures r.(displaylist := m.displaylist) == m
  {
    m.(displaylist := m.displaylist.(lco := Combine24(m.displaylist.lco, Low24(data), Low24(mask))))
  }

  lemma WriteLcoLaws(m: Machine, data: bv32, mask: bv32)
    ensures WriteLco(m, data, mask).displaylist.lco & Low24(mask) == Low24(data) & Low24(mask)
    ensures WriteLco(m, data, mask).displaylist.lco & !Low24(mask) == m.displaylist.lco & !Low24(mask)
    ensures WriteLco(m, data, mask).displaylist.lco as bv32 == Combine32(m.displaylist.lco as bv32, data, mask) & 0xff_ffff
  {
    CombineData24(m.displaylist.lco, data, mask);
    Combine24Laws(m.displaylist.lco, Low24(data), Low24(mask));
  }

  /** DCE write: a masked 16-bit update. */
  function WriteDce(m: Machine, data: bv16, mask: bv16): (r: Machine)
    ensures r.(dce := m.dce) == m
  {
    m.(dce := Combine16(m.dce, data, mask))
  }

  lemma WriteDceLaws(m: Machine, data: bv16, mask: bv16)
    ensures WriteDce(m, data, mask).dce & mask == data & mask
    ensures WriteDce(m, data, mask).dce & !mask == m.dce & !mask
  {
    Combine16Laws(m.dce, data, mask);
  }

  /** reconfigure_screen applied to the machine's own CRTC registers. */
  function ReconfigureScreen(m: Machine): (r: Machine)
    ensures Output(r.screen, r.vsync) == Reconfigure(m.crtc, m.screen)
    ensures r.vsync.AtScanline? <==> TimingAccepted(m.crtc)
    ensures r.(screen := m.screen, vsync := m.vsync) == m
  {
    var out := Reconfigure(m.crtc, m.screen);
    m.(screen := out.screen, vsync := out.vsync)
  }

  /** The 16-bit CRTC timing registers, one per host-interface port. */
  datatype CrtcField = HTP | HDP | HDB | HSP | VTR | VSP | VDP

  function CrtcGet(c: CrtcRegs, f: CrtcField): bv12
  {
    match f
    case HTP => c.htp
    case HDP => c.hdp
    case HDB => c.hdb
    case HSP => c.hsp
    case VTR => c.vtr
    case VSP => c.vsp
    case VDP => c.vdp
  }

  function CrtcSet(c: CrtcRegs, f: CrtcField, v: bv12): (r: CrtcRegs)
    ensures CrtcGet(r, f) == v
    ensures forall g :: g != f ==> CrtcGet(r, g) == CrtcGet(c, g)
    ensures r.hsw == c.hsw && r.vsw == c.vsw
  {
    match f
    case HTP => c.(htp := v)
    case HDP => c.(hdp := v)
    case HDB => c.(hdb := v)
    case HSP => c.(hsp := v)
    case VTR => c.(vtr := v)
    case VSP => c.(vsp := v)
    case VDP => c.(vdp := v)
  }

  /** The register half of a CRTC timing write: a masked update of the 12-bit field. */
  function CrtcWrite(c: CrtcRegs, f: CrtcField, data: bv16, mask: bv16): (r: CrtcRegs)
    ensures forall g :: g != f ==> CrtcGet(r, g) == CrtcGet(c, g)
    ensures r.hsw == c.hsw && r.vsw == c.vsw
  {
    CrtcSet(c, f, Combine12(CrtcGet(c, f), Low12Of16(data), Low12Of16(mask)))
  }

  lemma CrtcWriteLaws(c: CrtcRegs, f: CrtcField, data: bv16, mask: bv16)
    ensures CrtcGet(CrtcWrite(c, f, data, mask), f) & Low12Of16(mask) == Low12Of16(data) & Low12Of16(mask)
    ensures CrtcGet(CrtcWrite(c, f, data, mask), f) & !Low12Of16(mask) == CrtcGet(c, f) & !Low12Of16(mask)
    ensures CrtcGet(CrtcWrite(c, f, data, mask), f) as bv16 == ((CrtcGet(c, f) as bv16 & !mask) | (data & mask)) & 0xfff
  {
    CombineData12Of16(CrtcGet(c, f), data, mask);
    Combine12Laws(CrtcGet(c, f), Low12Of16(data), Low12Of16(mask));
  }

  /** A CRTC timing write: the register update, then revalidation. */
  function WriteCrtc(m: Machine, f: CrtcField, data: bv16, mask: bv16): (r: Machine)
    ensures r.crtc == CrtcWrite(m.crtc, f, data, mask)
    ensures Output(r.screen, r.vsync) == Reconfigure(r.crtc, m.screen)
    ensures r.(crtc := m.crtc, screen := m.screen, vsync := m.vsync) == m
  {
    ReconfigureScreen(m.(crtc := CrtcWrite(m.crtc, f, data, mask)))
  }

  /** HSW write (a byte port): the low six bits, then revalidation. */
  function WriteHsw(m: Machine, data: bv8): (r: Machine)
    ensures r.crtc.hsw == Low6(data)
    ensures r.crtc.(hsw := m.crtc.hsw) == m.crtc
    ensures Output(r.screen, r.vsync) == Reconfigure(r.crtc, m.screen)
    ensures r.(crtc := m.crtc, screen := m.screen, vsync := m.vsync) == m
  {
    ReconfigureScreen(m.(crtc := m.crtc.(hsw := Low6(data))))
  }

  /** VSW write (a byte port): the low six bits, then revalidation. */
  function WriteVsw(m: Machine, data: bv8): (r: Machine)
    ensures r.crtc.vsw == Low6(data)
    ensures r.crtc.(vsw := m.crtc.vsw) == m.crtc
    ensures Output(r.screen, r.vsync) == Reconfigure(r.crtc, m.screen)
    ensures r.(crtc := m.crtc, screen := m.screen, vsync := m.vsync) == m
  {
    ReconfigureScreen(m.(crtc := m.crtc.(vsw := Low6(data))))
  }

  /** CM write: a masked update, then ch, cw and cc unpacked from the new mode word. */
  function WriteCm(m: Machine, data: bv32, mask: bv32): (r: Machine)
    ensures ConsoleDerived(r.clayer)
    ensures 1 <= r.clayer.ch <= 4096
    ensures 0 <= r.clayer.cw <= 4032 && r.clayer.cw % 64 == 0
    ensures r.clayer.cda == m.clayer.cda
    ensures r.(clayer := m.clayer) == m
  {
    var cm := Combine32(m.clayer.cm, data, mask);
    m.(clayer := m.clayer.(cm := cm, ch := ConsoleHeight(cm), cw := ConsoleWidth(cm), cc := cm & 0x8000_0000 != 0))
  }

  lemma WriteCmLaws(m: Machine, data: bv32, mask: bv32)
    ensures WriteCm(m, data, mask).clayer.cm & mask == data & mask
    ensures WriteCm(m, data, mask).clayer.cm & !mask == m.clayer.cm & !mask
  {
    Combine32Laws(m.clayer.cm, data, mask);
  }

  /** CDA write: a masked update of the 26-bit register. */
  function WriteCda(m: Machine, data: bv32, mask: bv32): (r: Machine)
    ensures r.clayer.(cda := m.clayer.cda) == m.clayer
    ensures r.(clayer := m.clayer) == m
  {
    m.(clayer := m.clayer.(cda := Combine26(m.clayer.cda, Low26(data), Low26(mask))))
  }

  lemma WriteCdaLaws(m: Machine, data: bv32, mask: bv32)
    ensures WriteCda(m, data, mask).clayer.cda & Low26(mask) == Low26(data) & Low26(mask)
    ensures WriteCda(m, data, mask).clayer.cda & !Low26(mask) == m.clayer.cda & !Low26(mask)
    ensures WriteCda(m, data, mask).clayer.cda as bv32 == Combine32(m.clayer.cda as bv32, data, mask) & 0x3ff_ffff
  {
    CombineData26(m.clayer.cda, data, mask);
    Combine26Laws(m.clayer.cda, Low26(data), Low26(mask));
  }

  /** The drawing-engine ports the device implements, by byte offset in its 16-bit space. */
  const FBR: int := 0x440
  const XRES: int := 0x444
  const FC: int := 0x480
  const BC: int := 0x484

  /** FBR write: a masked update of the 26-bit frame buffer base. */
  function WriteFbr(m: Machine, data: bv32, mask: bv32): (r: Machine)
    ensures r.fb.(base := m.fb.base) == m.fb
    ensures r.(fb := m.fb) == m
  {
    m.(fb := m.fb.(base := Combine26(m.fb.base, Low26(data), Low26(mask))))
  }

  lemma WriteFbrLaws(m: Machine, data: bv32, mask: bv32)
    ensures WriteFbr(m, data, mask).fb.base & Low26(mask) == Low26(data) & Low26(mask)
    ensures WriteFbr(m, data, mask).fb.base & !Low26(mask) == m.fb.base & !Low26(mask)
    ensures WriteFbr(m, data, 0xffff_ffff).fb.base == Low26(data)
    ensures WriteFbr(m, data, mask).fb.base as bv32 == Combine32(m.fb.base as bv32, data, mask) & 0x3ff_ffff
  {
    CombineData26(m.fb.base, data, mask);
    Combine26Laws(m.fb.base, Low26(data), Low26(mask));
    Low26Full();
    Combine26Full(m.fb.base, Low26(data));
  }

  /** XRES write: a masked update of the 12-bit frame buffer row length. */
  function WriteXres(m: Machine, data: bv32, mask: bv32): (r: Machine)
    ensures r.fb.(xres := m.fb.xres) == m.fb
    ensures r.(fb := m.fb) == m
  {
    m.(fb := m.fb.(xres := Combine12(m.fb.xres, Low12(data), Low12(mask))))
  }

  lemma WriteXresLaws(m: Machine, data: bv32, mask: bv32)
    ensures WriteXres(m, data, mask).fb.xres & Low12(mask) == Low12(data) & Low12(mask)
    ensures WriteXres(m, data, mask).fb.xres & !Low12(mask) == m.fb.xres & !Low12(mask)
    ensures WriteXres(m, data, 0xffff_ffff).fb.xres == Low12(data)
    ensures WriteXres(m, data, mask).fb.xres as bv32 == Combine32(m.fb.xres as bv32, data, mask) & 0xfff
  {
    CombineData12(m.fb.xres, data, mask);
    Combine12Laws(m.fb.xres, Low12(data), Low12(mask));
    Low12Full();
    Combine12Full(m.fb.xres, Low12(data));
  }

  /** FC write: a masked update of the 16-bit foreground colour. */
  function WriteFc(m: Machine, data: bv32, mask: bv32): (r: Machine)
    ensures r.draw.(fc := m.draw.fc) == m.draw
    ensures r.(draw := m.draw) == m
  {
    m.(draw := m.draw.(fc := Combine16(m.draw.fc, Low16(data), Low16(mask))))
  }

  lemma WriteFcLaws(m: Machine, data: bv32, mask: bv32)
    ensures WriteFc(m, data, mask).draw.fc & Low16(mask) == Low16(data) & Low16(mask)
    ensures WriteFc(m, data, mask).draw.fc & !Low16(mask) == m.draw.fc & !Low16(mask)
    ensures WriteFc(m, data, 0xffff_ffff).draw.fc == Low16(data)
    ensures WriteFc(m, data, mask).draw.fc as bv32 == Combine32(m.draw.fc as bv32, data, mask) & 0xffff
  {
    CombineData16(m.draw.fc, data, mask);
    Combine16Laws(m.draw.fc, Low16(data), Low16(mask));
    Low16Full();
    Combine16Full(m.draw.fc, Low16(data));
  }

  /** BC write: a masked update of the 16-bit background colour. */
  function WriteBc(m: Machine, data: bv32, mask: bv32): (r: Machine)
    ensures r.draw.(bc := m.draw.bc) == m.draw
    ensures r.(draw := m.draw) == m
  {
    m.(draw := m.draw.(bc := Combine16(m.draw.bc, Low16(data), Low16(mask))))
  }

  lemma WriteBcLaws(m: Machine, data: bv32, mask: bv32)
    ensures WriteBc(m, data, mask).draw.bc & Low16(mask) == Low16(data) & Low16(mask)
    ensures WriteBc(m, data, mask).draw.bc & !Low16(mask) == m.draw.bc & !Low16(mask)
    ensures WriteBc(m, data, 0xffff_ffff).draw.bc == Low16(data)
    ensures WriteBc(m, data, mask).draw.bc as bv32 == Combine32(m.draw.bc as bv32, data, mask) & 0xffff
  {
    CombineData16(m.draw.bc, data, mask);
    Combine16Laws(m.draw.bc, Low16(data), Low16(mask));
    Low16Full();
    Combine16Full(m.draw.bc, Low16(data));
  }

  /**
   * A dword write into the drawing-engine space: FBR, XRES, FC and BC take
   * it, every other port ignores it.
   */
  function DrawIoWrite(m: Machine, offset: int, data: bv32, mask: bv32): (r: Machine)
    requires 0 <= offset < 0x1_0000 && offset % 4 == 0
    ensures offset == FBR ==> r == WriteFbr(m, data, mask)
    ensures offset == XRES ==> r == WriteXres(m, data, mask)
    ensures offset == FC ==> r == WriteFc(m, data, mask)
    ensures offset == BC ==> r == WriteBc(m, data, mask)
    ensures offset !in {FBR, XRES, FC, BC} ==> r == m
    ensures r.(fb := m.fb, draw := m.draw) == m
  {
    if offset == FBR then WriteFbr(m, data, mask)
    else if offset == XRES then WriteXres(m, data, mask)
    else if offset == FC then WriteFc(m, data, mask)
    else if offset == BC then WriteBc(m, data, mask)
    else m
  }

  /** vsync_cb: raise the VSYNC status bit, drive XINT, re-arm for the same scanline. */
  function VsyncCb(m: Machine): (r: Machine)
    ensures r.irq.mask == m.irq.mask
    ensures r.xint == m.xint + [Level(r.irq)]
    ensures r.vsync == AtScanline(m.crtc.vdp as int + 1)
    ensures r.(irq := m.irq, xint := m.xint, vsync := m.vsync) == m
  {
    CheckIrqs(m.(irq := m.irq.(ist := SetBits(m.irq.ist, IRQ_VSYNC)))).(vsync := AtScanline(m.crtc.vdp as int + 1))
  }

  lemma VsyncCbLaws(m: Machine)
    ensures VsyncCb(m).irq.ist & IRQ_VSYNC == IRQ_VSYNC
    ensures VsyncCb(m).irq.ist & !IRQ_VSYNC == m.irq.ist & !IRQ_VSYNC
  {
    SetBitsLaws(m.irq.ist, IRQ_VSYNC);
  }

  /** device_reset: cancel the timer and clear DCE, LSA, LCO, LREQ, IST and MASK. */
  function Reset(m: Machine): (r: Machine)
    ensures r.dce == 0 && r.irq == Irq(0, 0) && r.vsync == Never
    ensures !Level(r.irq)
    ensures r.displaylist == m.displaylist.(lsa := 0, lco := 0, lreq := false)
    ensures r.(dce := m.dce, displaylist := m.displaylist, irq := m.irq, vsync := m.vsync) == m
  {
    m.(dce := 0, displaylist := m.displaylist.(lsa := 0, lco := 0, lreq := false), irq := Irq(0, 0), vsync := Never)
  }

  /** An interrupt acknowledge can only lower the XINT level, never raise it. */
  lemma AckNeverRaises(m: Machine, data: bv32)
    ensures Level(WriteIst(m, data).irq) ==> Level(m.irq)
  {
    KeepBitsNoNewBits(m.irq.ist, data, m.irq.mask);
  }

  /** Writing zero to IST clears every status bit and drives XINT low. */
  lemma AckZeroClears(m: Machine)
    ensures WriteIst(m, 0).irq.ist == 0
    ensures WriteIst(m, 0).xint == m.xint + [false]
  {
    KeepBitsLaws(m.irq.ist, 0);
  }
}
