/**
 * The MB86292 as an object: the registers are fields that the host's
 * writes update in place, video memory is a byte array that the drawing
 * commands write into, and the levels driven on XINT are appended to a
 * history. Every method is proved to leave the object in the state that
 * the corresponding function of the value model computes from the old one.
 */
module Device {
  import opened BitOps
  import opened VideoMemory
  import opened Raster
  import opened Crtc
  import opened Registers
  import opened Interpreter
  import opened ScreenOutput

  class Mb86292 {
    var dce: bv16
    var displaylist: DisplayList
    var crtc: CrtcRegs
    var irq: Irq
    var fb: FrameBuffer
    var draw: DrawRegs
    var clayer: ConsoleLayer
    var screen: Screen
    var vsync: Vsync
    var xint: seq<bool>
    const vram: array<bv8>

    /** The object as a value of the register-file model. */
    ghost function State(): Machine
      reads this, vram
    {
      Machine(dce, displaylist, crtc, irq, fb, draw, clayer, screen, vsync, xint, vram[..])
    }

    /** A device on the given video memory, with every register clear and the screen not yet configured. */
    constructor (vram: array<bv8>)
      ensures this.vram == vram
      ensures State() == Machine(0, DisplayList(0, 0, false, 0), CrtcRegs(0, 0, 0, 0, 0, 0, 0, 0, 0), Irq(0, 0),
                                 FrameBuffer(0, 0), DrawRegs(0, 0), ConsoleLayer(0, false, 1, 0, 0),
                                 Unconfigured, Never, [], vram[..])
      ensures ConsoleDerived(State().clayer)
    {
      this.vram := vram;
      dce := 0;
      displaylist := DisplayList(0, 0, false, 0);
      crtc := CrtcRegs(0, 0, 0, 0, 0, 0, 0, 0, 0);
      irq := Irq(0, 0);
      fb := FrameBuffer(0, 0);
      draw := DrawRegs(0, 0);
      clayer := ConsoleLayer(0, false, 1, 0, 0);
      screen := Unconfigured;
      vsync := Never;
      xint := [];
    }

    /* ------------------------------------------------------ video memory */

    /** vram_read_word. */
    method ReadWordAt(a: int) returns (w: bv16)
      requires WordInRange(vram[..], a)
      ensures w == ReadWord(vram[..], a)
    {
      w := (vram[a + 1] as bv16 << 8) | vram[a] as bv16;
    }

    /** vram_read_dword. */
    method ReadDwordAt(a: int) returns (d: bv32)
      requires DwordInRange(vram[..], a)
      ensures d == ReadDword(vram[..], a)
    {
      var lo := ReadWordAt(a);
      var hi := ReadWordAt(a + 2);
      d := Dword(hi, lo);
    }

    /** vram_write_word. */
    method WriteWordAt(a: int, w: bv16)
      requires WordInRange(vram[..], a)
      modifies vram
      ensures vram[..] == WriteWord(old(vram[..]), a, w)
    {
      vram[a] := (w & 0xff) as bv8;
      vram[a + 1] := (w >> 8) as bv8;
    }

    /* ---------------------------------------------------------- interrupts */

    /** check_irqs. */
    method CheckIrqs()
      modifies this
      ensures State() == Registers.CheckIrqs(old(State()))
    {
      xint := xint + [Level(irq)];
    }

    /** vsync_cb. */
    method VsyncCb()
      modifies this
      ensures State() == Registers.VsyncCb(old(State()))
    {
      irq := irq.(ist := SetBits(irq.ist, IRQ_VSYNC));
      CheckIrqs();
      vsync := AtScanline(crtc.vdp as int + 1);
    }

    /** device_reset. */
    method Reset()
      modifies this
      ensures State() == Registers.Reset(old(State()))
    {
      vsync := Never;
      dce := 0;
      displaylist := displaylist.(lsa := 0, lco := 0, lreq := false);
      irq := Irq(0, 0);
    }

    /* ------------------------------------------------ host-interface ports */

    method WriteIst(data: bv32)
      modifies this
      ensures State() == Registers.WriteIst(old(State()), data)
    {
      irq := irq.(ist := KeepBits(irq.ist, data));
      CheckIrqs();
    }

    method WriteMask(data: bv32, mask: bv32)
      modifies this
      ensures State() == Registers.WriteMask(old(State()), data, mask)
    {
      irq := irq.(mask := Combine32(irq.mask, data, mask));
      CheckIrqs();
    }

    method WriteLsa(data: bv32, mask: bv32)
      modifies this
      ensures State() == Registers.WriteLsa(old(State()), data, mask)
    {
      displaylist := displaylist.(lsa := Combine24(displaylist.lsa, Low24(data), Low24(mask)));
    }

    method WriteLco(data: bv32, mask: bv32)
      modifies this
      ensures State() == Registers.WriteLco(old(State()), data, mask)
    {
      displaylist := displaylist.(lco := Combine24(displaylist.lco, Low24(data), Low24(mask)));
    }

    /** LREQ: set the request from bit 0 and run the list; `completed` is false when a command faulted. */
    method WriteLreq(data: bv8) returns (completed: bool)
      modifies this, vram
      ensures Interpreter.WriteLreq(old(State()), data) == (if completed then Completed(State()) else Faulted(State()))
    {
      displaylist := displaylist.(lreq := data & 1 != 0);
      completed := ProcessDisplayList();
    }

    /* ------------------------------------------------ display-engine ports */

    method WriteDce(data: bv16, mask: bv16)
      modifies this
      ensures State() == Registers.WriteDce(old(State()), data, mask)
    {
      dce := Combine16(dce, data, mask);
    }

    /** reconfigure_screen. */
    method ReconfigureScreen()
      modifies this
      ensures State() == Registers.ReconfigureScreen(old(State()))
    {
      var out := Reconfigure(crtc, screen);
      screen := out.screen;
      vsync := out.vsync;
    }

    /** HTP, HDP, HDB, HSP, VTR, VSP and VDP. */
    method WriteCrtc(f: CrtcField, data: bv16, mask: bv16)
      modifies this
      ensures State() == Registers.WriteCrtc(old(State()), f, data, mask)
    {
      crtc := CrtcWrite(crtc, f, data, mask);
      ReconfigureScreen();
    }

    method WriteHsw(data: bv8)
      modifies this
      ensures State() == Registers.WriteHsw(old(State()), data)
    {
      crtc := crtc.(hsw := Low6(data));
      ReconfigureScreen();
    }

    method WriteVsw(data: bv8)
      modifies this
      ensures State() == Registers.WriteVsw(old(State()), data)
    {
      crtc := crtc.(vsw := Low6(data));
      ReconfigureScreen();
    }

    method WriteCm(data: bv32, mask: bv32)
      modifies this
      ensures State() == Registers.WriteCm(old(State()), data, mask)
      ensures ConsoleDerived(clayer)
    {
      var cm := Combine32(clayer.cm, data, mask);
      clayer := clayer.(cm := cm);
      clayer := clayer.(ch := ConsoleHeight(cm));
      clayer := clayer.(cw := ConsoleWidth(cm));
      clayer := clayer.(cc := cm & 0x8000_0000 != 0);
    }

    method WriteCda(data: bv32, mask: bv32)
      modifies this
      ensures State() == Registers.WriteCda(old(State()), data, mask)
    {
      clayer := clayer.(cda := Combine26(clayer.cda, Low26(data), Low26(mask)));
    }

    /* ------------------------------------------------ drawing-engine ports */

    /** A dword write at `offset` in the drawing-engine space. */
    method DrawIoWrite(offset: int, data: bv32, mask: bv32)
      requires 0 <= offset < 0x1_0000 && offset % 4 == 0
      modifies this
      ensures State() == Registers.DrawIoWrite(old(State()), offset, data, mask)
    {
      if offset == FBR {
        fb := fb.(base := Combine26(fb.base, Low26(data), Low26(mask)));
      } else if offset == XRES {
        fb := fb.(xres := Combine12(fb.xres, Low12(data), Low12(mask)));
      } else if offset == FC {
        draw := draw.(fc := Combine16(draw.fc, Low16(data), Low16(mask)));
      } else if offset == BC {
        draw := draw.(bc := Combine16(draw.bc, Low16(data), Low16(mask)));
      }
    }

    /* ------------------------------------------------------ pixel loops */

    /** Write the fill colour over the grid, row by row. */
    method FillRect(op: FillOp)
      requires FillFits(op, vram.Length)
      modifies vram
      ensures vram[..] == Raster.FillRect(old(vram[..]), op)
    {
      ghost var v0 := vram[..];
      var g := op.grid;
      var y := g.y0;
      while y < g.y1
        invariant g.y0 <= y <= YEnd(g)
        invariant vram[..] == FillTo(v0, op, y, g.x0)
        decreases g.y1 - y
      {
        FillRow(op, y, v0);
        y := y + 1;
      }
    }

    /** The inner loop of the fill: row `y`, column by column. */
    method FillRow(op: FillOp, y: int, ghost v0: seq<bv8>)
      requires |v0| == vram.Length && FillFits(op, |v0|)
      requires op.grid.y0 <= y < op.grid.y1
      requires vram[..] == FillTo(v0, op, y, op.grid.x0)
      modifies vram
      ensures vram[..] == FillTo(v0, op, y, XEnd(op.grid))
    {
      var g := op.grid;
      var x := g.x0;
      while x < g.x1
        invariant g.x0 <= x <= XEnd(g)
        invariant vram[..] == FillTo(v0, op, y, x)
        decreases g.x1 - x
      {
        WriteWordAt(Addr(op.dst, Point(y, x)), op.color);
        x := x + 1;
      }
      assert x == XEnd(g);
    }

    /** Move the grid's words from the source plane to the target plane, row by row. */
    method CopyRect(c: CopyOp)
      requires CopyFits(c, vram.Length)
      modifies vram
      ensures vram[..] == Raster.CopyRect(old(vram[..]), c)
    {
      ghost var v0 := vram[..];
      var g := c.grid;
      var y := g.y0;
      while y < g.y1
        invariant g.y0 <= y <= YEnd(g)
        invariant vram[..] == CopyTo(v0, c, y, g.x0)
        decreases g.y1 - y
      {
        CopyRow(c, y, v0);
        y := y + 1;
      }
    }

    /** The inner loop of the copy: row `y`, column by column, each read seeing the writes before it. */
    method CopyRow(c: CopyOp, y: int, ghost v0: seq<bv8>)
      requires |v0| == vram.Length && CopyFits(c, |v0|)
      requires c.grid.y0 <= y < c.grid.y1
      requires vram[..] == CopyTo(v0, c, y, c.grid.x0)
      modifies vram
      ensures vram[..] == CopyTo(v0, c, y, XEnd(c.grid))
    {
      var g := c.grid;
      var x := g.x0;
      while x < g.x1
        invariant g.x0 <= x <= XEnd(g)
        invariant vram[..] == CopyTo(v0, c, y, x)
        decreases g.x1 - x
      {
        CopyStep(c, y, x, v0);
        x := x + 1;
      }
      assert x == XEnd(g);
    }

    /** The body of the copy loops at row `y`, column `x`. */
    method CopyStep(c: CopyOp, y: int, x: int, ghost v0: seq<bv8>)
      requires |v0| == vram.Length && CopyFits(c, |v0|)
      requires c.grid.y0 <= y < c.grid.y1 && c.grid.x0 <= x < c.grid.x1
      requires vram[..] == CopyTo(v0, c, y, x)
      modifies vram
      ensures vram[..] == CopyTo(v0, c, y, x + 1)
    {
      CopyToStep(v0, c, y, x);
      CopyPixel(SrcAddr(c, Point(y, x)), DstAddr(c, Point(y, x)));
    }

    /** One pixel of the copy: the word at `src` is read and written to `dst`. */
    method CopyPixel(src: int, dst: int)
      requires WordInRange(vram[..], src) && WordInRange(vram[..], dst)
      modifies vram
      ensures vram[..] == WriteWord(old(vram[..]), dst, ReadWord(old(vram[..]), src))
    {
      var pixel := ReadWordAt(src);
      WriteWordAt(dst, pixel);
    }

    /* ---------------------------------------------------- display list */

    /** SetRegister: each of `count` operand words, in order, to the same drawing-engine offset. */
    method SetRegisters(offset: int, at: int, count: nat)
      requires 0 <= offset < 0x1_0000 && offset % 4 == 0
      requires 0 <= at && at + 4 * count <= vram.Length
      modifies this
      ensures State() == Interpreter.SetRegisters(old(State()), offset, old(vram[..]), at, count)
    {
      ghost var m0 := State();
      var i := 0;
      while i < count
        invariant 0 <= i <= count
        invariant State() == Interpreter.SetRegisters(m0, offset, m0.vram, at, i)
      {
        var d := ReadDwordAt(at + 4 * i);
        DrawIoWrite(offset, d, 0xffff_ffff);
        i := i + 1;
      }
    }

    /** One command; `ok` is false for a fault, which changes nothing. */
    method Execute(at: int, opcode: bv32) returns (ok: bool)
      requires 0 <= at && at + 4 * CommandWords(opcode) <= vram.Length
      modifies this, vram
      ensures Interpreter.Execute(old(State()), at, opcode) == (if ok then Next(State()) else Fault)
      ensures !ok ==> State() == old(State())
    {
      var t := OpType(opcode);
      ok := true;
      if t == 0x09 {
        ok := DrawRect(at, opcode);
      } else if t == 0x0f {
        ok := BltCopy(at);
      } else if t == 0xf0 {
        if OpCommand(opcode) == 0xc1 {
          ok := FbCommit();
        }
      } else if t == 0xf1 {
        SetRegisters(RegOffset(opcode), at + 4, OpCommand(opcode) as int);
      } else if t == 0xfd {
        Interrupt();
      }
    }

    /** DrawRectP; `ok` is false when a pixel of the fill lies outside video memory. */
    method DrawRect(at: int, opcode: bv32) returns (ok: bool)
      requires 0 <= at && at + 12 <= vram.Length
      modifies vram
      ensures Interpreter.DrawRect(old(State()), at, opcode) == (if ok then Next(State()) else Fault)
      ensures !ok ==> State() == old(State())
    {
      ok := true;
      if OpCommand(opcode) == 0x41 {
        ghost var m0 := State();
        var rxs := ReadWordAt(at + 4);
        var rys := ReadWordAt(at + 6);
        var rsizex := ReadWordAt(at + 8);
        var rsizey := ReadWordAt(at + 0xa);
        var op := FillOp(FbPlane(fb), Grid(rys as int, rsizey as int, rxs as int, rsizex as int), draw.fc);
        assert op == FillCommand(m0, at);
        if FillFits(op, vram.Length) {
          FillRect(op);
          assert State() == m0.(vram := Raster.FillRect(m0.vram, op));
        } else {
          ok := false;
        }
      }
    }

    /** BltCopyAlternateP; `ok` is false when a pixel of either plane lies outside video memory. */
    method BltCopy(at: int) returns (ok: bool)
      requires 0 <= at && at + 32 <= vram.Length
      modifies vram
      ensures Interpreter.BltCopy(old(State()), at) == (if ok then Next(State()) else Fault)
      ensures !ok ==> State() == old(State())
    {
      ghost var m0 := State();
      var saddr := ReadDwordAt(at + 0x04);
      var sstride := ReadDwordAt(at + 0x08);
      var sry := ReadWordAt(at + 0x0e);
      var srx := ReadWordAt(at + 0x0c);
      var daddr := ReadDwordAt(at + 0x10);
      var dstride := ReadDwordAt(at + 0x14);
      var dry := ReadWordAt(at + 0x1a);
      var drx := ReadWordAt(at + 0x18);
      var brsizey := ReadWordAt(at + 0x1e);
      var brsizex := ReadWordAt(at + 0x1c);
      var b := BlitOperands(saddr as int, sstride as int, sry as int, srx as int,
                            daddr as int, dstride as int, dry as int, drx as int,
                            brsizey as int, brsizex as int);
      assert b == BlitOperandsAt(m0.vram, at);
      var c := BlitCommand(b);
      ok := CopyFits(c, vram.Length);
      if ok {
        CopyRect(c);
        assert State() == m0.(vram := Raster.CopyRect(m0.vram, c));
      }
    }

    /** The Interrupt command. */
    method Interrupt()
      modifies this
      ensures State() == Interpreter.Interrupt(old(State()))
    {
      irq := irq.(ist := SetBits(irq.ist, IRQ_CEND));
      CheckIrqs();
    }

    /** fb_commit; `ok` is false when a pixel of either plane lies outside video memory. */
    method FbCommit() returns (ok: bool)
      modifies vram
      ensures Interpreter.FbCommit(old(State())) == (if ok then Next(State()) else Fault)
      ensures !ok ==> State() == old(State())
    {
      var c := CopyOp(Plane(clayer.cda as int, clayer.cw), Point(0, 0), FbPlane(fb), Point(0, 0),
                      Grid(0, crtc.vdp as int + 1, 0, crtc.hdp as int + 1));
      ghost var m0 := State();
      assert c == CommitCommand(m0);
      ok := CopyFits(c, vram.Length);
      if ok {
        CopyRect(c);
        assert State() == m0.(vram := Raster.CopyRect(m0.vram, c));
      }
    }

    /** One iteration of the interpreter loop; `ok` is false for a fault, which changes nothing. */
    method Step() returns (ok: bool)
      modifies this, vram
      ensures Interpreter.Step(old(State())) == (if ok then Next(State()) else Fault)
      ensures !ok ==> State() == old(State())
    {
      ghost var m0 := State();
      var cur := displaylist.cur;
      if !(0 <= cur && cur + 3 < vram.Length) {
        StepFaults(m0);
        return false;
      }
      var opcode := ReadDwordAt(cur);
      var n := CommandWords(opcode);
      if cur + 4 * n > vram.Length {
        StepFaults(m0);
        return false;
      }
      ok := Execute(cur, opcode);
      if ok {
        ghost var e := State();
        StepExecutes(m0, e);
        displaylist := displaylist.(cur := cur + 4 * n);
      } else {
        StepFaults(m0);
      }
    }

    /** process_display_list; `completed` is false when a command faulted. */
    method ProcessDisplayList() returns (completed: bool)
      modifies this, vram
      ensures Interpreter.ProcessDisplayList(old(State())) == (if completed then Completed(State()) else Faulted(State()))
    {
      if !displaylist.lreq {
        return true;
      }
      var end := ListEnd(displaylist);
      displaylist := displaylist.(cur := displaylist.lsa as int);
      ghost var start := State();
      while displaylist.cur < end
        invariant Run(State(), end) == Run(start, end)
        decreases end - displaylist.cur
      {
        ghost var before := State();
        var ok := Step();
        if !ok {
          assert Run(before, end) == Faulted(before);
          return false;
        }
      }
      displaylist := displaylist.(lreq := false);
      return true;
    }

    /* ------------------------------------------------------------ output */

    /**
     * screen_update over the clip rectangle (minX..maxX, minY..maxY): black
     * while DCE blanks the display, otherwise each frame-buffer pixel
     * through pal555. Row j, column i of the result is pixel (minY + j, minX + i).
     */
    method ScreenUpdate(minX: int, maxX: int, minY: int, maxY: int) returns (rows: seq<seq<Rgb>>)
      requires !Blanked(dce) ==>
                 forall y: int, x: int | minY <= y <= maxY && minX <= x <= maxX ::
                   Addr(FbPlane(fb), Point(y, x)) + 1 < vram.Length
      ensures |rows| == (if maxY >= minY then maxY - minY + 1 else 0)
      ensures forall j :: 0 <= j < |rows| ==> |rows[j]| == (if maxX >= minX then maxX - minX + 1 else 0)
      ensures Blanked(dce) ==> forall j, i :: 0 <= j < |rows| && 0 <= i < |rows[j]| ==> rows[j][i] == Black
      ensures !Blanked(dce) ==>
                forall j, i :: 0 <= j < |rows| && 0 <= i < |rows[j]| ==>
                  rows[j][i] == Pal555(ReadWord(vram[..], Addr(FbPlane(fb), Point(minY + j, minX + i))))
    {
      var width := if maxX >= minX then maxX - minX + 1 else 0;
      rows := [];
      if Blanked(dce) {
        rows := seq(if maxY >= minY then maxY - minY + 1 else 0, _ => seq(width, _ => Black));
        return;
      }
      var plane := FbPlane(fb);
      var y := minY;
      while y <= maxY
        invariant minY <= y <= (if maxY >= minY then maxY + 1 else minY)
        invariant |rows| == y - minY
        invariant forall j :: 0 <= j < |rows| ==> |rows[j]| == width
        invariant forall j, i :: 0 <= j < |rows| && 0 <= i < |rows[j]| ==>
                    rows[j][i] == Pal555(ReadWord(vram[..], Addr(plane, Point(minY + j, minX + i))))
      {
        var row: seq<Rgb> := [];
        var x := minX;
        while x <= maxX
          invariant minX <= x <= (if maxX >= minX then maxX + 1 else minX)
          invariant |row| == x - minX
          invariant forall i :: 0 <= i < |row| ==> row[i] == Pal555(ReadWord(vram[..], Addr(plane, Point(y, minX + i))))
        {
          var pixel := ReadWordAt(Addr(plane, Point(y, x)));
          row := row + [Pal555(pixel)];
          x := x + 1;
        }
        rows := rows + [row];
        y := y + 1;
      }
    }
  }
}
