/**
 * The MB86292 display-list interpreter (process_display_list): on a list
 * transfer request it walks the command words in video memory from LSA,
 * LCO words long, decoding each opcode and executing the few commands the
 * device implements: rectangle fill, block copy, frame-buffer commit,
 * drawing-register writes and the end-of-list interrupt.
 *
 * The source reads and writes video memory without bounds checks. Here a
 * command whose words, or whose pixel reads and writes, leave video memory
 * is a fault: the interpreter stops before that command has any effect and
 * the transfer request stays pending.
 */
module Interpreter {
  import opened BitOps
  import opened VideoMemory
  import opened Raster
  import opened Crtc
  import opened Registers

  /* ------------------------------------------------------------ decoding */

  /** Opcode bits 31-24: the command type. */
  function OpType(opcode: bv32): bv8
  {
    (opcode >> 24) as bv8
  }

  /** Opcode bits 23-16: the sub-command, or SetRegister's value count. */
  function OpCommand(opcode: bv32): bv8
  {
    ((opcode >> 16) & 0xff) as bv8
  }

  /** Opcode bits 15-0: SetRegister's register index. */
  function RegAddress(opcode: bv32): bv16
  {
    (opcode & 0xffff) as bv16
  }

  /**
   * The number of 32-bit words a command occupies, opcode included: two
   * operand words for a rectangle fill, seven for a block copy, four for
   * the viewport and view-volume XY commands, two for depth range and
   * view-volume Z, one per value for SetRegister, none otherwise.
   */
  function CommandWords(opcode: bv32): (n: int)
    ensures 1 <= n <= 256
    ensures OpType(opcode) == 0xf1 ==> n == 1 + OpCommand(opcode) as int
  {
    var t := OpType(opcode);
    if t == 0x09 then 3
    else if t == 0x0f then 8
    else if t == 0x41 || t == 0x44 then 5
    else if t == 0x42 || t == 0x45 then 3
    else if t == 0xf1 then 1 + OpCommand(opcode) as int
    else 1
  }

  /**
   * The byte offset SetRegister writes to in the 16-bit drawing-engine
   * space: the register index times four, reduced to that space's width.
   */
  function RegOffset(opcode: bv32): (offset: int)
    ensures 0 <= offset < 0x1_0000 && offset % 4 == 0
    ensures offset == (RegAddress(opcode) as int * 4) % 0x1_0000
  {
    var a := RegAddress(opcode) as int;
    assert (a * 4) % 0x1_0000 == 4 * (a % 0x4000);
    (a * 4) % 0x1_0000
  }

  /* ------------------------------------------------------------ commands */

  /** A machine's transfer span: LCO words, where zero means 0x1000000 bytes. */
  function ListBytes(lco: bv24): (n: int)
    ensures lco == 0 ==> n == 0x100_0000
    ensures lco != 0 ==> n == 4 * lco as int
    ensures 0 < n <= 0x400_0000
  {
    if lco == 0 then 0x100_0000 else lco as int * 4
  }

  /**
   * DrawRectP / BltFill: fill rows [rys, rsizey) and columns [rxs, rsizex)
   * of the frame buffer with the foreground colour. The operand halfwords
   * sit at +4 (rxs), +6 (rys), +8 (rsizex) and +0xa (rsizey).
   */
  function FillCommand(m: Machine, at: int): (op: FillOp)
    requires 0 <= at && at + 12 <= |m.vram|
    ensures op.dst == FbPlane(m.fb) && op.color == m.draw.fc
    ensures 0 <= op.grid.y0 < 0x1_0000 && 0 <= op.grid.y1 < 0x1_0000
    ensures 0 <= op.grid.x0 < 0x1_0000 && 0 <= op.grid.x1 < 0x1_0000
  {
    var rxs := ReadWord(m.vram, at + 4) as int;
    var rys := ReadWord(m.vram, at + 6) as int;
    var rsizex := ReadWord(m.vram, at + 8) as int;
    var rsizey := ReadWord(m.vram, at + 0xa) as int;
    FillOp(FbPlane(m.fb), Grid(rys, rsizey, rxs, rsizex), m.draw.fc)
  }

  /** The operands of BltCopyAlternateP, as the unsigned values the source reads. */
  datatype BlitOperands = BlitOperands(
    saddr: int, sstride: int, sry: int, srx: int,
    daddr: int, dstride: int, dry: int, drx: int,
    brsizey: int, brsizex: int)

  /**
   * The operand layout: dwords saddr (+4), sstride (+8), daddr (+0x10),
   * dstride (+0x14); halfwords srx (+0xc), sry (+0xe), drx (+0x18),
   * dry (+0x1a), brsizex (+0x1c), brsizey (+0x1e).
   */
  function BlitOperandsAt(v: seq<bv8>, at: int): (b: BlitOperands)
    requires 0 <= at && at + 32 <= |v|
    ensures 0 <= b.brsizey < 0x1_0000 && 0 <= b.brsizex < 0x1_0000
  {
    BlitOperands(
      ReadDword(v, at + 0x04) as int, ReadDword(v, at + 0x08) as int,
      ReadWord(v, at + 0x0e) as int, ReadWord(v, at + 0x0c) as int,
      ReadDword(v, at + 0x10) as int, ReadDword(v, at + 0x14) as int,
      ReadWord(v, at + 0x1a) as int, ReadWord(v, at + 0x18) as int,
      ReadWord(v, at + 0x1e) as int, ReadWord(v, at + 0x1c) as int)
  }

  /**
   * BltCopyAlternateP: copy a brsizey x brsizex block from (sry, srx) of
   * the plane at saddr with sstride pixels per row to (dry, drx) of the
   * plane at daddr with dstride pixels per row.
   */
  function BlitCommand(b: BlitOperands): (c: CopyOp)
    ensures c.grid == Grid(0, b.brsizey, 0, b.brsizex)
  {
    CopyOp(Plane(b.saddr, 2 * b.sstride), Point(b.sry, b.srx), Plane(b.daddr, 2 * b.dstride), Point(b.dry, b.drx),
           Grid(0, b.brsizey, 0, b.brsizex))
  }

  /**
   * fb_commit: copy the visible area, rows 0..VDP and columns 0..HDP, from
   * the console layer at CDA (cw bytes per row) to the frame buffer.
   */
  function CommitCommand(m: Machine): (c: CopyOp)
    ensures c.src == Plane(m.clayer.cda as int, m.clayer.cw) && c.dst == FbPlane(m.fb)
    ensures c.srcAt == Point(0, 0) && c.dstAt == Point(0, 0)
    ensures c.grid == Grid(0, m.crtc.vdp as int + 1, 0, m.crtc.hdp as int + 1)
  {
    CopyOp(Plane(m.clayer.cda as int, m.clayer.cw), Point(0, 0), FbPlane(m.fb), Point(0, 0),
           Grid(0, m.crtc.vdp as int + 1, 0, m.crtc.hdp as int + 1))
  }

  /**
   * SetRegister: the first `count` operand words of `words` from `at`, in
   * order, each written with a full mask to the same drawing-engine offset.
   */
  function SetRegisters(m: Machine, offset: int, words: seq<bv8>, at: int, count: nat): (r: Machine)
    requires 0 <= offset < 0x1_0000 && offset % 4 == 0
    requires 0 <= at && at + 4 * count <= |words|
    ensures r.(fb := m.fb, draw := m.draw) == m
    decreases count
  {
    if count == 0 then m
    else
      var prev := SetRegisters(m, offset, words, at, count - 1);
      DrawIoWrite(prev, offset, ReadDword(words, at + 4 * (count - 1)), 0xffff_ffff)
  }

  /** The outcome of one command: the new machine, or a fault with no effect. */
  datatype StepResult = Next(m: Machine) | Fault

  /** What no command changes: the display registers, the screen and the size of video memory. */
  predicate ListFrame(m: Machine, r: Machine)
  {
    && r.dce == m.dce
    && r.crtc == m.crtc
    && r.clayer == m.clayer
    && r.screen == m.screen
    && r.vsync == m.vsync
    && |r.vram| == |m.vram|
  }

  /** The frame-buffer commit, faulting if a pixel of either plane leaves video memory. */
  function FbCommit(m: Machine): (r: StepResult)
    ensures r.Next? <==> CopyFits(CommitCommand(m), |m.vram|)
    ensures r.Next? ==> r.m == m.(vram := CopyRect(m.vram, CommitCommand(m)))
  {
    var c := CommitCommand(m);
    if CopyFits(c, |m.vram|) then Next(m.(vram := CopyRect(m.vram, c))) else Fault
  }

  /** DrawRectP: the BltFill sub-command fills, every other sub-command does nothing. */
  function DrawRect(m: Machine, at: int, opcode: bv32): (r: StepResult)
    requires 0 <= at && at + 12 <= |m.vram|
    ensures r.Next? ==> r.m.(vram := m.vram) == m && |r.m.vram| == |m.vram|
    ensures OpCommand(opcode) != 0x41 ==> r == Next(m)
  {
    if OpCommand(opcode) == 0x41 then
      var op := FillCommand(m, at);
      if FillFits(op, |m.vram|) then Next(m.(vram := FillRect(m.vram, op))) else Fault
    else Next(m)
  }

  /** BltCopyAlternateP, faulting if a pixel of either plane leaves video memory. */
  function BltCopy(m: Machine, at: int): (r: StepResult)
    requires 0 <= at && at + 32 <= |m.vram|
    ensures r.Next? ==> r.m.(vram := m.vram) == m && |r.m.vram| == |m.vram|
  {
    var c := BlitCommand(BlitOperandsAt(m.vram, at));
    if CopyFits(c, |m.vram|) then Next(m.(vram := CopyRect(m.vram, c))) else Fault
  }

  /** The Interrupt command: raise CEND and drive XINT. */
  function Interrupt(m: Machine): (r: Machine)
    ensures r.(irq := m.irq, xint := m.xint) == m
  {
    CheckIrqs(m.(irq := m.irq.(ist := SetBits(m.irq.ist, IRQ_CEND))))
  }

  /** The effect of the command `opcode` whose words start at `at`. */
  function Execute(m: Machine, at: int, opcode: bv32): (r: StepResult)
    requires 0 <= at && at + 4 * CommandWords(opcode) <= |m.vram|
    ensures r.Next? ==> r.m.displaylist == m.displaylist && ListFrame(m, r.m)
  {
    var t := OpType(opcode);
    if t == 0x09 then DrawRect(m, at, opcode)
    else if t == 0x0f then BltCopy(m, at)
    else if t == 0xf0 then
      if OpCommand(opcode) == 0xc1 then FbCommit(m) else Next(m)
    else if t == 0xf1 then Next(SetRegisters(m, RegOffset(opcode), m.vram, at + 4, OpCommand(opcode) as int))
    else if t == 0xfd then Next(Interrupt(m))
    else Next(m)
  }

  /** One iteration of the interpreter loop: decode at the cursor, execute, advance. */
  function Step(m: Machine): (r: StepResult)
    ensures r.Next? ==> DwordInRange(m.vram, m.displaylist.cur)
    ensures r.Next? ==>
              r.m.displaylist == m.displaylist.(cur := m.displaylist.cur + 4 * CommandWords(ReadDword(m.vram, m.displaylist.cur)))
    ensures r.Next? ==> ListFrame(m, r.m)
  {
    var cur := m.displaylist.cur;
    if !DwordInRange(m.vram, cur) then Fault
    else
      var opcode := ReadDword(m.vram, cur);
      if cur + 4 * CommandWords(opcode) > |m.vram| then Fault
      else
        match Execute(m, cur, opcode)
        case Fault => Fault
        case Next(n) => Next(n.(displaylist := n.displaylist.(cur := cur + 4 * CommandWords(opcode))))
  }

  /** A step whose command executes advances the cursor past the command's words. */
  lemma StepExecutes(m: Machine, e: Machine)
    requires DwordInRange(m.vram, m.displaylist.cur)
    requires m.displaylist.cur + 4 * CommandWords(ReadDword(m.vram, m.displaylist.cur)) <= |m.vram|
    requires Execute(m, m.displaylist.cur, ReadDword(m.vram, m.displaylist.cur)) == Next(e)
    ensures Step(m) == Next(e.(displaylist := e.displaylist.(cur := m.displaylist.cur + 4 * CommandWords(ReadDword(m.vram, m.displaylist.cur)))))
  {
  }

  /** A step faults when the opcode, the command's words or its command leave video memory. */
  lemma StepFaults(m: Machine)
    requires
      || !DwordInRange(m.vram, m.displaylist.cur)
      || m.displaylist.cur + 4 * CommandWords(ReadDword(m.vram, m.displaylist.cur)) > |m.vram|
      || Execute(m, m.displaylist.cur, ReadDword(m.vram, m.displaylist.cur)) == Fault
    ensures Step(m) == Fault
  {
  }

  /** How a transfer ends: the list was consumed, or a command faulted. */
  datatype Outcome = Completed(m: Machine) | Faulted(m: Machine)

  /** The loop `while (cur < end) { ... }` followed by `lreq = false`. */
  function Run(m: Machine, end: int): Outcome
    decreases end - m.displaylist.cur
  {
    if m.displaylist.cur >= end then Completed(m.(displaylist := m.displaylist.(lreq := false)))
    else
      match Step(m)
      case Fault => Faulted(m)
      case Next(n) => Run(n, end)
  }

  /** The end address of the transfer: LSA plus the span LCO gives. */
  function ListEnd(dl: DisplayList): (e: int)
    ensures dl.lsa as int < e < U32 - 1024
  {
    dl.lsa as int + ListBytes(dl.lco)
  }

  /** process_display_list: nothing unless a transfer is requested, else run from LSA. */
  function ProcessDisplayList(m: Machine): Outcome
  {
    if !m.displaylist.lreq then Completed(m)
    else Run(m.(displaylist := m.displaylist.(cur := m.displaylist.lsa as int)), ListEnd(m.displaylist))
  }

  /** LREQ write (a byte port): bit 0 becomes the request, then the list is processed. */
  function WriteLreq(m: Machine, data: bv8): (r: Outcome)
    ensures data & 1 == 0 ==> r == Completed(m.(displaylist := m.displaylist.(lreq := false)))
    ensures data & 1 != 0 && r.Completed? ==>
      && !r.m.displaylist.lreq
      && ListEnd(m.displaylist) <= r.m.displaylist.cur < ListEnd(m.displaylist) + 1024
    ensures r.Faulted? ==>
      && r.m.displaylist.lreq
      && m.displaylist.lsa as int <= r.m.displaylist.cur < ListEnd(m.displaylist)
    ensures r.m.displaylist.lsa == m.displaylist.lsa && r.m.displaylist.lco == m.displaylist.lco
    ensures ListFrame(m, r.m)
  {
    var n := m.(displaylist := m.displaylist.(lreq := data & 1 != 0));
    ProcessDisplayListOutcome(n);
    ProcessDisplayList(n)
  }

  /* -------------------------------------------------------------- lemmas */

  /**
   * The interpreter loop either consumes the list, leaving the cursor at or
   * past the end by less than one command and the request cleared, or
   * faults with the cursor still inside the list and the request kept. The
   * list registers and everything in ListFrame are preserved either way.
   */
  lemma {:induction false} RunOutcome(m: Machine, end: int)
    requires m.displaylist.cur < end + 1024
    ensures var r := Run(m, end);
      && r.m.displaylist.lsa == m.displaylist.lsa
      && r.m.displaylist.lco == m.displaylist.lco
      && ListFrame(m, r.m)
      && m.displaylist.cur <= r.m.displaylist.cur
    ensures Run(m, end).Completed? ==>
      var r := Run(m, end).m;
      !r.displaylist.lreq && end <= r.displaylist.cur < end + 1024
    ensures Run(m, end).Faulted? ==>
      var r := Run(m, end).m;
      r.displaylist.lreq == m.displaylist.lreq && r.displaylist.cur < end
    decreases end - m.displaylist.cur
  {
    if m.displaylist.cur < end {
      match Step(m)
      case Fault =>
      case Next(n) =>
        RunOutcome(n, end);
    }
  }

  /**
   * A transfer: without a request nothing happens; with one the list is
   * consumed up to LSA plus its span and the request is cleared, or a fault
   * stops it with the request still set. The cursor never wraps a u32.
   */
  lemma ProcessDisplayListOutcome(m: Machine)
    ensures !m.displaylist.lreq ==> ProcessDisplayList(m) == Completed(m)
    ensures var r := ProcessDisplayList(m).m;
      && r.displaylist.lsa == m.displaylist.lsa
      && r.displaylist.lco == m.displaylist.lco
      && ListFrame(m, r)
    ensures m.displaylist.lreq && ProcessDisplayList(m).Completed? ==>
      var r := ProcessDisplayList(m).m;
      && !r.displaylist.lreq
      && ListEnd(m.displaylist) <= r.displaylist.cur < ListEnd(m.displaylist) + 1024
      && r.displaylist.cur < U32
    ensures ProcessDisplayList(m).Faulted? ==>
      var r := ProcessDisplayList(m).m;
      && r.displaylist.lreq
      && m.displaylist.lsa as int <= r.displaylist.cur < ListEnd(m.displaylist)
  {
    if m.displaylist.lreq {
      RunOutcome(m.(displaylist := m.displaylist.(cur := m.displaylist.lsa as int)), ListEnd(m.displaylist));
    }
  }

  /** A command type the interpreter does not implement only moves the cursor by one word. */
  lemma UnknownOpcodeAdvances(m: Machine)
    requires DwordInRange(m.vram, m.displaylist.cur)
    requires var opcode := ReadDword(m.vram, m.displaylist.cur);
      || OpType(opcode) !in {0x09, 0x0f, 0x41, 0x42, 0x44, 0x45, 0xf0, 0xf1, 0xfd}
      || (OpType(opcode) == 0xf0 && OpCommand(opcode) != 0xc1)
    ensures Step(m) == Next(m.(displaylist := m.displaylist.(cur := m.displaylist.cur + 4)))
  {
  }

  /**
   * The commands the interpreter only decodes (the line and triangle draws
   * 0x41, 0x42, 0x44 and 0x45, and the DrawRectP sub-commands other than
   * BltFill) skip their operand words and change nothing else.
   */
  lemma DecodeOnlyAdvances(m: Machine)
    requires DwordInRange(m.vram, m.displaylist.cur)
    requires var opcode := ReadDword(m.vram, m.displaylist.cur);
      || OpType(opcode) in {0x41, 0x42, 0x44, 0x45}
      || (OpType(opcode) == 0x09 && OpCommand(opcode) != 0x41)
    requires m.displaylist.cur + 4 * CommandWords(ReadDword(m.vram, m.displaylist.cur)) <= |m.vram|
    ensures var opcode := ReadDword(m.vram, m.displaylist.cur);
      Step(m) == Next(m.(displaylist := m.displaylist.(cur := m.displaylist.cur + 4 * CommandWords(opcode))))
  {
  }

  /** A one-word list holding G_Nop: the transfer completes one word later and nothing else changes. */
  lemma NopListCompletes(m: Machine)
    requires m.displaylist.lsa == 0x1000 && m.displaylist.lco == 1 && m.displaylist.lreq
    requires |m.vram| >= 0x1004 && ReadDword(m.vram, 0x1000) == 0x2000_0000
    ensures ProcessDisplayList(m) == Completed(m.(displaylist := m.displaylist.(cur := 0x1004, lreq := false)))
  {
    var s := m.(displaylist := m.displaylist.(cur := 0x1000));
    var t := s.(displaylist := s.displaylist.(cur := 0x1004));
    assert ListEnd(m.displaylist) == 0x1004;
    assert OpType(0x2000_0000) == 0x20;
    assert CommandWords(0x2000_0000) == 1;
    assert Execute(s, 0x1000, 0x2000_0000) == Next(s);
    assert Step(s) == Next(t);
    assert Run(t, 0x1004) == Completed(t.(displaylist := t.displaylist.(lreq := false)));
  }

  /** The end-of-list interrupt raises CEND, keeps the other status bits and drives XINT. */
  lemma InterruptCommand(m: Machine, at: int, opcode: bv32)
    requires OpType(opcode) == 0xfd
    requires 0 <= at && at + 4 <= |m.vram|
    ensures Execute(m, at, opcode).Next?
    ensures var r := Execute(m, at, opcode).m;
      && r.irq.ist & IRQ_CEND == IRQ_CEND
      && r.irq.ist & !IRQ_CEND == m.irq.ist & !IRQ_CEND
      && r.irq.mask == m.irq.mask
      && r.xint == m.xint + [Level(r.irq)]
      && r.vram == m.vram
  {
    SetBitsLaws(m.irq.ist, IRQ_CEND);
  }

  /* ------------------------------------------------------- SetRegister */

  /** Two full-mask writes to the same drawing-engine port: the second wins. */
  lemma DrawIoWriteOverwrite(m: Machine, offset: int, d1: bv32, d2: bv32)
    requires 0 <= offset < 0x1_0000 && offset % 4 == 0
    ensures DrawIoWrite(DrawIoWrite(m, offset, d1, 0xffff_ffff), offset, d2, 0xffff_ffff)
            == DrawIoWrite(m, offset, d2, 0xffff_ffff)
  {
    var n := DrawIoWrite(m, offset, d1, 0xffff_ffff);
    if offset == FBR {
      WriteFbrLaws(m, d2, 0xffff_ffff);
      WriteFbrLaws(n, d2, 0xffff_ffff);
    } else if offset == XRES {
      WriteXresLaws(m, d2, 0xffff_ffff);
      WriteXresLaws(n, d2, 0xffff_ffff);
    } else if offset == FC {
      WriteFcLaws(m, d2, 0xffff_ffff);
      WriteFcLaws(n, d2, 0xffff_ffff);
    } else if offset == BC {
      WriteBcLaws(m, d2, 0xffff_ffff);
      WriteBcLaws(n, d2, 0xffff_ffff);
    }
  }

  /**
   * Because every SetRegister value goes to the same offset, a list of
   * `count` values has the effect of its last value alone.
   */
  lemma {:induction false} SetRegistersLastWins(m: Machine, offset: int, words: seq<bv8>, at: int, count: nat)
    requires 0 <= offset < 0x1_0000 && offset % 4 == 0
    requires 0 <= at && at + 4 * count <= |words|
    requires count >= 1
    ensures SetRegisters(m, offset, words, at, count) ==
            DrawIoWrite(m, offset, ReadDword(words, at + 4 * (count - 1)), 0xffff_ffff)
    decreases count
  {
    if count > 1 {
      var prev := SetRegisters(m, offset, words, at, count - 1);
      var d1 := ReadDword(words, at + 4 * (count - 2));
      var d2 := ReadDword(words, at + 4 * (count - 1));
      SetRegistersLastWins(m, offset, words, at, count - 1);
      assert prev == DrawIoWrite(m, offset, d1, 0xffff_ffff);
      assert SetRegisters(m, offset, words, at, count) == DrawIoWrite(prev, offset, d2, 0xffff_ffff);
      DrawIoWriteOverwrite(m, offset, d1, d2);
    }
  }

  /** SetRegister with no values changes nothing. */
  lemma SetRegistersEmpty(m: Machine, offset: int, words: seq<bv8>, at: int)
    requires 0 <= offset < 0x1_0000 && offset % 4 == 0
    requires 0 <= at <= |words|
    ensures SetRegisters(m, offset, words, at, 0) == m
  {
  }

  /* ------------------------------------------------- pixel addressing */

  /** No fill address wraps: it is the frame buffer base plus the row and column offsets. */
  lemma FillAddressExact(m: Machine, at: int, p: Point)
    requires 0 <= at && at + 12 <= |m.vram|
    requires InGrid(FillCommand(m, at).grid, p)
    ensures Addr(FillCommand(m, at).dst, p) == m.fb.base as int + p.y * (m.fb.xres as int * 2) + p.x * 2
  {
    RowAddressNoWrap(m.fb.base as int, m.fb.xres as int, p);
  }

  /** On a plane below 2^26 with fewer than 4096 pixels per row, rows and columns below 2^16 never wrap. */
  lemma RowAddressNoWrap(base: int, xres: int, p: Point)
    requires 0 <= base < 0x400_0000 && 0 <= xres < 0x1000
    requires 0 <= p.y < 0x1_0000 && 0 <= p.x < 0x1_0000
    ensures Addr(Plane(base, 2 * xres), p) == base + p.y * (xres * 2) + p.x * 2
  {
    MulBound(p.y, 0xffff, xres, 0xfff);
    var n := base + 2 * xres * p.y + 2 * p.x;
    assert 2 * xres * p.y == p.y * (xres * 2);
    assert 0 <= n < U32;
  }

  lemma MulBound(a: int, amax: int, b: int, bmax: int)
    requires 0 <= a <= amax && 0 <= b <= bmax
    ensures 0 <= a * b <= amax * bmax
  {
    assert a * b <= amax * b;
    assert amax * b <= amax * bmax;
  }

  /**
   * The block copy's addresses are the u32 expressions of the source:
   * base + ((row + yi) * stride << 1) + ((column + xi) << 1), modulo 2^32.
   */
  lemma BlitAddresses(b: BlitOperands, p: Point)
    ensures SrcAddr(BlitCommand(b), p) == Wrap32(b.saddr + ((b.sry + p.y) * b.sstride) * 2 + (b.srx + p.x) * 2)
    ensures DstAddr(BlitCommand(b), p) == Wrap32(b.daddr + ((b.dry + p.y) * b.dstride) * 2 + (b.drx + p.x) * 2)
  {
    StrideAddress(b.saddr, b.sstride, b.sry, b.srx, p);
    StrideAddress(b.daddr, b.dstride, b.dry, b.drx, p);
  }

  lemma StrideAddress(base: int, stride: int, y0: int, x0: int, p: Point)
    ensures Addr(Plane(base, 2 * stride), Point(y0 + p.y, x0 + p.x))
            == Wrap32(base + ((y0 + p.y) * stride) * 2 + (x0 + p.x) * 2)
  {
    assert 2 * stride * (y0 + p.y) == ((y0 + p.y) * stride) * 2;
  }

  /**
   * BltCopyAlternateP executes exactly when every pixel it reads and writes
   * lies in video memory, and then changes video memory alone, as the copy
   * loops do. When no source word overlaps a target word and the target
   * words are pairwise disjoint, each target pixel holds the source pixel
   * it was copied from.
   */
  lemma BltCopyEffect(m: Machine, at: int, opcode: bv32)
    requires OpType(opcode) == 0x0f
    requires 0 <= at && at + 32 <= |m.vram|
    ensures var c := BlitCommand(BlitOperandsAt(m.vram, at));
      Execute(m, at, opcode).Next? <==> CopyFits(c, |m.vram|)
    ensures var c := BlitCommand(BlitOperandsAt(m.vram, at));
      Execute(m, at, opcode).Next? ==> Execute(m, at, opcode).m == m.(vram := CopyRect(m.vram, c))
    ensures var c := BlitCommand(BlitOperandsAt(m.vram, at));
      && Execute(m, at, opcode).Next?
      && (forall p, q :: InGrid(c.grid, p) && InGrid(c.grid, q) ==> WordsDisjoint(SrcAddr(c, p), DstAddr(c, q)))
      && (forall p, q :: InGrid(c.grid, p) && InGrid(c.grid, q) && p != q ==> WordsDisjoint(DstAddr(c, p), DstAddr(c, q)))
      ==> forall p :: InGrid(c.grid, p) ==>
            ReadWord(Execute(m, at, opcode).m.vram, DstAddr(c, p)) == ReadWord(m.vram, SrcAddr(c, p))
  {
    var c := BlitCommand(BlitOperandsAt(m.vram, at));
    assert Execute(m, at, opcode) == BltCopy(m, at);
    if CopyFits(c, |m.vram|) {
      assert BltCopy(m, at) == Next(m.(vram := CopyRect(m.vram, c)));
    } else {
      assert BltCopy(m, at) == Fault;
    }
    if CopyFits(c, |m.vram|)
       && (forall p, q :: InGrid(c.grid, p) && InGrid(c.grid, q) ==> WordsDisjoint(SrcAddr(c, p), DstAddr(c, q)))
       && (forall p, q :: InGrid(c.grid, p) && InGrid(c.grid, q) && p != q ==> WordsDisjoint(DstAddr(c, p), DstAddr(c, q)))
    {
      CopyRectMoves(m.vram, c);
    }
  }

  /**
   * Flush_FB (0xf0 with sub-command 0xc1) executes exactly when the commit
   * stays in video memory, and then changes video memory alone. Without
   * overlap, frame-buffer pixel (y, x), for y <= VDP and x <= HDP, holds the
   * console-layer pixel at CDA + cw * y + 2 * x.
   */
  lemma FbCommitEffect(m: Machine, at: int, opcode: bv32)
    requires OpType(opcode) == 0xf0 && OpCommand(opcode) == 0xc1
    requires 0 <= at && at + 4 <= |m.vram|
    ensures Execute(m, at, opcode).Next? <==> CopyFits(CommitCommand(m), |m.vram|)
    ensures Execute(m, at, opcode).Next? ==> Execute(m, at, opcode).m == m.(vram := CopyRect(m.vram, CommitCommand(m)))
    ensures var c := CommitCommand(m);
      && Execute(m, at, opcode).Next?
      && (forall p, q :: InGrid(c.grid, p) && InGrid(c.grid, q) ==> WordsDisjoint(SrcAddr(c, p), DstAddr(c, q)))
      && (forall p, q :: InGrid(c.grid, p) && InGrid(c.grid, q) && p != q ==> WordsDisjoint(DstAddr(c, p), DstAddr(c, q)))
      ==> forall p :: InGrid(c.grid, p) ==>
            && DstAddr(c, p) == Addr(FbPlane(m.fb), p)
            && SrcAddr(c, p) == Addr(Plane(m.clayer.cda as int, m.clayer.cw), p)
            && ReadWord(Execute(m, at, opcode).m.vram, DstAddr(c, p)) == ReadWord(m.vram, SrcAddr(c, p))
  {
    var c := CommitCommand(m);
    assert Execute(m, at, opcode) == FbCommit(m);
    if CopyFits(c, |m.vram|) {
      assert FbCommit(m) == Next(m.(vram := CopyRect(m.vram, c)));
    } else {
      assert FbCommit(m) == Fault;
    }
    forall p | InGrid(c.grid, p)
      ensures DstAddr(c, p) == Addr(FbPlane(m.fb), p) && SrcAddr(c, p) == Addr(Plane(m.clayer.cda as int, m.clayer.cw), p)
    {
      CommitAddresses(m, p);
    }
    if CopyFits(c, |m.vram|)
       && (forall p, q :: InGrid(c.grid, p) && InGrid(c.grid, q) ==> WordsDisjoint(SrcAddr(c, p), DstAddr(c, q)))
       && (forall p, q :: InGrid(c.grid, p) && InGrid(c.grid, q) && p != q ==> WordsDisjoint(DstAddr(c, p), DstAddr(c, q)))
    {
      CopyRectMoves(m.vram, c);
    }
  }

  /** The commit copies with no offset: pixel p of the console layer goes to pixel p of the frame buffer. */
  lemma CommitAddresses(m: Machine, p: Point)
    ensures DstAddr(CommitCommand(m), p) == Addr(FbPlane(m.fb), p)
    ensures SrcAddr(CommitCommand(m), p) == Addr(Plane(m.clayer.cda as int, m.clayer.cw), p)
  {
    var c := CommitCommand(m);
    assert Point(c.dstAt.y + p.y, c.dstAt.x + p.x) == p;
    assert Point(c.srcAt.y + p.y, c.srcAt.x + p.x) == p;
  }

  /**
   * A fill command inside video memory paints its whole rectangle of the
   * frame buffer with FC and leaves every other byte alone.
   */
  lemma FillCommandEffect(m: Machine, at: int, opcode: bv32)
    requires OpType(opcode) == 0x09 && OpCommand(opcode) == 0x41
    requires 0 <= at && at + 12 <= |m.vram|
    requires FillFits(FillCommand(m, at), |m.vram|)
    ensures Execute(m, at, opcode).Next?
    ensures var op := FillCommand(m, at);
      var r := Execute(m, at, opcode).m;
      && r == m.(vram := FillRect(m.vram, op))
      && (forall p :: InGrid(op.grid, p) ==> ReadWord(r.vram, Addr(op.dst, p)) == m.draw.fc)
  {
    FillRectEffect(m.vram, FillCommand(m, at));
  }
}
