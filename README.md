# MB86292 graphics controller and Neo Geo SBP cartridge protection, in Dafny

This project models two devices of a multi-system emulator and proves
properties of the models.

**The Fujitsu MB86292 "Orchid" graphics controller** (`src/devices/video/mb86292.cpp`):
- The register file, reached through 8-, 16- and 32-bit ports of the host window and the drawing-engine window. The 16- and 32-bit ports take a lane mask; the 8-bit ports carry none. A write to the interrupt status register ANDs the data into it and ignores the mask. The interrupt mask, the display-list source and count, the display enable, the console-layer mode and address, and the frame-buffer and colour registers take the framework's masked merge, truncated to the register's width. The seven 12-bit timing registers (HTP, HDP, HDB, HSP, VTR, VSP, VDP) take the masked merge, then `&= 0xfff`. The 8-bit sync-width registers HSW and VSW store the low 6 bits of the data. The 8-bit display-list request register takes bit 0 of the data and starts the display list.
- The CRTC validator. It checks the timing registers and either configures the screen and arms the vertical-sync event, or leaves the screen as it was and cancels the event.
- The interrupt output, the vertical-sync callback and device reset.
- The display-list interpreter. It walks command words in video memory and executes the rectangle fill, the block copy, the frame-buffer commit, the drawing-register writes (SetRegister) and the end-of-list interrupt. It skips every other command by its operand count.
- The frame-buffer commit, and the screen update that turns the frame buffer into RGB pixels.

**The Neo Geo "Super Bubble Pop" cartridge** (`src/devices/bus/neogeo/sbp.cpp`):
- The protected read, which exchanges the nibbles of each byte except at one address.
- The inert protected write.
- The four-word ROM patch.

The files:
- `bits.dfy` (BitOps): the framework's masked merge, truncation to a register's width, and 32-bit address arithmetic.
- `video_memory.dfy` (VideoMemory): little-endian byte store accessors.
- `raster.dfy` (Raster): the nested pixel loops of fill and copy, as functions of video memory. There are lemmas for their effect.
- `crtc.dfy` (Crtc): the timing validator.
- `registers.dfy` (Registers): the register file as a value, with one function per write handler.
- `interpreter.dfy` (Interpreter): the display-list interpreter as functions.
- `screen_output.dfy` (ScreenOutput): blanking and RGB555 expansion.
- `device.dfy` (Device): the chip as a class. Its fields are the registers, video memory is a byte array, and every method is proved to produce the state the value model computes.
- `sbp.dfy` (NeoGeoSbp): the cartridge.

Points where the code's behaviour is easy to misread; the model follows the code:
- SetRegister writes every one of its values to the same register offset, `reg_address << 2` (mb86292.cpp:732). The offset does not advance per value, so the last value wins.
- The frame-buffer commit steps the console layer by `cw * y` bytes per row (mb86292.cpp:763), not `cw * 2 * y`.
- A rejected timing leaves the screen geometry as it was and only cancels the vertical-sync event (mb86292.cpp:509, 527).
- Writing IST performs `ist &= data` and ignores the lane mask (mb86292.cpp:123).
- Several timing checks are always true: `0 < hdb`, `hsp < hse`, `0 < vdp` and `vsp < vse`, because each value is a register plus one and the sums cannot overflow 16 bits. The model keeps them anyway.

## Model

| member | source | states |
|---|---|---|
| Crtc.Reconfigure | src/devices/video/mb86292.cpp:488-536 | vsync is armed iff all horizontal and vertical checks pass. If so, the screen is htp+1 by vtr+1 with visible area (0..hdp, 0..vdp), vsync fires at line vdp+1, the visible area is at least 320x234 and smaller than the total. If not, the screen is unchanged |
| Crtc.ReconfigureIdempotent | src/devices/video/mb86292.cpp:488-536 | validating twice with the same registers gives the same result as once |
| Crtc.ReconfigureDeterministic | src/devices/video/mb86292.cpp:488-536 | the vsync outcome does not depend on the previous screen, and an accepted geometry depends only on the registers |
| BitOps.Combine32 | src/devices/video/mb86292.cpp:134 | COMBINE_DATA, defined by its body; Combine32Laws and Combine32Unique state its meaning |
| BitOps.Combine32Laws | src/devices/video/mb86292.cpp:134 | the bits selected by the mask take the data, the others keep the previous value |
| BitOps.Combine32Unique | src/devices/video/mb86292.cpp:134 | those two laws determine the merged value: any value satisfying both is COMBINE_DATA's result |
| Registers.Level | src/devices/video/mb86292.cpp:546 | the XINT level, (ist & mask) != 0, defined by its body; see CheckIrqs, AckNeverRaises |
| Registers.ConsoleDerived | src/devices/video/mb86292.cpp:305-307 | ch, cw and cc are the values CM determines, defined by its body; see WriteCm |
| Registers.Reset | src/devices/video/mb86292.cpp:96-104 | DCE, LSA, LCO, LREQ, IST and MASK are cleared, vsync is cancelled, the interrupt level is low (XINT is not driven again), and nothing else changes |
| Registers.CheckIrqs | src/devices/video/mb86292.cpp:544-548 | exactly one level, (ist & mask) != 0, is appended to the XINT history, and nothing else changes |
| Registers.WriteIst | src/devices/video/mb86292.cpp:118-127 | only IST changes and the mask is kept; the new level is driven on XINT |
| Registers.WriteIstLaws | src/devices/video/mb86292.cpp:123 | after the write, IST bits where data is 1 keep their value; no bit outside data and no bit that was clear is set |
| Registers.AckNeverRaises | src/devices/video/mb86292.cpp:123-124 | an acknowledge can lower the interrupt line but never raise it |
| Registers.AckZeroClears | src/devices/video/mb86292.cpp:123-124 | writing 0 to IST clears every status bit and drives the line low |
| Registers.WriteMask | src/devices/video/mb86292.cpp:129-138 | only MASK changes and IST is kept; the new level is driven on XINT |
| Registers.WriteMaskLaws | src/devices/video/mb86292.cpp:134 | the bits selected by the lane mask take the data, the rest keep their value |
| Registers.WriteLsa | src/devices/video/mb86292.cpp:141-150 | only LSA changes |
| Registers.WriteLsaLaws | src/devices/video/mb86292.cpp:146-147 | the new LSA is COMBINE_DATA of the old value, then `&= 0xffffff`; selected bits take the data, the others are kept |
| Registers.WriteLco | src/devices/video/mb86292.cpp:152-161 | only LCO changes |
| Registers.WriteLcoLaws | src/devices/video/mb86292.cpp:157-158 | the new LCO is COMBINE_DATA of the old value, then `&= 0xffffff`; selected bits take the data, the others are kept |
| Interpreter.WriteLreq | src/devices/video/mb86292.cpp:163-172 | with bit 0 clear, only LREQ changes, to false; with bit 0 set, the list runs and either completes with LREQ clear and the cursor in [end, end+1024), or faults with LREQ set and the cursor in [LSA, end); LSA, LCO, the display enable, the timing registers, the console layer, the screen, vsync and the size of video memory are kept |
| Registers.WriteDce | src/devices/video/mb86292.cpp:178-186 | only DCE changes |
| Registers.WriteDceLaws | src/devices/video/mb86292.cpp:183 | the selected bits of DCE take the data, the others are kept |
| Registers.CrtcSet | src/devices/video/mb86292.cpp:188-293 | the written timing register holds the value, and every other timing register, HSW and VSW are unchanged |
| Registers.CrtcWrite | src/devices/video/mb86292.cpp:188-293 | a 12-bit timing write touches only its own register |
| Registers.CrtcWriteLaws | src/devices/video/mb86292.cpp:193-194 | the new register is COMBINE_DATA on the u16, then `&= 0xfff`; selected bits take the data, the others are kept |
| Registers.WriteCrtc | src/devices/video/mb86292.cpp:188-293 | the timing registers are updated, then the screen and vsync are what the validator computes from the new registers |
| Registers.ReconfigureScreen | src/devices/video/mb86292.cpp:488-536 | screen and vsync are exactly the validator's output, vsync is armed iff the timing is accepted, and nothing else changes |
| Registers.WriteHsw | src/devices/video/mb86292.cpp:236-245 | HSW holds the low 6 bits of the data, no other timing register changes, and the screen is revalidated |
| Registers.WriteVsw | src/devices/video/mb86292.cpp:247-256 | VSW holds the low 6 bits of the data, no other timing register changes, and the screen is revalidated |
| Registers.WriteCm | src/devices/video/mb86292.cpp:299-315 | the derived ch, cw, cc agree with CM; 1 <= ch <= 4096; cw is a multiple of 64 up to 4032; CDA and everything else unchanged |
| Registers.WriteCmLaws | src/devices/video/mb86292.cpp:304 | CM is the masked merge of the old value and the data |
| Registers.WriteCda | src/devices/video/mb86292.cpp:318-330 | only CDA changes |
| Registers.WriteCdaLaws | src/devices/video/mb86292.cpp:323-324 | the new CDA is COMBINE_DATA of the old value, then `&= 0x3ffffff`; selected bits take the data, the others are kept |
| Registers.WriteFbr | src/devices/video/mb86292.cpp:417-426 | only the frame-buffer base changes |
| Registers.WriteFbrLaws | src/devices/video/mb86292.cpp:422-423 | the new value is COMBINE_DATA of the old value, then `&= 0x3ffffff`; a full-mask write stores the low 26 bits of the data |
| Registers.WriteXres | src/devices/video/mb86292.cpp:428-437 | only XRES changes |
| Registers.WriteXresLaws | src/devices/video/mb86292.cpp:433-434 | the new value is COMBINE_DATA of the old value, then `&= 0xfff`; a full-mask write stores the low 12 bits of the data |
| Registers.WriteFc | src/devices/video/mb86292.cpp:449-458 | only the foreground colour changes |
| Registers.WriteFcLaws | src/devices/video/mb86292.cpp:454-455 | the new value is COMBINE_DATA of the old value, then `&= 0xffff`; a full-mask write stores the low 16 bits of the data |
| Registers.WriteBc | src/devices/video/mb86292.cpp:460-469 | only the background colour changes |
| Registers.WriteBcLaws | src/devices/video/mb86292.cpp:465-466 | the new value is COMBINE_DATA of the old value, then `&= 0xffff`; a full-mask write stores the low 16 bits of the data |
| Registers.DrawIoWrite | src/devices/video/mb86292.cpp:402-469 | a drawing-engine write at FBR, XRES, FC or BC is that register's handler; any other offset changes nothing; only fb and draw can change |
| Registers.VsyncCb | src/devices/video/mb86292.cpp:550-555 | the mask is kept, the new level is driven on XINT, and vsync is re-armed for line vdp+1 |
| Registers.VsyncCbLaws | src/devices/video/mb86292.cpp:552 | the VSYNC status bit is set and every other status bit is kept |
| VideoMemory.ReadWord | src/devices/video/mb86292.cpp:837 | the low byte of the word is at the address and the high byte follows it |
| VideoMemory.ReadDword | src/devices/video/mb86292.cpp:576 | a dword is two words, low word first |
| VideoMemory.WriteWord | src/devices/video/mb86292.cpp:603 | the written word reads back, and every other byte is unchanged |
| VideoMemory.ReadAfterOtherWrite | src/devices/video/mb86292.cpp:603 | writing a word does not change a disjoint word |
| VideoMemory.SameBytesSameWord | src/devices/video/mb86292.cpp:837 | a word is determined by its two bytes |
| Raster.Points | src/devices/video/mb86292.cpp:599-603 | the nested loops visit exactly the grid points before (y, x), in strictly increasing row-major order |
| Raster.NextRow | src/devices/video/mb86292.cpp:599-602 | ending a row and starting the next visit the same points |
| Raster.PointsCount | src/devices/video/mb86292.cpp:599-603 | after y rows and x columns the loops have made rows * width + columns visits |
| Raster.AllPointsCount | src/devices/video/mb86292.cpp:599-603 | a whole grid is rows * columns visits |
| Raster.AllPointsDistinct | src/devices/video/mb86292.cpp:599-603 | no point is visited twice |
| Raster.AddrParity | src/devices/video/mb86292.cpp:601-603 | on a plane with an even pitch, every pixel address has the parity of the plane's origin |
| Raster.FillTo | src/devices/video/mb86292.cpp:599-604 | the state of the fill loops after y rows and x columns; keeps the length of video memory; see FillToPoints |
| Raster.FillRect | src/devices/video/mb86292.cpp:599-604 | the fill loops run to the end; keeps the length of video memory; see FillRectEffect |
| Raster.FillToPoints | src/devices/video/mb86292.cpp:599-604 | the fill loops' state is the fold of single word writes along the visited points |
| Raster.FillPointsCovers | src/devices/video/mb86292.cpp:603 | when all written addresses share a parity, every written word holds the colour |
| Raster.FillRectEffect | src/devices/video/mb86292.cpp:599-604 | on an even-pitch plane every pixel of the rectangle reads back as the colour, and every byte outside the written words is unchanged |
| Raster.FillRectCovers | src/devices/video/mb86292.cpp:599-604 | every pixel of the rectangle reads back as the colour |
| Raster.FillRectFrame | src/devices/video/mb86292.cpp:599-604 | bytes outside every written word are unchanged |
| Raster.CopyTo | src/devices/video/mb86292.cpp:642-651 | the state of the copy loops after y rows and x columns; keeps the length of video memory; see CopyToPoints |
| Raster.CopyRect | src/devices/video/mb86292.cpp:642-651 | the copy loops run to the end, as the blit and the commit (lines 762-768) do; keeps the length of video memory; see CopyRectEffect |
| Raster.CopyToPoints | src/devices/video/mb86292.cpp:642-651 | the copy loops' state is the fold of single word moves along the visited points |
| Raster.CopyToStep | src/devices/video/mb86292.cpp:648-649 | one more column moves the current source word to the current target word |
| Raster.CopyPointsFaithful | src/devices/video/mb86292.cpp:646-650 | if no source word overlaps a target word and the target words are pairwise disjoint, each target word holds the original source word |
| Raster.CopyRectEffect | src/devices/video/mb86292.cpp:642-651 | under that disjointness, the block copy reproduces the source block at the target; bytes outside every target word are unchanged |
| Raster.CopyRectMoves | src/devices/video/mb86292.cpp:642-651 | each target pixel holds the original source pixel |
| Raster.CopyRectFrame | src/devices/video/mb86292.cpp:642-651 | bytes outside every target word are unchanged, whatever the overlap |
| Interpreter.CommandWords | src/devices/video/mb86292.cpp:580-735 | every command is 1 to 256 words; SetRegister is one word plus its count |
| Interpreter.RegOffset | src/devices/video/mb86292.cpp:726-732 | the SetRegister offset is reg_address * 4 in the 16-bit drawing space, dword aligned |
| Interpreter.ListBytes | src/devices/video/mb86292.cpp:571 | LCO 0 means 0x1000000 bytes, otherwise the list is 4 * LCO bytes; so it is positive and at most 0x4000000 bytes |
| Interpreter.ListEnd | src/devices/video/mb86292.cpp:571-572 | the end address lies after LSA and stays in 32 bits |
| Interpreter.FillCommand | src/devices/video/mb86292.cpp:586-603 | the fill writes FC on the frame-buffer plane, over a grid whose bounds are 16-bit operands |
| Interpreter.BlitOperandsAt | src/devices/video/mb86292.cpp:618-627 | the block sizes are 16-bit operands |
| Interpreter.BlitCommand | src/devices/video/mb86292.cpp:642-651 | the copy grid is [0, brsizey) by [0, brsizex) |
| Interpreter.CommitCommand | src/devices/video/mb86292.cpp:758-771 | the commit copies rows 0..vdp and columns 0..hdp from the console layer at CDA, pitch cw, to the frame buffer |
| Interpreter.SetRegisters | src/devices/video/mb86292.cpp:728-733 | the values can change only the frame-buffer and drawing registers |
| Interpreter.FbCommit | src/devices/video/mb86292.cpp:758-771 | the commit succeeds iff every pixel it moves lies in video memory, and it then leaves video memory as the copy loops do |
| Interpreter.DrawRect | src/devices/video/mb86292.cpp:583-614 | DrawRectP changes at most video memory |
| Interpreter.BltCopy | src/devices/video/mb86292.cpp:615-653 | the block copy changes at most video memory |
| Interpreter.Interrupt | src/devices/video/mb86292.cpp:738-745 | the interrupt command changes only IST and XINT |
| Interpreter.Execute | src/devices/video/mb86292.cpp:581-749 | no command changes the cursor, the display registers, the screen or the size of video memory |
| Interpreter.Step | src/devices/video/mb86292.cpp:574-751 | a step reads its opcode inside video memory and advances the cursor by 4 bytes per command word |
| Interpreter.StepExecutes | src/devices/video/mb86292.cpp:574-751 | a command that executes is followed by the cursor moving past its words |
| Interpreter.StepFaults | src/devices/video/mb86292.cpp:574-751 | a step faults when the opcode, the command's words or the command leave video memory |
| Interpreter.Run | src/devices/video/mb86292.cpp:574-755 | the while loop followed by `lreq = false`, defined by its body; see RunOutcome |
| Interpreter.ProcessDisplayList | src/devices/video/mb86292.cpp:565-756 | nothing without a request, else the loop from LSA to the end address; defined by its body, see ProcessDisplayListOutcome |
| Interpreter.RunOutcome | src/devices/video/mb86292.cpp:574-755 | the loop keeps LSA, LCO and the display registers; it completes with LREQ clear and the cursor at or just past the end, or faults before the end with LREQ unchanged |
| Interpreter.ProcessDisplayListOutcome | src/devices/video/mb86292.cpp:565-756 | without a request nothing happens; a completed run clears LREQ and stops in [end, end+1024); a faulted run keeps LREQ set |
| Interpreter.UnknownOpcodeAdvances | src/devices/video/mb86292.cpp:704-751 | an unsupported command, or a 0xf0 command other than Flush_FB, only advances the cursor by one word |
| Interpreter.DecodeOnlyAdvances | src/devices/video/mb86292.cpp:583-614 | the line and triangle commands 0x41, 0x42, 0x44 and 0x45 and the DrawRectP sub-commands other than BltFill only move the cursor past their operand words; nothing else changes |
| Interpreter.NopListCompletes | src/devices/video/mb86292.cpp:654-658 | a one-word list holding G_Nop completes with the cursor past it and LREQ clear |
| Interpreter.InterruptCommand | src/devices/video/mb86292.cpp:738-745 | the interrupt command sets CEND, keeps the other status bits and the mask, drives the new level and leaves video memory alone |
| Interpreter.DrawIoWriteOverwrite | src/devices/video/mb86292.cpp:732 | two full-mask writes to the same drawing register leave only the second |
| Interpreter.SetRegistersLastWins | src/devices/video/mb86292.cpp:728-733 | a SetRegister with n >= 1 values has the effect of its last value alone |
| Interpreter.SetRegistersEmpty | src/devices/video/mb86292.cpp:728 | a SetRegister with no values changes nothing |
| Interpreter.FillAddressExact | src/devices/video/mb86292.cpp:601-603 | no fill address wraps: it is base + y * xres * 2 + x * 2 |
| Interpreter.RowAddressNoWrap | src/devices/video/mb86292.cpp:601-603 | the row and column arithmetic stays below 2^32 for 16-bit coordinates |
| Interpreter.BlitAddresses | src/devices/video/mb86292.cpp:644-649 | the copy reads at saddr + ((sry+y) * sstride) * 2 + (srx+x) * 2 and writes likewise at the target, modulo 2^32 |
| Interpreter.BltCopyEffect | src/devices/video/mb86292.cpp:615-653 | BltCopy succeeds iff every pixel it moves lies in video memory, then changes only video memory; without overlap each target pixel holds the original source pixel |
| Interpreter.FbCommitEffect | src/devices/video/mb86292.cpp:758-771 | Flush_FB succeeds iff every pixel lies in video memory, then changes only video memory; each pixel (y, x) of the visible area moves from the console layer at CDA, pitch cw, to the frame buffer, given no overlap |
| Interpreter.CommitAddresses | src/devices/video/mb86292.cpp:762-768 | the commit moves pixel (y, x) from CDA + cw * y + 2 * x to FBR + 2 * XRES * y + 2 * x, modulo 2^32 |
| Interpreter.FillCommandEffect | src/devices/video/mb86292.cpp:594-605 | BltFill whose pixels fit succeeds, changes only video memory, and every pixel of its rectangle reads back as FC |
| BitOps.CombineData26 | src/devices/video/mb86292.cpp:323-324 | merging at 26 bits the truncated data under the truncated mask equals COMBINE_DATA at 32 bits followed by `&= 0x3ffffff` |
| BitOps.CombineData24 | src/devices/video/mb86292.cpp:146-147 | the same agreement at 24 bits, `&= 0xffffff` |
| BitOps.CombineData16 | src/devices/video/mb86292.cpp:454-455 | the same agreement at 16 bits, `&= 0xffff` |
| BitOps.CombineData12 | src/devices/video/mb86292.cpp:433-434 | the same agreement at 12 bits, `&= 0xfff` |
| BitOps.CombineData12Of16 | src/devices/video/mb86292.cpp:193-194 | the same agreement for a 16-bit port and `&= 0xfff` |
| ScreenOutput.Blanked | src/devices/video/mb86292.cpp:775 | the display is blank when DCE bit 15 or all of DCE bits 3-0 are clear, defined by its body; see Device.Mb86292.ScreenUpdate |
| ScreenOutput.Pal5BitRange | src/devices/video/mb86292.cpp:788 | each widened channel is a byte whose top five bits are the channel; 0 maps to 0 and 31 maps to 255 |
| ScreenOutput.Pal555Injective | src/devices/video/mb86292.cpp:788 | the colour determines the low 15 bits of the pixel; only bit 15 is lost |
| Device.Mb86292.constructor | src/devices/video/mb86292.cpp:96-104 | the device starts with zeroed registers, an unconfigured screen, no vsync, no XINT history, the given video memory, and a console geometry that agrees with CM |
| Device.Mb86292.ReadWordAt | src/devices/video/mb86292.cpp:586-589 | the word read is ReadWord of video memory |
| Device.Mb86292.ReadDwordAt | src/devices/video/mb86292.cpp:576 | the dword read is ReadDword of video memory |
| Device.Mb86292.WriteWordAt | src/devices/video/mb86292.cpp:603 | video memory becomes WriteWord of its old content |
| Device.Mb86292.CheckIrqs | src/devices/video/mb86292.cpp:544-548 | the new state is Registers.CheckIrqs of the old |
| Device.Mb86292.VsyncCb | src/devices/video/mb86292.cpp:550-555 | the new state is Registers.VsyncCb of the old |
| Device.Mb86292.Reset | src/devices/video/mb86292.cpp:96-104 | the new state is Registers.Reset of the old |
| Device.Mb86292.WriteIst | src/devices/video/mb86292.cpp:118-127 | the new state is Registers.WriteIst of the old |
| Device.Mb86292.WriteMask | src/devices/video/mb86292.cpp:129-138 | the new state is Registers.WriteMask of the old |
| Device.Mb86292.WriteLsa | src/devices/video/mb86292.cpp:141-150 | the new state is Registers.WriteLsa of the old |
| Device.Mb86292.WriteLco | src/devices/video/mb86292.cpp:152-161 | the new state is Registers.WriteLco of the old |
| Device.Mb86292.WriteLreq | src/devices/video/mb86292.cpp:163-172 | the new state and the run's outcome are Interpreter.WriteLreq of the old state |
| Device.Mb86292.WriteDce | src/devices/video/mb86292.cpp:178-186 | the new state is Registers.WriteDce of the old |
| Device.Mb86292.ReconfigureScreen | src/devices/video/mb86292.cpp:488-536 | the new state is Registers.ReconfigureScreen of the old |
| Device.Mb86292.WriteCrtc | src/devices/video/mb86292.cpp:188-293 | the new state is Registers.WriteCrtc of the old |
| Device.Mb86292.WriteHsw | src/devices/video/mb86292.cpp:236-245 | the new state is Registers.WriteHsw of the old |
| Device.Mb86292.WriteVsw | src/devices/video/mb86292.cpp:247-256 | the new state is Registers.WriteVsw of the old |
| Device.Mb86292.WriteCm | src/devices/video/mb86292.cpp:299-315 | the new state is Registers.WriteCm of the old, and the derived console geometry agrees with CM |
| Device.Mb86292.WriteCda | src/devices/video/mb86292.cpp:318-330 | the new state is Registers.WriteCda of the old |
| Device.Mb86292.DrawIoWrite | src/devices/video/mb86292.cpp:402-469 | the new state is Registers.DrawIoWrite of the old |
| Device.Mb86292.FillRect | src/devices/video/mb86292.cpp:599-604 | the nested loops leave video memory as Raster.FillRect of its old content |
| Device.Mb86292.FillRow | src/devices/video/mb86292.cpp:602-603 | the inner loop completes one row of the fill |
| Device.Mb86292.CopyRect | src/devices/video/mb86292.cpp:642-651 | the nested loops leave video memory as Raster.CopyRect of its old content |
| Device.Mb86292.CopyRow | src/devices/video/mb86292.cpp:646-650 | the inner loop completes one row of the copy |
| Device.Mb86292.CopyStep | src/devices/video/mb86292.cpp:648-649 | one pixel of the copy advances the loop state by one column |
| Device.Mb86292.CopyPixel | src/devices/video/mb86292.cpp:648-649 | the source word, read first, is written at the target |
| Device.Mb86292.SetRegisters | src/devices/video/mb86292.cpp:728-733 | the loop leaves the state Interpreter.SetRegisters computes |
| Device.Mb86292.DrawRect | src/devices/video/mb86292.cpp:583-614 | agrees with Interpreter.DrawRect, and a fault changes nothing |
| Device.Mb86292.BltCopy | src/devices/video/mb86292.cpp:615-653 | agrees with Interpreter.BltCopy, and a fault changes nothing |
| Device.Mb86292.Interrupt | src/devices/video/mb86292.cpp:738-745 | the new state is Interpreter.Interrupt of the old |
| Device.Mb86292.FbCommit | src/devices/video/mb86292.cpp:758-771 | agrees with Interpreter.FbCommit, and a fault changes nothing |
| Device.Mb86292.Execute | src/devices/video/mb86292.cpp:581-749 | agrees with Interpreter.Execute, and a fault changes nothing |
| Device.Mb86292.Step | src/devices/video/mb86292.cpp:576-751 | agrees with Interpreter.Step, and a fault changes nothing |
| Device.Mb86292.ProcessDisplayList | src/devices/video/mb86292.cpp:565-756 | the loop's final state and outcome are Interpreter.ProcessDisplayList of the old state |
| Device.Mb86292.ScreenUpdate | src/devices/video/mb86292.cpp:773-790 | the output is clip-sized; it is all black when DCE blanks the display, and otherwise each pixel is pal555 of the frame-buffer word at base + y * xres * 2 + x * 2 |
| NeoGeoSbp.Bitswap16 | src/devices/bus/neogeo/sbp.cpp:39 | bitswap<16>, defined by its body: bit 15 of the result is bit b15 of the word, and so on down to bit 0, which is bit b0 |
| NeoGeoSbp.Scramble | src/devices/bus/neogeo/sbp.cpp:39 | the read permutation, defined by its body; see ScrambleIsNibbleSwap |
| NeoGeoSbp.RealOffset | src/devices/bus/neogeo/sbp.cpp:41 | 0x200 + 2 * offset computed modulo 2^32 |
| NeoGeoSbp.WordIndex | src/devices/bus/neogeo/sbp.cpp:38 | offset + 0x100 computed modulo 2^32 |
| NeoGeoSbp.ScrambleIsNibbleSwap | src/devices/bus/neogeo/sbp.cpp:39 | the bit order 11,10,9,8,15,14,13,12,3,2,1,0,7,6,5,4 exchanges the two nibbles of each byte |
| NeoGeoSbp.NibbleSwapInvolution | src/devices/bus/neogeo/sbp.cpp:39 | exchanging the nibbles twice gives the word back |
| NeoGeoSbp.NibbleSwapBytes | src/devices/bus/neogeo/sbp.cpp:39 | each byte stays in its place |
| NeoGeoSbp.ScrambleInjective | src/devices/bus/neogeo/sbp.cpp:39 | distinct ROM words read back as distinct words |
| NeoGeoSbp.RawAddressOffsets | src/devices/bus/neogeo/sbp.cpp:41-46 | the raw address 0xd5e is reached exactly from offsets 0x5af and 0x800005af; the second comes from 32-bit wrap-around |
| NeoGeoSbp.WatchdogAddressOffsets | src/devices/bus/neogeo/sbp.cpp:54-59 | the watchdog address 0x1080 is reached exactly from offsets 0x740 and 0x80000740 |
| NeoGeoSbp.OffsetsOf | src/devices/bus/neogeo/sbp.cpp:41 | 0x200 + 2 * offset, computed modulo 2^32, hits 0x200 + 2k exactly for offsets k and k + 2^31 |
| NeoGeoSbp.ProtectionR | src/devices/bus/neogeo/sbp.cpp:35-49 | the read returns ROM word 0x100 + offset as stored at byte address 0xd5e, and with its nibbles exchanged everywhere else |
| NeoGeoSbp.ProtectionRDecodes | src/devices/bus/neogeo/sbp.cpp:38-48 | the stored ROM word can always be recovered from the value read |
| NeoGeoSbp.ProtectionW | src/devices/bus/neogeo/sbp.cpp:52-72 | the write returns quietly iff it is at byte address 0x1080 with data 0x4e75 or 0xffff; otherwise it is reported with its address and data. No state is written |
| NeoGeoSbp.PatchSpec | src/devices/bus/neogeo/sbp.cpp:75-87 | words 0x1537c-0x1537e become 0x4e71 and word 0x1ff96 becomes 0x7001; every other word is unchanged |
| NeoGeoSbp.PatchIdempotent | src/devices/bus/neogeo/sbp.cpp:81-86 | patching twice gives the ROM that patching once gives |
| NeoGeoSbp.PatchFixedPoints | src/devices/bus/neogeo/sbp.cpp:81-86 | a ROM is unchanged by the patch iff it already holds the four patched words |
| NeoGeoSbp.PatchedRead | src/devices/bus/neogeo/sbp.cpp:38-86 | after the patch, a window read of an unpatched word is unchanged; the three NOP words read as 0x4e71 nibble-swapped and the joystick word as 0x7001 nibble-swapped, because no patched word lies behind the raw address |
| NeoGeoSbp.Patch | src/devices/bus/neogeo/sbp.cpp:75-87 | the in-place writes leave the ROM array as PatchSpec of its old content |

## Left out

- Timing: the vertical-sync timer is modelled as the scanline it is armed for (`Vsync.AtScanline`) or `Never`. Attotime, the frame period and `screen().time_until_pos` are framework services.
- `screen().configure` is modelled as the configured geometry (total size and visible rectangle). The refresh period and interlace are not modelled.
- Register reads return the stored field. They are not modelled as separate operations.
- The XINT callback is modelled as the history of levels it was driven with.
- Logging (`LOG*`, `printf`), `save_item`, the device constructors, `device_start` and `memory_space_config` have no effect on the modelled state and are left out.
- The DEBUG_VRAM_VIEWER block of screen_update is compiled out (`DEBUG_VRAM_VIEWER` is 0) and is left out.
- `mb86292.h` is not part of this model. IRQ_CEND = 0x2 and IRQ_VSYNC = 0x4 follow the MB86292 IST layout. `vram_read_word`, `vram_read_dword` and `vram_write_word` follow the little-endian byte order the debug viewer uses (mb86292.cpp:837).
- `pal555` comes from the framework. It is modelled as each 5-bit channel c becoming `c << 3 | c >> 2`.
- Out-of-range video memory: the source does no bounds checks. In the model, a command whose operand words or pixels fall outside video memory faults: the interpreter stops before that command has any effect, and LREQ stays set.
- Interpreter.RegOffset reduces `reg_address << 2` modulo 2^16, because the drawing-register space has 16 address bits (mb86292.cpp:51). The host would mask the same bits.
- The source's u16 loop counters do not wrap, because every bound is itself a 16-bit value. The model's integer counters therefore behave the same.
- Device.Mb86292.constructor starts from zeroed registers. The source leaves the initial register values to the framework and device_reset.
- `decrypt_all` in sbp.cpp only forwards to `patch` and is left out. The choice between the cartridge ROM and the region ROM (sbp.cpp:37) is a framework accessor, so the ROM is a parameter.
- NeoGeoSbp.Patch requires a ROM of at least 0x1ff97 words. The source writes without checking the size.
- NeoGeoSbp.ProtectionR requires the word index to lie in the ROM. The source reads `rom[offset + 0x200/2]` without checking (sbp.cpp:38).
- `src/devices/bus/spectrum/zxbus.cpp`, the expansion bus, is not part of this model.
