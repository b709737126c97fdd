/**
 * The MB86292 CRTC: nine timing registers, each holding a count minus one,
 * and the validation that either configures the host screen and arms the
 * vertical-sync timer or cancels the timer (reconfigure_screen).
 */
module Crtc {

  /** HTP, HDP, HDB, HSP, VTR, VSP, VDP are 12-bit fields; HSW and VSW are 6-bit. */
  datatype CrtcRegs = CrtcRegs(
    htp: bv12, hdp: bv12, hdb: bv12, hsp: bv12, hsw: bv6,
    vtr: bv12, vsp: bv12, vdp: bv12, vsw: bv6)

  /** An inclusive rectangle, as the host's rectangle(min_x, max_x, min_y, max_y). */
  datatype Rect = Rect(minX: int, maxX: int, minY: int, maxY: int)

  /** The geometry the host screen was last configured with. */
  datatype Screen = Unconfigured | Configured(width: int, height: int, visible: Rect)

  /** The vertical-sync timer: cancelled, or due when the beam reaches `line`. */
  datatype Vsync = Never | AtScanline(line: int)

  /** What reconfiguration leaves behind: the screen geometry and the timer. */
  datatype Output = Output(screen: Screen, vsync: Vsync)

  /** The horizontal checks, on the periods (register + 1). */
  predicate HorizontalOk(c: CrtcRegs)
  {
    var hdb := c.hdb as int + 1;
    var hdp := c.hdp as int + 1;
    var hsp := c.hsp as int + 1;
    var hse := hsp + c.hsw as int + 1;
    var htp := c.htp as int + 1;
    0 < hdb && hdb <= hdp && hdp < hsp && hsp < hse && hse < htp && hdp >= 320
  }

  /** The vertical checks, on the periods (register + 1). */
  predicate VerticalOk(c: CrtcRegs)
  {
    var vdp := c.vdp as int + 1;
    var vsp := c.vsp as int + 1;
    var vse := vsp + c.vsw as int + 1;
    var vtr := c.vtr as int + 1;
    0 < vdp && vdp <= vsp && vsp < vse && vse < vtr && vdp >= 234
  }

  /**
   * The same acceptance stated on the raw register values: display
   * boundary <= display period < sync position, sync end before the total,
   * and a visible area of at least 320 x 234. The checks `0 < hdb`,
   * `hsp < hse`, `0 < vdp` and `vsp < vse` can never fail.
   */
  predicate TimingAccepted(c: CrtcRegs)
  {
    var hdb, hdp, hsp, hsw, htp := c.hdb as int, c.hdp as int, c.hsp as int, c.hsw as int, c.htp as int;
    var vdp, vsp, vsw, vtr := c.vdp as int, c.vsp as int, c.vsw as int, c.vtr as int;
    && hdb <= hdp < hsp && hsp + hsw + 1 < htp && hdp >= 319
    && vdp <= vsp && vsp + vsw + 1 < vtr && vdp >= 233
  }

  /**
   * Validate the timings. On success the screen is configured with a total
   * raster of htp x vtr periods and the visible area (0, 0)-(hdp-1, vdp-1),
   * and the vsync timer is armed for the end of the display period; on
   * failure the timer is cancelled and the screen is left as it was.
   */
  function Reconfigure(c: CrtcRegs, screen: Screen): (r: Output)
    ensures r.vsync.AtScanline? <==> TimingAccepted(c)
    ensures r.vsync.AtScanline? ==>
              && r.screen == Configured(c.htp as int + 1, c.vtr as int + 1, Rect(0, c.hdp as int, 0, c.vdp as int))
              && r.vsync.line == c.vdp as int + 1
              && 320 <= r.screen.visible.maxX + 1 < r.screen.width
              && 234 <= r.screen.visible.maxY + 1 < r.screen.height
    ensures r.vsync.Never? ==> r.screen == screen
  {
    if !HorizontalOk(c) then Output(screen, Never)
    else if !VerticalOk(c) then Output(screen, Never)
    else
      var hdp := c.hdp as int + 1;
      var vdp := c.vdp as int + 1;
      var htp := c.htp as int + 1;
      var vtr := c.vtr as int + 1;
      Output(Configured(htp, vtr, Rect(0, hdp - 1, 0, vdp - 1)), AtScanline(vdp))
  }

  /** The outcome depends on the registers alone: re-running it changes nothing. */
  lemma ReconfigureIdempotent(c: CrtcRegs, screen: Screen)
    ensures Reconfigure(c, Reconfigure(c, screen).screen) == Reconfigure(c, screen)
  {
  }

  /** Two runs on the same registers agree on the timer and on any configured geometry. */
  lemma ReconfigureDeterministic(c: CrtcRegs, s1: Screen, s2: Screen)
    ensures Reconfigure(c, s1).vsync == Reconfigure(c, s2).vsync
    ensures Reconfigure(c, s1).vsync.AtScanline? ==> Reconfigure(c, s1).screen == Reconfigure(c, s2).screen
  {
  }
}
