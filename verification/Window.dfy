// The window record itself, updated in place by the event handlers. A width and its height,
// two int fields in src/server.h, are one Size here.

module WindowRecord {
  import opened Base
  import opened Scale
  import opened Negotiation

  lemma MappedAsBefore(s: State, geo: Size, surf: Size)
    ensures Applied(s, geo, surf).mapped == s.mapped
  {
  }

  class Window {
    const scale: real
    const preferCsd: bool

    var hasOutput: bool
    var initialConfigureSent: bool
    var output: Size
    var lastOutput: Size
    var csdMargin: Size
    var sizeFromWm: bool
    var lastClientConf: Size
    var fitLast: Size
    var fitPrev: Size
    var fitLastMsec: int
    var fillHostLastMsec: int
    var toplevel: Toplevel

    ghost var fits: seq<Fit>
    ghost var confs: seq<Size>

    ghost function Settings(): Env {
      Env(scale, preferCsd)
    }

    ghost function View(): State
      reads this
    {
      State(hasOutput, initialConfigureSent, output, lastOutput, csdMargin, sizeFromWm, lastClientConf,
            fitLast, fitPrev, fitLastMsec, fillHostLastMsec, toplevel, fits, confs)
    }

    constructor (scale: real, preferCsd: bool)
      ensures View() == FRESH
      ensures Settings() == Env(scale, preferCsd)
    {
      this.scale, this.preferCsd := scale, preferCsd;
      hasOutput, initialConfigureSent := false, false;
      output, lastOutput, csdMargin := ZERO, ZERO, ZERO;
      sizeFromWm, lastClientConf := false, ZERO;
      fitLast, fitPrev, fitLastMsec, fillHostLastMsec := ZERO, ZERO, 0, 0;
      toplevel := BLANK;
      fits, confs := [], [];
    }

    method PreferredSize() returns (w: int, h: int)
      ensures Size(w, h) == Preferred(Settings(), toplevel)
    {
      w, h := 0, 0;
      var geo, surf := toplevel.geo, toplevel.surf;
      var useGeo := !preferCsd && geo.w > 0 && geo.h > 0;
      if useGeo {
        w, h := geo.w, geo.h;
      } else if surf.w > 0 && surf.h > 0 {
        w, h := surf.w, surf.h;
      } else {
        w, h := geo.w, geo.h;
      }
      if w < MIN_OUTPUT_SIZE {
        w := DEFAULT_WIDTH;
      }
      if h < MIN_OUTPUT_SIZE {
        h := DEFAULT_HEIGHT;
      }
    }

    method SetToplevelSize(width: int, height: int)
      modifies this
      ensures View() == SetSize(old(View()), Size(width, height))
    {
      confs := confs + [Size(width, height)];
      if width > 0 && height > 0 {
        lastClientConf := Size(width, height);
      }
    }

    method SizeForOutput() returns (lw: int, lh: int)
      ensures Size(lw, lh) == if hasOutput then FillTarget(Settings(), View()) else ZERO
    {
      if !hasOutput {
        return 0, 0;
      }
      lw := UnscaleSize(scale, output.w);
      lh := UnscaleSize(scale, output.h);
      var tiled := toplevel.cur.maximized || toplevel.pend.maximized ||
                   toplevel.cur.fullscreen || toplevel.pend.fullscreen;
      if preferCsd && !tiled && (csdMargin.w > 0 || csdMargin.h > 0) {
        lw := lw - csdMargin.w;
        lh := lh - csdMargin.h;
        if lw < 1 {
          lw := 1;
        }
        if lh < 1 {
          lh := 1;
        }
      }
    }

    method FillHostWindow(now: int)
      modifies this
      ensures View() == FillHost(Settings(), old(View()), now)
    {
      if !hasOutput {
        return;
      }
      var lw, lh := SizeForOutput();
      if lw < 1 || lh < 1 {
        return;
      }
      var geo := toplevel.geo;
      var confW := if geo.w > 0 then geo.w else 0;
      var confH := if geo.h > 0 then geo.h else 0;
      var dLastW, dLastH := Abs(lw - lastClientConf.w), Abs(lh - lastClientConf.h);
      var dConfW, dConfH := Abs(lw - confW), Abs(lh - confH);
      var lastOk := lastClientConf.w > 0 && lastClientConf.h > 0 && dLastW <= 1 && dLastH <= 1;
      var confOk := confW > 0 && confH > 0 && dConfW <= 1 && dConfH <= 1;
      assert lastOk == ToldToFill(Settings(), View());
      assert confOk == Fills(Settings(), View());
      if lastOk && confOk {
        return;
      }
      if lastOk && !confOk {
        if fillHostLastMsec > 0 && now - fillHostLastMsec < FILL_HOST_MS {
          return;
        }
        fillHostLastMsec := now;
      }
      SetToplevelSize(lw, lh);
    }

    // Listener on the output's commit signal.
    method HandleOutputCommit(now: int)
      requires hasOutput
      modifies this
      ensures View() == OutputCommit(Settings(), old(View()), now)
    {
      var w, h := output.w, output.h;
      if w <= 0 || h <= 0 {
        return;
      }
      if w == lastOutput.w && h == lastOutput.h {
        return;
      }
      lastOutput := Size(w, h);
      FillHostWindow(now);
    }

    // wlr_output_commit_state with a custom mode, as far as this window can see it.
    method CommitOutputMode(w: int, h: int, now: int, ok: bool)
      requires hasOutput
      modifies this
      ensures View() == CommitMode(Settings(), old(View()), Size(w, h), now, ok)
    {
      if ok {
        output := Size(w, h);
        HandleOutputCommit(now);
      }
    }

    method ResizeOutput(w: int, h: int, now: int, ok: bool)
      modifies this
      ensures View() == ResizeOutputTo(Settings(), old(View()), Size(w, h), now, ok)
    {
      if !hasOutput || w < MIN_OUTPUT_SIZE || h < MIN_OUTPUT_SIZE {
        return;
      }
      if output.w == w && output.h == h {
        return;
      }
      CommitOutputMode(w, h, now, ok);
      lastOutput := output;
    }

    method CommitSurface(geo: Size, surf: Size, now: int, later: int, ok: bool)
      modifies this
      ensures View() == SurfaceCommit(Settings(), old(View()), geo, surf, now, later, ok)
    {
      hide Applied, Negotiate;
      ApplyCommit(geo, surf);
      MappedAsBefore(old(View()), geo, surf);
      if hasOutput {
        NegotiateSize(now, later, ok);
      }
    }

    // The committed state, the initial configure and the margin that client decorations add.
    method ApplyCommit(geo: Size, surf: Size)
      modifies this
      ensures View() == Applied(old(View()), geo, surf)
    {
      toplevel := Toplevel(geo, surf, toplevel.pend, toplevel.pend);
      if !initialConfigureSent {
        initialConfigureSent := true;
      }
      if geo.w > 0 && geo.h > 0 && surf.w > 0 && surf.h > 0 {
        var mw, mh := surf.w - geo.w, surf.h - geo.h;
        if mw < 0 {
          mw := 0;
        }
        if mh < 0 {
          mh := 0;
        }
        csdMargin := Size(mw, mh);
      }
    }

    // The oscillation guard of surface_commit.
    method WouldOscillate(outW: int, outH: int, now: int) returns (oscillation: bool)
      requires Size(outW, outH) == Wanted(Settings(), toplevel)
      ensures oscillation == Oscillates(Settings(), View(), now)
    {
      oscillation := false;
      var sinceFit := if fitLastMsec > 0 then now - fitLastMsec else -1;
      if fitLast.w > 0 && fitPrev.w > 0 &&
         sinceFit >= 0 && sinceFit < FIT_OSCILLATION_MS &&
         outW == fitPrev.w && outH == fitPrev.h &&
         (fitLast.w != fitPrev.w || fitLast.h != fitPrev.h)
      {
        oscillation := true;
      }
    }

    // The branch of surface_commit that moves the host window to the client's size.
    method FitOutput(outW: int, outH: int, confW: int, confH: int, now: int, later: int, ok: bool)
      requires Size(outW, outH) == Wanted(Settings(), toplevel)
      requires Size(confW, confH) == Asserted(Settings(), toplevel)
      modifies this
      ensures View() == ApplyFit(Settings(), old(View()), now, later, ok)
    {
      fitPrev := fitLast;
      fitLast := Size(outW, outH);
      fitLastMsec := now;
      fits := fits + [Fit(Size(outW, outH), now)];
      ResizeOutput(outW, outH, later, ok);
      if lastClientConf.w != confW || lastClientConf.h != confH {
        SetToplevelSize(confW, confH);
      }
    }

    method NegotiateSize(now: int, later: int, ok: bool)
      requires hasOutput
      modifies this
      ensures View() == Negotiate(Settings(), old(View()), now, later, ok)
    {
      hide FillHost, ApplyFit, FillTarget, Oscillates;
      var cw, ch := PreferredSize();
      var geo := toplevel.geo;
      var confW := if geo.w > 0 then geo.w else cw;
      var confH := if geo.h > 0 then geo.h else ch;
      var outW := ScaleSize(scale, cw);
      var outH := ScaleSize(scale, ch);
      var tiled := toplevel.cur.maximized || toplevel.pend.maximized ||
                   toplevel.cur.fullscreen || toplevel.pend.fullscreen;
      var dw, dh := Abs(outW - output.w), Abs(outH - output.h);
      var sizeMismatch := dw > 1 || dh > 1;
      var confDw, confDh := Abs(confW - lastClientConf.w), Abs(confH - lastClientConf.h);
      var confDiffers := lastClientConf.w <= 0 || lastClientConf.h <= 0 || confDw > 1 || confDh > 1;
      var assertShrink := sizeMismatch && confDiffers && !tiled &&
                          (outW < output.w - 1 || outH < output.h - 1);
      assert Size(outW, outH) == Wanted(Settings(), toplevel);
      assert Size(confW, confH) == Asserted(Settings(), toplevel);
      assert sizeMismatch == Mismatch(Settings(), View());
      assert assertShrink == Releases(Settings(), View());
      if assertShrink && sizeFromWm {
        sizeFromWm := false;
      }
      assert View() == Release(Settings(), old(View()));
      var wantFit := sizeMismatch && !tiled && !sizeFromWm &&
                     cw >= MIN_OUTPUT_SIZE && ch >= MIN_OUTPUT_SIZE;
      var oscillation := false;
      if wantFit {
        oscillation := WouldOscillate(outW, outH, now);
      }
      assert oscillation == (wantFit && Oscillates(Settings(), View(), now));
      assert Decide(Settings(), View(), now) == if !sizeMismatch then Leave else if !wantFit then HoldHost
                                                else if oscillation then Blocked else FitHost;
      if wantFit && oscillation {
        // Blocked: the host stays where it is.
      } else if wantFit {
        FitOutput(outW, outH, confW, confH, now, later, ok);
      } else if sizeMismatch && (sizeFromWm || tiled) {
        FillHostWindow(later);
      }
    }

    method HandleNetWmState(reply: Option<Flags>, now: int)
      modifies this
      ensures View() == NetWmState(Settings(), old(View()), reply, now)
    {
      if !initialConfigureSent {
        return;
      }
      if reply.None? {
        return;
      }
      var maximized, fullscreen := reply.value.maximized, reply.value.fullscreen;
      var curMax := toplevel.cur.maximized || toplevel.pend.maximized;
      var curFs := toplevel.cur.fullscreen || toplevel.pend.fullscreen;
      if maximized != curMax {
        if maximized {
          sizeFromWm := true;
          csdMargin := ZERO;
        } else {
          sizeFromWm := false;
        }
      }
      if fullscreen != curFs {
        if fullscreen {
          sizeFromWm := true;
          csdMargin := ZERO;
        } else {
          sizeFromWm := false;
        }
      }
      if (maximized || fullscreen) && hasOutput {
        FillHostWindow(now);
      }
    }

    method HandleRequestState(req: Size, reply: Option<Flags>, now: int, later: int, ok: bool)
      modifies this
      ensures View() == RequestState(Settings(), old(View()), req, reply, now, later, ok)
    {
      if !hasOutput || req.w <= 0 || req.h <= 0 {
        return;
      }
      if req.w == output.w && req.h == output.h {
        return;
      }
      sizeFromWm := true;
      HandleNetWmState(reply, now);
      CommitOutputMode(req.w, req.h, later, ok);
    }

    method HandleReparent(drawable: Size, now: int, ok: bool)
      modifies this
      ensures View() == Reparent(Settings(), old(View()), drawable, now, ok)
    {
      if hasOutput && drawable.w > 0 && drawable.h > 0 &&
         (drawable.w != output.w || drawable.h != output.h)
      {
        ResizeOutput(drawable.w, drawable.h, now, ok);
        SetToplevelSize(UnscaleSize(scale, drawable.w), UnscaleSize(scale, drawable.h));
      }
    }

    method CreateOutput(geo: Size, surf: Size, created: bool, ok: bool)
      modifies this
      ensures View() == Map(Settings(), old(View()), geo, surf, created, ok)
    {
      hide Wanted, SetSize;
      if hasOutput {
        return;
      }
      toplevel := Toplevel(geo, surf, toplevel.pend, toplevel.pend);
      sizeFromWm := false;
      if !created {
        return;
      }
      hasOutput := true;
      OpenAtPreferredSize(ok);
      SetToplevelSize(0, 0);
    }

    // The first commit of a new output; the placeholder before it is 1x1.
    method OpenAtPreferredSize(ok: bool)
      modifies this`output, this`lastOutput
      ensures output == lastOutput == if ok then Wanted(Settings(), toplevel) else Size(1, 1)
    {
      var wantW, wantH := PreferredSize();
      wantW, wantH := ScaleSize(scale, wantW), ScaleSize(scale, wantH);
      output := Size(1, 1);
      if ok {
        output := Size(wantW, wantH);
      }
      lastOutput := output;
    }
  }
}
