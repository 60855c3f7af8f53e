// The drag fields of the server, updated in place.

module DragState {
  import opened Base
  import opened Drag

  class Server {
    var moving: bool
    var resizing: bool
    var moveOffset: Point
    var resizeEdges: Edges
    var resizeStart: Point
    var resizeStartSize: Extent
    var resizeStartPointer: Point
    var dragLastSendAt: Time
    var dragLastRequested: Point
    var dragCorrection: Point

    // A move takes precedence when both are active.
    ghost function View(): State
      reads this
    {
      State(if moving then Move(moveOffset)
            else if resizing then Resize(resizeEdges, resizeStart, resizeStartSize, resizeStartPointer)
            else Idle,
            dragLastSendAt, dragLastRequested, dragCorrection)
    }

    // frame and pointer are None when the X server cannot be asked.
    method BeginInteractiveMove(frame: Option<Point>, pointer: Option<Point>)
      modifies this
      ensures View() == if frame == None || pointer == None then old(View())
                        else BeginMove(old(View()), frame.value, pointer.value)
    {
      if frame == None || pointer == None {
        return;
      }
      moving := true;
      moveOffset := Point(frame.value.x - pointer.value.x, frame.value.y - pointer.value.y);
      dragLastSendAt := Time(0, 0);
      dragCorrection := Point(0, 0);
      dragLastRequested := frame.value;
    }

    method BeginInteractiveResize(edges: Edges, frame: Option<Point>, size: Option<Extent>, pointer: Option<Point>)
      modifies this
      ensures View() == if frame == None || size == None || pointer == None then old(View())
                        else BeginResize(old(View()), edges, frame.value, size.value, pointer.value)
    {
      if frame == None || size == None || pointer == None {
        return;
      }
      resizing := true;
      resizeEdges := edges;
      resizeStart := frame.value;
      resizeStartSize := size.value;
      resizeStartPointer := pointer.value;
      dragLastSendAt := Time(0, 0);
      dragCorrection := Point(0, 0);
      dragLastRequested := frame.value;
    }

    method ThrottleReady(now: Time) returns (ready: bool)
      modifies this`dragLastSendAt
      ensures ready == Ready(old(View()), now)
      ensures dragLastSendAt == if ready then now else old(dragLastSendAt)
    {
      var elapsed := (now.sec - dragLastSendAt.sec) * 1000
                     + TruncDiv(now.nsec - dragLastSendAt.nsec, 1_000_000);
      if elapsed < THROTTLE_MS {
        return false;
      }
      dragLastSendAt := now;
      return true;
    }

    method UpdateInteractiveDrag(now: Time, pointer: Option<Point>) returns (sent: Option<Request>)
      modifies this
      ensures (View(), sent) == Update(old(View()), now, pointer)
    {
      if !moving && !resizing {
        return None;
      }
      var ready := ThrottleReady(now);
      if !ready {
        return None;
      }
      if pointer == None {
        return None;
      }
      var px, py := pointer.value.x, pointer.value.y;
      if moving {
        var x := px + moveOffset.x - dragCorrection.x;
        var y := py + moveOffset.y - dragCorrection.y;
        dragLastRequested := Point(x, y);
        return Some(Request(Point(x, y), None));
      }
      var dx, dy := px - resizeStartPointer.x, py - resizeStartPointer.y;
      var x, y := resizeStart.x, resizeStart.y;
      var w, h := resizeStartSize.w, resizeStartSize.h;
      if resizeEdges.left {
        x := x + dx;
        w := w - dx;
      } else if resizeEdges.right {
        w := w + dx;
      }
      if resizeEdges.top {
        y := y + dy;
        h := h - dy;
      } else if resizeEdges.bottom {
        h := h + dy;
      }
      if w < MIN_WINDOW_SIZE {
        w := MIN_WINDOW_SIZE;
      }
      if h < MIN_WINDOW_SIZE {
        h := MIN_WINDOW_SIZE;
      }
      x := x - dragCorrection.x;
      y := y - dragCorrection.y;
      dragLastRequested := Point(x, y);
      return Some(Request(Point(x, y), Some(Extent(w, h))));
    }

    method HandleConfigureNotify(ws: Windows, window: nat, at: Point)
      modifies this
      ensures View() == Notify(old(View()), ws, window, at)
    {
      if moving || resizing {
        var target := if ws.content != 0 then ws.content else ws.xwin;
        if window == target || window == ws.xwin {
          if window == ws.xwin || ws.content == 0 || ws.content == ws.xwin {
            dragCorrection := Point(at.x - dragLastRequested.x, at.y - dragLastRequested.y);
          }
        }
      }
    }
  }
}
