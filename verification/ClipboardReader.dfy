// The reader's buffer in memory: reallocated by doubling, filled in place, always terminated.

module ClipboardReader {
  import opened Base
  import opened Clipboard

  method Memcpy(dst: array<Byte>, at: nat, src: seq<Byte>)
    requires at + |src| <= dst.Length
    modifies dst
    ensures dst[..] == old(dst[..at]) + src + old(dst[at + |src|..])
  {
    var i := 0;
    while i < |src|
      invariant 0 <= i <= |src|
      invariant dst[..at + i] == old(dst[..at]) + src[..i]
      invariant dst[at + |src|..] == old(dst[at + |src|..])
    {
      dst[at + i] := src[i];
      i := i + 1;
    }
    assert src[..i] == src;
    assert dst[..] == dst[..at + |src|] + dst[at + |src|..];
  }

  class Reader {
    var reading: bool              // clip_read_source and clip_read_fd are set
    var primary: bool              // clip_read_is_primary
    var buf: array?<Byte>          // clip_read_buf
    var len: nat                   // clip_read_len
    var cap: nat                   // clip_read_cap
    var clipOut: Option<seq<Byte>> // clip_out_text
    var priOut: Option<seq<Byte>>  // pri_out_text

    ghost predicate Valid()
      reads this, buf
    {
      && (buf == null ==> len == 0 && cap == 0)
      && (buf != null ==> buf.Length == cap && len < cap && buf[len] == 0)
    }

    ghost function View(): State
      requires Valid()
      reads this, buf
    {
      State(reading, primary, if buf == null then [] else buf[..len], cap, clipOut, priOut)
    }

    constructor ()
      ensures Valid() && View() == START.s && buf == null
    {
      reading, primary, buf, len, cap := false, false, null, 0, 0;
      clipOut, priOut := None, None;
    }

    method ClearRead()
      requires Valid()
      modifies this
      ensures Valid() && View() == Clear(old(View())) && buf == null
    {
      reading := false;
      buf := null;
      len := 0;
      cap := 0;
    }

    // clipboard_set_x11_owner with the collected text.
    method PublishCollected()
      requires Valid()
      modifies this`clipOut, this`priOut
      ensures Valid() && View() == Publish(old(View()))
    {
      if len > 0 && buf != null {
        if primary {
          priOut := Some(buf[..len]);
        } else {
          clipOut := Some(buf[..len]);
        }
      }
    }

    // realloc: a bigger block with the old contents at its start.
    method Grow(need: nat)
      requires Valid() && need > cap
      modifies this`buf, this`cap
      ensures fresh(buf) && buf != null && buf.Length == cap == Grown(old(cap), need)
      ensures len <= cap && buf[..len] == old(View().data)
    {
      var ncap := if cap != 0 then cap * 2 else CHUNK;
      ghost var first := ncap;
      while ncap < need
        invariant ncap > 0 && Doubled(ncap, need) == Doubled(first, need)
        decreases need - ncap
      {
        ncap := ncap * 2;
      }
      var nbuf := new Byte[ncap](_ => 0);
      if buf != null {
        Memcpy(nbuf, 0, buf[..len]);
      }
      buf := nbuf;
      cap := ncap;
    }

    // Appends a chunk after making room for it and the terminator.
    method AppendChunk(chunk: seq<Byte>)
      requires Valid()
      modifies this`buf, this`cap, this`len, buf
      ensures Valid() && View() == Append(old(View()), chunk)
      ensures buf != null && (fresh(buf) || buf == old(buf))
    {
      if len + |chunk| + 1 > cap {
        Grow(len + |chunk| + 1);
      }
      Memcpy(buf, len, chunk);
      len := len + |chunk|;
      buf[len] := 0;
      assert buf[..len] == old(View().data) + chunk;
    }

    method HandleReadable(hangup: bool, readable: bool, results: seq<Read>)
      requires Valid()
      modifies this, buf
      ensures Valid() && View() == ReadFd(old(View()), hangup, readable, results)
    {
      if hangup {
        PublishCollected();
        ClearRead();
        return;
      }
      if !readable {
        return;
      }
      assert results[0..] == results;
      var i := 0;
      while i < |results|
        invariant 0 <= i <= |results| && Valid()
        invariant buf == null || fresh(buf) || buf == old(buf)
        invariant ReadAll(View(), results[i..]) == ReadAll(old(View()), results)
      {
        assert results[i..][1..] == results[i + 1..];
        match results[i]
        case WouldBlock =>
          return;
        case ReadError =>
          ClearRead();
          return;
        case EndOfFile =>
          PublishCollected();
          ClearRead();
          return;
        case Data(chunk) =>
          if len + |chunk| > CLIPBOARD_MAX {
            ClearRead();
            return;
          }
          AppendChunk(chunk);
          i := i + 1;
      }
    }

    method Export(primary: bool, hasText: bool, pipeOk: bool, sourceOk: bool)
      requires Valid()
      modifies this
      ensures Valid() && View() == StartExport(old(View()), primary, hasText, pipeOk, sourceOk)
    {
      if !hasText {
        return;
      }
      ClearRead();
      this.primary := primary;
      if !pipeOk {
        return;
      }
      if !sourceOk {
        return;
      }
      reading := true;
    }
  }
}
