// The merger as an object: n_ref and sync_fd change in place, and descriptors live in the
// kernel's table.

module MergerObject {
  import opened Base
  import opened Merger

  // The kernel's side: what each sync file stands for, and which descriptors were closed.
  class Kernel {
    var files: map<int, Fences>
    var next: nat
    ghost var closes: multiset<int>

    constructor (next: nat)
      ensures files == map[] && this.next == next && closes == multiset{}
    {
      files, this.next, closes := map[], next, multiset{};
    }

    // A new sync file, or -1 when the export fails.
    method NewFile(exported: Option<Fences>) returns (fd: int)
      modifies this
      ensures exported == None ==> fd == NO_FD && files == old(files) && next == old(next)
      ensures exported != None ==> fd == old(next) && files == old(files)[fd := exported.value] && next == old(next) + 1
      ensures closes == old(closes)
    {
      if exported == None {
        return NO_FD;
      }
      fd := next;
      files := files[fd := exported.value];
      next := next + 1;
    }

    // SYNC_IOC_MERGE: a new file for both, or -1.
    method Merge(fd1: int, fd2: int, mergeOk: bool) returns (fd: int)
      requires fd1 in files && (fd2 == NO_FD || fd2 in files)
      modifies this
      ensures fd2 == NO_FD || !mergeOk ==> fd == NO_FD && files == old(files) && next == old(next)
      ensures fd2 != NO_FD && mergeOk ==>
                fd == old(next) && files == old(files)[fd := old(files)[fd1] + old(files)[fd2]] && next == old(next) + 1
      ensures closes == old(closes)
    {
      if fd2 == NO_FD || !mergeOk {
        return NO_FD;
      }
      fd := NewFile(Some(files[fd1] + files[fd2]));
    }

    method CloseFd(fd: int)
      modifies this
      ensures files == old(files) && next == old(next)
      ensures closes == if fd == NO_FD then old(closes) else old(closes) + multiset{fd}
    {
      if fd != NO_FD {
        closes := closes + multiset{fd};
      }
    }
  }

  class SyncobjMerger {
    var nRef: int
    var syncFd: int
    const kernel: Kernel

    ghost var external: nat
    ghost var exporting: nat
    ghost var polling: nat
    ghost var added: seq<int>
    ghost var points: seq<Point>

    ghost function View(): State
      reads this, kernel
    {
      State(nRef, syncFd, external, exporting, polling, kernel.files, kernel.next, kernel.closes, added, points)
    }

    ghost predicate Valid()
      reads this, kernel
    {
      Inv(View())
    }

    constructor (kernel: Kernel)
      requires kernel.files == map[] && kernel.closes == multiset{}
      ensures Valid() && View() == Create(kernel.next) && this.kernel == kernel
    {
      nRef, syncFd := 1, NO_FD;
      this.kernel := kernel;
      external, exporting, polling, added, points := 1, 0, 0, [], [];
    }

    method Ref()
      requires Valid() && Enabled(View(), EvRef)
      modifies this
      ensures Valid() && View() == Step(old(View()), EvRef)
    {
      nRef := nRef + 1;
      external := external + 1;
    }

    // Gives up one reference; whose it was is the caller's business.
    method Release()
      requires nRef > 0 && (syncFd == NO_FD || syncFd in kernel.files)
      modifies this, kernel
      ensures View() == Drop(old(View()))
    {
      nRef := nRef - 1;
      if nRef > 0 {
        return;
      }
      if syncFd != NO_FD {
        points := points + [Imported(kernel.files[syncFd])];
        kernel.CloseFd(syncFd);
      } else {
        points := points + [Signalled];
      }
    }

    method Unref()
      requires Valid() && Enabled(View(), EvUnref)
      modifies this, kernel
      ensures Valid() && View() == Step(old(View()), EvUnref)
    {
      StepKeeps(View(), EvUnref);
      external := external - 1;
      Release();
    }

    method AddFile(fd: int, mergeOk: bool) returns (ok: bool)
      requires fd == NO_FD || fd in kernel.files
      requires syncFd == NO_FD || syncFd in kernel.files
      modifies this, kernel
      ensures (View(), ok) == AddSyncFile(old(View()), fd, mergeOk)
    {
      var newSync := fd;
      if syncFd != NO_FD {
        newSync := kernel.Merge(syncFd, fd, mergeOk);
        kernel.CloseFd(fd);
        if newSync < 0 {
          return false;
        }
        kernel.CloseFd(syncFd);
      }
      added := if newSync == NO_FD then added else added + [fd];
      syncFd := newSync;
      return syncFd != NO_FD;
    }

    // merger_add_exportable; also a caller handing in a sync file of its own.
    method AddExported(exported: Option<Fences>, mergeOk: bool) returns (ok: bool)
      requires syncFd == NO_FD || syncFd in kernel.files
      modifies this, kernel
      ensures (View(), ok) == AddExportable(old(View()), exported, mergeOk)
    {
      var fd := kernel.NewFile(exported);
      ok := AddFile(fd, mergeOk);
    }

    method AddPoint(check: Check) returns (ok: bool)
      requires Valid() && Enabled(View(), EvAdd(check))
      modifies this, kernel
      ensures Valid() && (View(), ok) == Add(old(View()), check)
    {
      StepKeeps(View(), EvAdd(check));
      if check.CheckFailed? {
        return false;
      }
      if check.Ready? {
        ok := AddExported(check.exported, check.mergeOk);
        return;
      }
      if !check.waiterOk {
        return false;
      }
      nRef := nRef + 1;
      exporting := exporting + 1;
      return true;
    }

    method AddDmabufPlanes(planes: Option<seq<Plane>>) returns (ok: bool)
      requires Valid() && Enabled(View(), EvAddDmabuf(planes))
      modifies this, kernel
      ensures Valid() && (View(), ok) == AddDmabuf(old(View()), planes)
    {
      StepKeeps(View(), EvAddDmabuf(planes));
      if planes == None {
        return true;
      }
      var ps := planes.value;
      var outcome := ExportLoop(ps);
      if outcome == AllExported {
        return true;
      }
      if outcome == AddFailed {
        return false;
      }
      ok := PollLoop(ps);
    }

    method ExportLoop(ps: seq<Plane>) returns (outcome: Exported)
      requires Valid() && nRef > 0
      modifies this, kernel
      ensures (View(), outcome) == ExportPlanes(old(View()), ps)
      ensures Valid() && nRef > 0
    {
      ghost var goal := ExportPlanes(View(), ps);
      assert ps[0..] == ps;
      var i := 0;
      while i < |ps|
        invariant 0 <= i <= |ps| && Valid() && nRef > 0
        invariant ExportPlanes(View(), ps[i..]) == goal
      {
        assert ps[i..][1..] == ps[i + 1..];
        if ps[i].exported == None {
          return NoSyncFile;
        }
        AddExportableKeeps(View(), ps[i].exported, ps[i].mergeOk);
        var ok := AddExported(ps[i].exported, ps[i].mergeOk);
        if !ok {
          return AddFailed;
        }
        i := i + 1;
      }
      return AllExported;
    }

    method PollLoop(ps: seq<Plane>) returns (ok: bool)
      requires Valid() && nRef > 0
      modifies this
      ensures (View(), ok) == PollPlanes(old(View()), ps)
      ensures Valid()
    {
      ghost var goal := PollPlanes(View(), ps);
      assert ps[0..] == ps;
      var i := 0;
      while i < |ps|
        invariant 0 <= i <= |ps| && Valid() && nRef > 0
        invariant PollPlanes(View(), ps[i..]) == goal
      {
        assert ps[i..][1..] == ps[i + 1..];
        if !ps[i].allocOk {
          return false;
        }
        nRef := nRef + 1;
        if !ps[i].sourceOk {
          nRef := nRef - 1;
          return false;
        }
        polling := polling + 1;
        i := i + 1;
      }
      return true;
    }

    // The export waiter's callback.
    method HandleReady(exported: Option<Fences>, mergeOk: bool)
      requires Valid() && exporting > 0
      modifies this, kernel
      ensures Valid() && View() == Step(old(View()), EvExportReady(exported, mergeOk))
    {
      hide Joined, AddExportable, Drop;
      StepKeeps(View(), EvExportReady(exported, mergeOk));
      AddExportableKeeps(View(), exported, mergeOk);
      var _ := AddExported(exported, mergeOk);
      exporting := exporting - 1;
      Release();
    }

    // The poll waiter's callback.
    method HandleDone()
      requires Valid() && polling > 0
      modifies this, kernel
      ensures Valid() && View() == Step(old(View()), EvPollDone)
    {
      StepKeeps(View(), EvPollDone);
      polling := polling - 1;
      Release();
    }
  }
}
