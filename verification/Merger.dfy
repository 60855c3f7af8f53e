// The syncobj merger: an asynchronous join. Synchronous adds, deferred exports and polls all
// hold references; the last one dropped materialises the destination point.
// subprojects/wlroots/render/drm_syncobj_merger.c.

module Merger {
  import opened Base

  // A sync file stands for a set of fences; merging two gives their union.
  type Fences = set<nat>

  const NO_FD: int := -1

  datatype Point = Imported(fences: Fences) | Signalled

  // The merger, the references others hold on it, and the file descriptors of the process.
  // added and points are history: the descriptors whose add succeeded, and what was done to
  // the destination.
  datatype State = State(
    refs: int,                  // n_ref
    syncFd: int,                // sync_fd
    external: nat,              // references held by callers
    exporting: nat,             // export waiters not yet ready
    polling: nat,               // poll waiters not yet done
    files: map<int, Fences>,    // every sync file the merger ever owned
    next: nat,                  // the next unused descriptor
    closes: multiset<int>,      // close calls
    added: seq<int>,
    points: seq<Point>)

  // wlr_drm_syncobj_merger_create, with descriptors below next in use elsewhere.
  function Create(next: nat): State {
    State(1, NO_FD, 1, 0, 0, map[], next, multiset{}, [], [])
  }

  predicate Alive(s: State) {
    s.refs > 0
  }

  // ---- Descriptors ----

  function FencesOf(s: State, fd: int): Fences {
    if fd in s.files then s.files[fd] else {}
  }

  // Exporting a point gives a new sync file, or -1; either way its owner is now the merger.
  function Export(s: State, exported: Option<Fences>): (State, int) {
    match exported
    case None => (s, NO_FD)
    case Some(fs) => (s.(files := s.files[s.next := fs], next := s.next + 1), s.next)
  }

  function Close(s: State, fd: int): State {
    if fd == NO_FD then s else s.(closes := s.closes + multiset{fd})
  }

  // wlr_drm_syncobj_merger_add_sync_file. Merging with -1 always fails.
  function AddSyncFile(s: State, fd: int, mergeOk: bool): (State, bool)
  {
    if s.syncFd == NO_FD then
      (s.(syncFd := fd, added := if fd == NO_FD then s.added else s.added + [fd]), fd != NO_FD)
    else if fd == NO_FD || !mergeOk then
      (Close(s, fd), false)
    else
      var merged := s.(files := s.files[s.next := FencesOf(s, s.syncFd) + FencesOf(s, fd)], next := s.next + 1);
      var closed := Close(Close(merged, fd), s.syncFd);
      (closed.(syncFd := s.next, added := s.added + [fd]), true)
  }

  function AddExportable(s: State, exported: Option<Fences>, mergeOk: bool): (State, bool)
  {
    var (e, fd) := Export(s, exported);
    AddSyncFile(e, fd, mergeOk)
  }

  // ---- References ----

  // wlr_drm_syncobj_merger_unref, without saying whose reference it was.
  function Drop(s: State): State
  {
    var d := s.(refs := s.refs - 1);
    if d.refs > 0 then d
    else if s.syncFd != NO_FD then Close(d.(points := s.points + [Imported(FencesOf(s, s.syncFd))]), s.syncFd)
    else d.(points := s.points + [Signalled])
  }

  // ---- Events ----

  // What wlr_drm_syncobj_timeline_check said about a source point, and what followed.
  datatype Check =
    | CheckFailed
    | Ready(exported: Option<Fences>, mergeOk: bool)
    | NotReady(waiterOk: bool)

  function Add(s: State, check: Check): (State, bool)
  {
    match check
    case CheckFailed => (s, false)
    case Ready(exported, mergeOk) => AddExportable(s, exported, mergeOk)
    case NotReady(waiterOk) =>
      if waiterOk then (s.(refs := s.refs + 1, exporting := s.exporting + 1), true) else (s, false)
  }

  // One plane of a DMA-BUF: its export, the merge, and the fallback poll.
  datatype Plane = Plane(exported: Option<Fences>, mergeOk: bool, allocOk: bool, sourceOk: bool)

  datatype Exported = AllExported | NoSyncFile | AddFailed

  function ExportPlanes(s: State, planes: seq<Plane>): (State, Exported)
    decreases |planes|
  {
    if planes == [] then (s, AllExported)
    else if planes[0].exported == None then (s, NoSyncFile)
    else
      var (a, ok) := AddExportable(s, planes[0].exported, planes[0].mergeOk);
      if ok then ExportPlanes(a, planes[1..]) else (a, AddFailed)
  }

  // A waiter whose event source cannot be created drops its reference again; the caller still
  // has its own, so that drop is never the last.
  function PollPlanes(s: State, planes: seq<Plane>): (State, bool)
    decreases |planes|
  {
    if planes == [] then (s, true)
    else if !planes[0].allocOk || !planes[0].sourceOk then (s, false)
    else PollPlanes(s.(refs := s.refs + 1, polling := s.polling + 1), planes[1..])
  }

  function AddDmabuf(s: State, planes: Option<seq<Plane>>): (State, bool)
  {
    if planes == None then (s, true)
    else
      var (e, outcome) := ExportPlanes(s, planes.value);
      match outcome
      case AllExported => (e, true)
      case AddFailed => (e, false)
      case NoSyncFile => PollPlanes(e, planes.value)
  }

  datatype Event =
    | EvRef
    | EvUnref
    | EvAddSyncFile(fences: Option<Fences>, mergeOk: bool)
    | EvAdd(check: Check)
    | EvAddDmabuf(planes: Option<seq<Plane>>)
    | EvExportReady(exported: Option<Fences>, mergeOk: bool)
    | EvPollDone

  // A caller needs a reference of its own; a callback needs its waiter.
  predicate Enabled(s: State, e: Event) {
    match e
    case EvExportReady(_, _) => s.exporting > 0
    case EvPollDone => s.polling > 0
    case _ => s.external > 0
  }

  function Step(s: State, e: Event): State
    requires Enabled(s, e)
  {
    match e
    case EvRef => s.(refs := s.refs + 1, external := s.external + 1)
    case EvUnref => Drop(s.(external := s.external - 1))
    case EvAddSyncFile(fences, mergeOk) => AddExportable(s, fences, mergeOk).0
    case EvAdd(check) => Add(s, check).0
    case EvAddDmabuf(planes) => AddDmabuf(s, planes).0
    case EvExportReady(exported, mergeOk) =>
      Drop(AddExportable(s, exported, mergeOk).0.(exporting := s.exporting - 1))
    case EvPollDone => Drop(s.(polling := s.polling - 1))
  }

  // ---- The invariant ----

  // The fences of a list of sync files.
  function Joined(files: map<int, Fences>, fds: seq<int>): Fences
    requires forall fd :: fd in fds ==> fd in files
  {
    if fds == [] then {}
    else
      var last := fds[|fds|-1];
      assert last in fds;
      Joined(files, fds[..|fds|-1]) + files[last]
  }

  predicate Inv(s: State) {
    // every reference has exactly one holder
    && s.refs == s.external + s.exporting + s.polling
    // the destination is materialised exactly when nobody holds the merger any more
    && |s.points| == (if Alive(s) then 0 else 1)
    // descriptors
    && (s.syncFd == NO_FD || s.syncFd in s.files)
    && (forall fd :: fd in s.files ==> 0 <= fd < s.next)
    && (forall fd :: fd in s.files ==> s.closes[fd] == if Alive(s) && fd == s.syncFd then 0 else 1)
    && (forall fd :: fd in s.closes ==> fd in s.files)
    // the accumulated file is the merge of what was added
    && (forall fd :: fd in s.added ==> fd in s.files)
    && (s.syncFd == NO_FD <==> s.added == [])
    && (s.added != [] ==> s.files[s.syncFd] == Joined(s.files, s.added))
    && (!Alive(s) ==> s.points == [if s.added == [] then Signalled else Imported(Joined(s.files, s.added))])
  }

  lemma {:induction false} JoinedGrows(files: map<int, Fences>, files': map<int, Fences>, fds: seq<int>)
    requires forall fd :: fd in fds ==> fd in files
    requires forall fd :: fd in files ==> fd in files' && files'[fd] == files[fd]
    ensures Joined(files', fds) == Joined(files, fds)
  {
    if fds != [] {
      assert fds[|fds|-1] in fds;
      JoinedGrows(files, files', fds[..|fds|-1]);
    }
  }

  // The bookkeeping around the references, which adding a sync file does not touch.
  predicate SameReferences(s: State, s': State) {
    && s'.refs == s.refs && s'.external == s.external && s'.exporting == s.exporting
    && s'.polling == s.polling && s'.points == s.points
  }

  // Adding keeps the invariant; it succeeds exactly when the file joins the list of added ones.
  lemma AddExportableKeeps(s: State, exported: Option<Fences>, mergeOk: bool)
    requires Inv(s) && Alive(s)
    ensures var (s', ok) := AddExportable(s, exported, mergeOk);
            && Inv(s') && SameReferences(s, s')
            && (ok <==> exported.Some? && (s.syncFd == NO_FD || mergeOk))
            && s'.added == (if ok then s.added + [s.next] else s.added)
            && (ok ==> s'.files[s.next] == exported.value)
  {
    if exported == None {
    } else if s.syncFd == NO_FD {
      FirstFileKeeps(s, exported.value, mergeOk);
    } else if !mergeOk {
      FailedMergeKeeps(s, exported.value);
    } else {
      MergeKeeps(s, exported.value);
    }
  }

  lemma FirstFileKeeps(s: State, fs: Fences, mergeOk: bool)
    requires Inv(s) && Alive(s) && s.syncFd == NO_FD
    ensures Inv(AddExportable(s, Some(fs), mergeOk).0)
  {
    var s' := AddExportable(s, Some(fs), mergeOk).0;
    assert s'.added == [s.next];
    JoinedOne(s'.files, s.next);
  }

  lemma JoinedOne(files: map<int, Fences>, fd: int)
    requires fd in files
    ensures Joined(files, [fd]) == files[fd]
  {
    assert [fd][..0] == [];
  }

  lemma FailedMergeKeeps(s: State, fs: Fences)
    requires Inv(s) && Alive(s) && s.syncFd != NO_FD
    ensures Inv(AddExportable(s, Some(fs), false).0)
  {
    JoinedGrows(s.files, s.files[s.next := fs], s.added);
  }

  lemma MergeKeeps(s: State, fs: Fences)
    requires Inv(s) && Alive(s) && s.syncFd != NO_FD
    ensures Inv(AddExportable(s, Some(fs), true).0)
  {
    var s' := AddExportable(s, Some(fs), true).0;
    JoinedGrows(s.files, s'.files, s.added);
    assert s'.added[..|s'.added|-1] == s.added;
  }

  lemma DropKeeps(s: State)
    requires s.refs > 0 && s.refs - 1 == s.external + s.exporting + s.polling
    requires Inv(s.(external := s.external + 1))
    ensures Inv(Drop(s))
  {
  }

  lemma {:induction false} ExportPlanesKeeps(s: State, planes: seq<Plane>)
    requires Inv(s) && Alive(s)
    ensures var (s', outcome) := ExportPlanes(s, planes); Inv(s') && SameReferences(s, s')
    decreases |planes|
  {
    if planes != [] && planes[0].exported.Some? {
      AddExportableKeeps(s, planes[0].exported, planes[0].mergeOk);
      ExportPlanesKeeps(AddExportable(s, planes[0].exported, planes[0].mergeOk).0, planes[1..]);
    }
  }

  lemma {:induction false} PollPlanesKeeps(s: State, planes: seq<Plane>)
    requires Inv(s) && Alive(s)
    ensures Inv(PollPlanes(s, planes).0)
    decreases |planes|
  {
    if planes != [] && planes[0].allocOk && planes[0].sourceOk {
      PollPlanesKeeps(s.(refs := s.refs + 1, polling := s.polling + 1), planes[1..]);
    }
  }

  lemma AddDmabufKeeps(s: State, planes: Option<seq<Plane>>)
    requires Inv(s) && Alive(s)
    ensures Inv(AddDmabuf(s, planes).0)
  {
    if planes.Some? {
      ExportPlanesKeeps(s, planes.value);
      if ExportPlanes(s, planes.value).1.NoSyncFile? {
        PollPlanesKeeps(ExportPlanes(s, planes.value).0, planes.value);
      }
    }
  }

  lemma ExportReadyKeeps(s: State, exported: Option<Fences>, mergeOk: bool)
    requires Inv(s) && s.exporting > 0
    ensures Inv(Step(s, EvExportReady(exported, mergeOk)))
  {
    hide AddExportable, Drop, Joined;
    AddExportableKeeps(s, exported, mergeOk);
    WaiterGone(AddExportable(s, exported, mergeOk).0);
  }

  lemma WaiterGone(s: State)
    requires Inv(s) && s.exporting > 0
    ensures Inv(Drop(s.(exporting := s.exporting - 1)))
  {
    DropKeeps(s.(exporting := s.exporting - 1));
  }

  lemma StepKeeps(s: State, e: Event)
    requires Inv(s) && Enabled(s, e)
    ensures Inv(Step(s, e))
  {
    match e
    case EvRef =>
    case EvUnref =>
      DropKeeps(s.(external := s.external - 1));
    case EvAddSyncFile(fences, mergeOk) =>
      AddExportableKeeps(s, fences, mergeOk);
    case EvAdd(check) =>
      if check.Ready? {
        AddExportableKeeps(s, check.exported, check.mergeOk);
      }
    case EvAddDmabuf(planes) =>
      AddDmabufKeeps(s, planes);
    case EvExportReady(exported, mergeOk) =>
      ExportReadyKeeps(s, exported, mergeOk);
    case EvPollDone =>
      DropKeeps(s.(polling := s.polling - 1));
  }

  // ---- Runs ----

  // Every interleaving: any sequence of events each of which is possible when it happens.
  predicate Possible(s: State, es: seq<Event>)
    decreases |es|
  {
    es == [] || (Enabled(s, es[0]) && Possible(Step(s, es[0]), es[1..]))
  }

  function Run(s: State, es: seq<Event>): State
    requires Possible(s, es)
    decreases |es|
  {
    if es == [] then s else Run(Step(s, es[0]), es[1..])
  }

  lemma {:induction false} RunKeeps(s: State, es: seq<Event>)
    requires Inv(s) && Possible(s, es)
    ensures Inv(Run(s, es))
    decreases |es|
  {
    if es != [] {
      StepKeeps(s, es[0]);
      RunKeeps(Step(s, es[0]), es[1..]);
    }
  }

  // The join: in every run the destination is untouched while a caller, an export waiter or a
  // poll waiter is outstanding; once none is, it has been materialised exactly once, from
  // exactly the sync files whose add succeeded, every descriptor has been closed exactly once,
  // and nothing more can happen.
  lemma JoinsExactlyOnce(next: nat, es: seq<Event>)
    requires Possible(Create(next), es)
    ensures var s := Run(Create(next), es);
            && Inv(s)
            && (s.external + s.exporting + s.polling > 0 ==> s.points == [])
            && (s.external + s.exporting + s.polling == 0 ==>
                  && s.points == [if s.added == [] then Signalled else Imported(Joined(s.files, s.added))]
                  && (forall fd :: fd in s.files ==> s.closes[fd] == 1)
                  && (forall e :: !Enabled(s, e)))
            && (forall fd :: fd in s.closes ==> fd in s.files && s.closes[fd] == 1)
  {
    assert Inv(Create(next));
    RunKeeps(Create(next), es);
  }
}
