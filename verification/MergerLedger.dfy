// The merger as its users see it: what the calls and callbacks so far amount to, counted without
// references or descriptors. Every run of the real merger agrees with this ledger.
// subprojects/wlroots/render/drm_syncobj_merger.c:40-197.

module MergerLedger {
  import opened Base
  import opened Merger

  // fences is the union of every sync file that joined. accepted and answered count the points
  // that were not ready and their answers, fallen and done the planes that are polled, taken and
  // dropped the callers' references.
  datatype Ledger = Ledger(empty: bool, fences: Fences, accepted: nat, answered: nat,
                           fallen: nat, done: nat, taken: nat, dropped: nat)

  const OPEN: Ledger := Ledger(true, {}, 0, 0, 0, 0, 1, 0)

  // A sync file joins when it could be exported, and merged unless it is the first.
  predicate Joins(empty: bool, exported: Option<Fences>, mergeOk: bool) {
    exported.Some? && (empty || mergeOk)
  }

  function WithFile(l: Ledger, exported: Option<Fences>, mergeOk: bool): Ledger {
    if Joins(l.empty, exported, mergeOk) then l.(empty := false, fences := l.fences + exported.value) else l
  }

  // How many planes join before the first that does not.
  function Leading(empty: bool, planes: seq<Plane>): (n: nat)
    ensures n <= |planes|
    ensures forall j :: 0 <= j < n ==> Joins(empty && j == 0, planes[j].exported, planes[j].mergeOk)
    ensures n < |planes| ==> !Joins(empty && n == 0, planes[n].exported, planes[n].mergeOk)
  {
    if planes == [] || !Joins(empty, planes[0].exported, planes[0].mergeOk) then 0
    else 1 + Leading(false, planes[1..])
  }

  function FencesOfPlanes(planes: seq<Plane>): (fs: Fences)
    ensures forall x :: x in fs <==> exists j :: 0 <= j < |planes| && planes[j].exported.Some? && x in planes[j].exported.value
  {
    if planes == [] then {}
    else
      assert forall j :: 1 <= j < |planes| ==> planes[1..][j - 1] == planes[j];
      (if planes[0].exported.Some? then planes[0].exported.value else {}) + FencesOfPlanes(planes[1..])
  }

  // The kernel cannot export the fences of some plane, and every one before it has joined.
  predicate FallsBack(empty: bool, planes: seq<Plane>) {
    var n := Leading(empty, planes);
    n < |planes| && planes[n].exported == None
  }

  // How many planes get a poll before the first that cannot.
  function Polls(planes: seq<Plane>): (n: nat)
    ensures n <= |planes|
    ensures forall j :: 0 <= j < n ==> planes[j].allocOk && planes[j].sourceOk
    ensures n < |planes| ==> !(planes[n].allocOk && planes[n].sourceOk)
  {
    if planes == [] || !planes[0].allocOk || !planes[0].sourceOk then 0 else 1 + Polls(planes[1..])
  }

  function WithPlanes(l: Ledger, planes: seq<Plane>): Ledger {
    var n := Leading(l.empty, planes);
    l.(empty := l.empty && n == 0,
       fences := l.fences + FencesOfPlanes(planes[..n]),
       fallen := l.fallen + if FallsBack(l.empty, planes) then Polls(planes) else 0)
  }

  function Tally(l: Ledger, e: Event): Ledger {
    match e
    case EvRef => l.(taken := l.taken + 1)
    case EvUnref => l.(dropped := l.dropped + 1)
    case EvAddSyncFile(fences, mergeOk) => WithFile(l, fences, mergeOk)
    case EvAdd(CheckFailed) => l
    case EvAdd(Ready(exported, mergeOk)) => WithFile(l, exported, mergeOk)
    case EvAdd(NotReady(waiterOk)) => if waiterOk then l.(accepted := l.accepted + 1) else l
    case EvAddDmabuf(planes) => if planes == None then l else WithPlanes(l, planes.value)
    case EvExportReady(exported, mergeOk) => WithFile(l, exported, mergeOk).(answered := l.answered + 1)
    case EvPollDone => l.(done := l.done + 1)
  }

  function TallyAll(l: Ledger, es: seq<Event>): Ledger
    decreases |es|
  {
    if es == [] then l else TallyAll(Tally(l, es[0]), es[1..])
  }

  // ---- What calls return ----

  // What a call that adds something returned.
  predicate Succeeds(empty: bool, e: Event) {
    match e
    case EvAddSyncFile(fences, mergeOk) => Joins(empty, fences, mergeOk)
    case EvAdd(CheckFailed) => false
    case EvAdd(Ready(exported, mergeOk)) => Joins(empty, exported, mergeOk)
    case EvAdd(NotReady(waiterOk)) => waiterOk
    case EvAddDmabuf(planes) =>
      || planes == None
      || Leading(empty, planes.value) == |planes.value|
      || (FallsBack(empty, planes.value) && Polls(planes.value) == |planes.value|)
    case _ => true
  }

  // ---- One file ----

  predicate Agrees(s: State, l: Ledger)
    requires Inv(s)
  {
    && s.external == l.taken - l.dropped
    && s.exporting == l.accepted - l.answered
    && s.polling == l.fallen - l.done
    && (s.added == [] <==> l.empty)
    && Joined(s.files, s.added) == l.fences
  }

  lemma FilesGrow(s: State, exported: Option<Fences>, mergeOk: bool)
    requires Inv(s) && Alive(s)
    ensures var s' := AddExportable(s, exported, mergeOk).0;
            forall fd :: fd in s.files ==> fd in s'.files && s'.files[fd] == s.files[fd]
  {
  }

  lemma FileAgrees(s: State, l: Ledger, exported: Option<Fences>, mergeOk: bool)
    requires Inv(s) && Alive(s) && Agrees(s, l)
    ensures var (s', ok) := AddExportable(s, exported, mergeOk);
            && Inv(s') && SameReferences(s, s')
            && Agrees(s', WithFile(l, exported, mergeOk))
            && (ok <==> Joins(l.empty, exported, mergeOk))
            && (s'.added == [] <==> s.added == [] && !ok)
  {
    hide AddExportable, Joined;
    AddExportableKeeps(s, exported, mergeOk);
    FilesGrow(s, exported, mergeOk);
    var (s', ok) := AddExportable(s, exported, mergeOk);
    JoinedGrows(s.files, s'.files, s.added);
    if ok {
      JoinedLast(s'.files, s.added, s.next);
    }
  }

  lemma JoinedLast(files: map<int, Fences>, fds: seq<int>, fd: int)
    requires (forall x :: x in fds ==> x in files) && fd in files
    ensures forall x :: x in fds + [fd] ==> x in files
    ensures Joined(files, fds + [fd]) == Joined(files, fds) + files[fd]
  {
    assert (fds + [fd])[..|fds|] == fds;
  }

  // ---- Planes ----

  function Outcome(empty: bool, planes: seq<Plane>): Exported {
    if Leading(empty, planes) == |planes| then AllExported
    else if FallsBack(empty, planes) then NoSyncFile
    else AddFailed
  }

  // The files of the leading planes have joined.
  function WithLeading(l: Ledger, planes: seq<Plane>): Ledger {
    var n := Leading(l.empty, planes);
    l.(empty := l.empty && n == 0, fences := l.fences + FencesOfPlanes(planes[..n]))
  }

  lemma LeadingStep(l: Ledger, planes: seq<Plane>)
    requires planes != [] && Joins(l.empty, planes[0].exported, planes[0].mergeOk)
    ensures var w, rest := WithFile(l, planes[0].exported, planes[0].mergeOk), planes[1..];
            && Leading(l.empty, planes) == 1 + Leading(w.empty, rest)
            && WithLeading(l, planes) == WithLeading(w, rest)
            && Outcome(l.empty, planes) == Outcome(w.empty, rest)
  {
    var n := Leading(l.empty, planes);
    assert planes[..n][1..] == planes[1..][..n - 1];
  }

  lemma {:induction false} ExportPlanesAgrees(s: State, l: Ledger, planes: seq<Plane>)
    requires Inv(s) && Alive(s) && Agrees(s, l)
    ensures var (s', outcome) := ExportPlanes(s, planes);
            && Inv(s') && SameReferences(s, s')
            && outcome == Outcome(l.empty, planes)
            && Agrees(s', WithLeading(l, planes))
    decreases |planes|
  {
    hide Inv, AddExportable, Joined;
    if planes != [] {
      FileAgrees(s, l, planes[0].exported, planes[0].mergeOk);
      if Joins(l.empty, planes[0].exported, planes[0].mergeOk) {
        LeadingStep(l, planes);
        ExportPlanesAgrees(AddExportable(s, planes[0].exported, planes[0].mergeOk).0,
                           WithFile(l, planes[0].exported, planes[0].mergeOk), planes[1..]);
      }
    }
  }

  lemma {:induction false} PollPlanesExactly(s: State, planes: seq<Plane>)
    ensures PollPlanes(s, planes) ==
              (s.(refs := s.refs + Polls(planes), polling := s.polling + Polls(planes)), Polls(planes) == |planes|)
    decreases |planes|
  {
    if planes != [] && planes[0].allocOk && planes[0].sourceOk {
      PollPlanesExactly(s.(refs := s.refs + 1, polling := s.polling + 1), planes[1..]);
    }
  }

  lemma DmabufAgrees(s: State, l: Ledger, planes: seq<Plane>)
    requires Inv(s) && Alive(s) && Agrees(s, l)
    ensures var (s', ok) := AddDmabuf(s, Some(planes));
            && Inv(s') && Agrees(s', WithPlanes(l, planes))
            && (ok <==> Succeeds(l.empty, EvAddDmabuf(Some(planes))))
  {
    hide Joined, ExportPlanes, PollPlanes;
    AddDmabufKeeps(s, Some(planes));
    ExportPlanesAgrees(s, l, planes);
    PollPlanesExactly(ExportPlanes(s, planes).0, planes);
  }

  // ---- Every run ----

  // A call returns true exactly when what it was given has joined or is being waited for.
  lemma CallsReturn(s: State, l: Ledger, e: Event)
    requires Inv(s) && Alive(s) && Agrees(s, l)
    ensures match e
            case EvAddSyncFile(fences, mergeOk) => AddExportable(s, fences, mergeOk).1 <==> Succeeds(l.empty, e)
            case EvAdd(check) => Add(s, check).1 <==> Succeeds(l.empty, e)
            case EvAddDmabuf(planes) => AddDmabuf(s, planes).1 <==> Succeeds(l.empty, e)
            case _ => true
  {
    hide AddExportable, AddDmabuf, Joined;
    match e
    case EvAddSyncFile(fences, mergeOk) => FileAgrees(s, l, fences, mergeOk);
    case EvAdd(check) =>
      if check.Ready? {
        FileAgrees(s, l, check.exported, check.mergeOk);
      }
    case EvAddDmabuf(planes) =>
      if planes.Some? {
        DmabufAgrees(s, l, planes.value);
      } else {
        NothingToAdd(s);
      }
    case _ =>
  }

  lemma NothingToAdd(s: State)
    ensures AddDmabuf(s, None) == (s, true)
  {
  }

  lemma StepAgrees(s: State, l: Ledger, e: Event)
    requires Inv(s) && Agrees(s, l) && Enabled(s, e)
    ensures Inv(Step(s, e)) && Agrees(Step(s, e), Tally(l, e))
  {
    hide AddExportable, AddDmabuf, Joined, WithPlanes;
    StepKeeps(s, e);
    match e
    case EvAddSyncFile(fences, mergeOk) => FileAgrees(s, l, fences, mergeOk);
    case EvAdd(check) =>
      if check.Ready? {
        FileAgrees(s, l, check.exported, check.mergeOk);
      }
    case EvAddDmabuf(planes) =>
      if planes.Some? {
        DmabufAgrees(s, l, planes.value);
      } else {
        NothingToAdd(s);
      }
    case EvExportReady(exported, mergeOk) => FileAgrees(s, l, exported, mergeOk);
    case _ =>
  }

  lemma {:induction false} RunAgrees(s: State, l: Ledger, es: seq<Event>)
    requires Inv(s) && Agrees(s, l) && Possible(s, es)
    ensures Inv(Run(s, es)) && Agrees(Run(s, es), TallyAll(l, es))
    decreases |es|
  {
    hide Agrees, Inv, Step, Tally;
    if es != [] {
      StepAgrees(s, l, es[0]);
      RunAgrees(Step(s, es[0]), Tally(l, es[0]), es[1..]);
    }
  }

  // The join, by the ledger: in every run the destination is untouched exactly as long as some
  // accepted point is unanswered, some polled plane is not done, or some caller's reference is
  // not dropped; then it holds the union of everything that joined, or is signalled if nothing
  // did.
  lemma WaitsForEveryone(next: nat, es: seq<Event>)
    requires Possible(Create(next), es)
    ensures var s, l := Run(Create(next), es), TallyAll(OPEN, es);
            && s.exporting == l.accepted - l.answered
            && s.polling == l.fallen - l.done
            && s.external == l.taken - l.dropped
            && (s.points == [] <==> l.answered < l.accepted || l.done < l.fallen || l.dropped < l.taken)
            && (s.points != [] ==> s.points == [if l.empty then Signalled else Imported(l.fences)])
  {
    hide Step, Tally;
    assert Inv(Create(next)) && Agrees(Create(next), OPEN);
    RunAgrees(Create(next), OPEN, es);
  }

  // ---- Counting the events themselves ----

  // A point that is not ready and whose waiter could be made.
  predicate IsWaitedFor(e: Event) {
    e == EvAdd(NotReady(true))
  }

  predicate IsAnswer(e: Event) {
    e.EvExportReady?
  }

  predicate IsPollDone(e: Event) {
    e.EvPollDone?
  }

  function Count(es: seq<Event>, p: Event -> bool): nat {
    if es == [] then 0 else (if p(es[0]) then 1 else 0) + Count(es[1..], p)
  }

  lemma {:induction false} LedgerCounts(l: Ledger, es: seq<Event>)
    ensures var t := TallyAll(l, es);
            && t.accepted == l.accepted + Count(es, IsWaitedFor)
            && t.answered == l.answered + Count(es, IsAnswer)
            && t.done == l.done + Count(es, IsPollDone)
    decreases |es|
  {
    hide Leading, Polls, FencesOfPlanes;
    if es != [] {
      LedgerCounts(Tally(l, es[0]), es[1..]);
    }
  }

  // Every accepted point holds the join up until it is answered.
  lemma NotReadyIsWaitedFor(next: nat, es: seq<Event>)
    requires Possible(Create(next), es)
    ensures var s := Run(Create(next), es);
            && s.exporting == Count(es, IsWaitedFor) - Count(es, IsAnswer)
            && (s.points != [] ==> Count(es, IsAnswer) == Count(es, IsWaitedFor))
  {
    hide TallyAll, Run, Count;
    WaitsForEveryone(next, es);
    LedgerCounts(OPEN, es);
  }
}
