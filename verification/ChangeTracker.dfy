/** The tracker of agent changes in the editor: edits gather in heuristic changes or in an explicit session, quiet
    periods and reviews move them to a queue, and recording takes them off it, all of it in any order. */
module ChangeTracker {
  import opened Common

  datatype FileChange = FileChange(path: string, language: string, before: string, after: string, at: int)

  /** A change by reference: heuristic ones only have files, explicit sessions also what they watch. */
  datatype Change = Change(root: string, files: seq<FileChange>, updatedAt: int, baselines: map<string, string>,
                           dirty: seq<string>, created: set<string>, deleted: set<string>)

  /** A heuristic change under the workspace it gathers for. */
  datatype Held = Held(root: string, id: string)

  /** A recording under way, begun by `stop` or by a review. */
  datatype Recording = Recording(id: string, fromStop: bool)

  /** A call of `stop` that has not cleared its session yet: the session, and how many of its dirty paths it
      has read. */
  datatype Stop = Stop(id: string, read: nat)

  /** The state between two events. `changes` holds every change ever made, by its id, as the object the other fields
      refer to; `stops` the calls of `stop` under way; `picked` what reviews have selected; `settled` what was recorded,
      discarded or found empty. */
  datatype State = State(baselines: map<string, string>, changes: map<string, Change>, heuristic: seq<Held>,
                         timers: set<string>, queue: seq<string>, active: Option<string>, stops: seq<Stop>,
                         recordings: seq<Recording>, picked: set<string>, settled: set<string>)

  // ---------------------------------------------------------------- merging edits

  /** The place of the first occurrence, or the length where there is none. */
  function IndexOf(ids: seq<string>, id: string): (i: nat)
    ensures i <= |ids| && (i < |ids| ==> ids[i] == id) && (i == |ids| ==> id !in ids)
    ensures forall j :: 0 <= j < i ==> ids[j] != id
  {
    if ids == [] || ids[0] == id then 0 else 1 + IndexOf(ids[1..], id)
  }

  function Paths(files: seq<FileChange>): (paths: seq<string>)
    ensures |paths| == |files|
    ensures forall i :: 0 <= i < |files| ==> paths[i] == files[i].path
  {
    seq(|files|, i requires 0 <= i < |files| => files[i].path)
  }

  function PathIndex(files: seq<FileChange>, path: string): (i: nat)
    ensures i <= |files| && (i < |files| ==> files[i].path == path)
    ensures forall j :: 0 <= j < i ==> files[j].path != path
  {
    IndexOf(Paths(files), path)
  }

  /** `merge_file_change`: a further edit of a path keeps the text from before the first one. */
  function Merge(files: seq<FileChange>, next: FileChange): (r: seq<FileChange>) {
    if PathIndex(files, next.path) == |files| then files + [next]
    else
      var first := files[PathIndex(files, next.path)].before;
      seq(|files|, i requires 0 <= i < |files| =>
        if files[i].path == next.path then next.(before := first) else files[i])
  }

  function MergeAll(files: seq<FileChange>, edits: seq<FileChange>): seq<FileChange> {
    if edits == [] then files else Merge(MergeAll(files, edits[..|edits| - 1]), edits[|edits| - 1])
  }

  ghost predicate DistinctPaths(files: seq<FileChange>) {
    forall i, j :: 0 <= i < j < |files| ==> files[i].path != files[j].path
  }

  /** `file` is the net change of its path over the edits. */
  ghost predicate NetChange(edits: seq<FileChange>, file: FileChange) {
    exists first: nat, last: nat :: NetBetween(edits, file, first, last)
  }

  ghost predicate NetBetween(edits: seq<FileChange>, file: FileChange, first: nat, last: nat) {
    && first <= last < |edits| && edits[first].path == file.path && edits[last].path == file.path
    && file == edits[last].(before := edits[first].before)
    && (forall k :: 0 <= k < first ==> edits[k].path != file.path)
    && (forall k :: last < k < |edits| ==> edits[k].path != file.path)
  }

  /** What a change gathers: every edited path once, from the text before its first edit to the text after its last. */
  lemma {:induction false} MergedIsNetChange(edits: seq<FileChange>)
    ensures DistinctPaths(MergeAll([], edits))
    ensures forall f :: f in MergeAll([], edits) ==> NetChange(edits, f)
    ensures forall e :: e in edits ==> PathIndex(MergeAll([], edits), e.path) < |MergeAll([], edits)|
  {
    if edits != [] {
      var front, next := edits[..|edits| - 1], edits[|edits| - 1];
      var prior := MergeAll([], front);
      MergedIsNetChange(front);
      assert edits == front + [next];
      MergeKeepsDistinct(prior, next);
      forall f | f in Merge(prior, next)
        ensures NetChange(edits, f)
      {
        MergeStep(prior, front, next, f);
      }
      forall e | e in edits
        ensures PathIndex(Merge(prior, next), e.path) < |Merge(prior, next)|
      {
        MergeKeepsPaths(prior, next, e.path);
      }
    }
  }

  lemma MergeKeepsDistinct(files: seq<FileChange>, next: FileChange)
    requires DistinctPaths(files)
    ensures DistinctPaths(Merge(files, next))
  {
  }

  lemma MergeKeepsPaths(files: seq<FileChange>, next: FileChange, path: string)
    requires path == next.path || PathIndex(files, path) < |files|
    ensures PathIndex(Merge(files, next), path) < |Merge(files, next)|
  {
    var r, i := Merge(files, next), PathIndex(files, path);
    assert if i < |files| then r[i].path == path else r[|files|].path == path;
  }

  lemma OtherPathKeeps(front: seq<FileChange>, next: FileChange, f: FileChange)
    requires NetChange(front, f) && f.path != next.path
    ensures NetChange(front + [next], f)
  {
    var first: nat, last: nat :| NetBetween(front, f, first, last);
    assert NetBetween(front + [next], f, first, last);
  }

  lemma SamePathExtends(front: seq<FileChange>, next: FileChange, prior: FileChange)
    requires NetChange(front, prior) && prior.path == next.path
    ensures NetChange(front + [next], next.(before := prior.before))
  {
    var first: nat, last: nat :| NetBetween(front, prior, first, last);
    assert NetBetween(front + [next], next.(before := prior.before), first, |front|);
  }

  lemma NewPathAdds(front: seq<FileChange>, next: FileChange)
    requires forall e :: e in front ==> e.path != next.path
    ensures NetChange(front + [next], next)
  {
    assert NetBetween(front + [next], next, |front|, |front|);
  }

  lemma MergeMember(prior: seq<FileChange>, next: FileChange, f: FileChange)
    requires f in Merge(prior, next)
    ensures f.path != next.path ==> f in prior
    ensures f.path == next.path && PathIndex(prior, next.path) < |prior| ==>
              f == next.(before := prior[PathIndex(prior, next.path)].before)
    ensures f.path == next.path && PathIndex(prior, next.path) == |prior| ==> f == next
  {
    var r := Merge(prior, next);
    var i :| 0 <= i < |r| && r[i] == f;
    assert i < |prior| ==> prior[i] in prior;
  }

  lemma MergeStep(prior: seq<FileChange>, front: seq<FileChange>, next: FileChange, f: FileChange)
    requires f in Merge(prior, next)
    requires forall g :: g in prior ==> NetChange(front, g)
    requires forall e :: e in front ==> PathIndex(prior, e.path) < |prior|
    ensures NetChange(front + [next], f)
  {
    var at := PathIndex(prior, next.path);
    MergeMember(prior, next, f);
    if f.path != next.path {
      OtherPathKeeps(front, next, f);
    } else if at < |prior| {
      assert prior[at] in prior;
      SamePathExtends(front, next, prior[at]);
    } else {
      NewPathAdds(front, next);
    }
  }

  // ---------------------------------------------------------------- events

  /** What the editor and the settings answer about a document: its path and language, whether its path may be
      captured and its texts are within the size limit, its workspace, whether heuristic detection is on and an
      agent installed. */
  datatype Document = Document(path: string, language: string, capture: bool, fits: bool, root: Option<string>,
                               detect: bool)

  datatype DiskKind = Create | Modify | Delete

  /** How a recording ends: it is done; it fails; or it is done, but what is called after it fails. */
  datatype RecordResult = Recorded | RecordFails | CallbackFails

  /** Where a stopped session goes: recorded at once, put in the queue, or recorded with nothing to render. */
  datatype Ending = RecordNow | AwaitReview | NothingRendered

  datatype Event =
    | Remembered(uri: string, text: string)
    | Closed(uri: string)
    | Changed(uri: string, after: string, doc: Document, id: string, now: int)
    | Saved(root: string)
    | TimerFires(root: string)
    | ReviewOpens
    | Picked(id: string)
    | RecordBegins(id: string)
    | RecordEnds(k: nat, result: RecordResult)
    | Removed(id: string)
    | DiscardAll
    | SessionStarts(id: string, root: string, snapshot: map<string, string>, now: int)
    | DiskChanged(path: string, kind: DiskKind, now: int)
    | StopBegins
    | StopReads(k: nat, current: Option<string>, language: string)
    | StopEnds(k: nat, ending: Ending)

  function Roots(heuristic: seq<Held>): (roots: seq<string>)
    ensures |roots| == |heuristic|
    ensures forall i :: 0 <= i < |heuristic| ==> roots[i] == heuristic[i].root
  {
    seq(|heuristic|, i requires 0 <= i < |heuristic| => heuristic[i].root)
  }

  function HeldIndex(heuristic: seq<Held>, root: string): (i: nat)
    ensures i <= |heuristic| && (i < |heuristic| ==> heuristic[i].root == root)
    ensures forall j :: 0 <= j < i ==> heuristic[j].root != root
  {
    IndexOf(Roots(heuristic), root)
  }

  function RemoveAt<T>(s: seq<T>, i: nat): seq<T> { if i < |s| then s[..i] + s[i + 1..] else s }

  function RemoveFirst(queue: seq<string>, id: string): seq<string> { RemoveAt(queue, IndexOf(queue, id)) }

  function HeldIds(heuristic: seq<Held>): (ids: seq<string>)
    ensures |ids| == |heuristic|
    ensures forall i :: 0 <= i < |heuristic| ==> ids[i] == heuristic[i].id
  {
    seq(|heuristic|, i requires 0 <= i < |heuristic| => heuristic[i].id)
  }

  function HeldRoots(heuristic: seq<Held>): set<string> { set h | h in heuristic :: h.root }

  function Add(paths: seq<string>, path: string): seq<string> { if path in paths then paths else paths + [path] }

  function NewChange(root: string, now: int, snapshot: map<string, string>): Change {
    Change(root, [], now, snapshot, [], {}, {})
  }

  /** An edit in the workspace of the active session: the session only notes where to look when it stops. */
  function TouchedInEditor(c: Change, path: string, before: string, now: int): Change {
    c.(baselines := if path in c.baselines then c.baselines else c.baselines[path := before],
       dirty := Add(c.dirty, path), deleted := c.deleted - {path}, updatedAt := now)
  }

  function TouchedOnDisk(c: Change, path: string, kind: DiskKind, now: int): Change {
    c.(dirty := Add(c.dirty, path), updatedAt := now,
       created := if kind == Create then c.created + {path} else c.created,
       deleted := if kind == Create then c.deleted - {path}
                  else if kind == Delete then c.deleted + {path}
                  else c.deleted)
  }

  /** The file change of a dirty path whose text now is `current`, if both its texts are known. */
  function SessionFile(c: Change, path: string, current: Option<string>, language: string): Option<FileChange> {
    var before := if path in c.baselines then Some(c.baselines[path]) else if path in c.created then Some("") else None;
    var after := if path in c.deleted then Some("") else current;
    if before.None? || after.None? then None
    else Some(FileChange(path, language, before.value, after.value, c.updatedAt))
  }

  function WithFile(c: Change, file: Option<FileChange>): Change {
    if file.None? then c else c.(files := Merge(c.files, file.value))
  }

  predicate InSession(s: State, root: string) {
    s.active.Some? && s.active.value in s.changes && s.changes[s.active.value].root == root
  }

  /** Whether an edit is captured at all. */
  predicate Captured(s: State, e: Event)
    requires e.Changed?
  {
    e.uri in s.baselines && s.baselines[e.uri] != e.after && e.doc.capture && e.doc.fits && e.doc.root.Some?
  }

  predicate Gathers(s: State, e: Event)
    requires e.Changed?
  {
    Captured(s, e) && !InSession(s, e.doc.root.value) && e.doc.detect
  }

  function EditOf(s: State, e: Event): FileChange
    requires e.Changed? && Captured(s, e)
  {
    FileChange(e.doc.path, e.doc.language, s.baselines[e.uri], e.after, e.now)
  }

  /** The heuristic change an edit goes to: the one its workspace has, otherwise a new one. */
  function TargetId(s: State, e: Event): string
    requires e.Changed? && Gathers(s, e)
  {
    var i := HeldIndex(s.heuristic, e.doc.root.value);
    if i < |s.heuristic| then s.heuristic[i].id else e.id
  }

  function Gathered(s: State, e: Event): State
    requires e.Changed? && Gathers(s, e)
  {
    var root, id := e.doc.root.value, TargetId(s, e);
    var change := if id in s.changes then s.changes[id] else NewChange(root, e.now, map[]);
    s.(changes := s.changes[id := change.(files := Merge(change.files, EditOf(s, e)), updatedAt := e.now)],
       heuristic := if HeldIndex(s.heuristic, root) < |s.heuristic| then s.heuristic
                    else s.heuristic + [Held(root, id)],
       timers := s.timers + {root})
  }

  function OnChanged(s: State, e: Event): State
    requires e.Changed?
  {
    var s' :=
      if !Captured(s, e) then s
      else if InSession(s, e.doc.root.value) then
        var id := s.active.value;
        s.(changes := s.changes[id := TouchedInEditor(s.changes[id], e.doc.path, s.baselines[e.uri], e.now)])
      else if Gathers(s, e) then Gathered(s, e)
      else s;
    s'.(baselines := s.baselines[e.uri := e.after])
  }

  function OnTimer(s: State, root: string): State {
    var i := HeldIndex(s.heuristic, root);
    if i == |s.heuristic| then s.(timers := s.timers - {root})
    else s.(timers := s.timers - {root}, heuristic := RemoveAt(s.heuristic, i), queue := s.queue + [s.heuristic[i].id])
  }

  function OnRecordEnds(s: State, k: nat, result: RecordResult): State
    requires k < |s.recordings|
  {
    var r, rest := s.recordings[k], RemoveAt(s.recordings, k);
    var kept := if result.RecordFails? then s.queue else RemoveFirst(s.queue, r.id);
    s.(recordings := rest,
       queue := if r.fromStop && !result.Recorded? then kept + [r.id] else kept,
       settled := if result.RecordFails? then s.settled else s.settled + {r.id})
  }

  /** The change that a stop reads. */
  predicate IsStop(s: State, k: nat) { k < |s.stops| && s.stops[k].id in s.changes }

  function StoppedChange(s: State, k: nat): Change
    requires IsStop(s, k)
  {
    s.changes[s.stops[k].id]
  }

  predicate CanRead(s: State, k: nat) { IsStop(s, k) && s.stops[k].read < |StoppedChange(s, k).dirty| }

  /** What a stop gets of the dirty path that is next. */
  function FileRead(s: State, k: nat, current: Option<string>, language: string): Option<FileChange>
    requires CanRead(s, k)
  {
    SessionFile(StoppedChange(s, k), StoppedChange(s, k).dirty[s.stops[k].read], current, language)
  }

  function OnStopReads(s: State, k: nat, current: Option<string>, language: string): State
    requires CanRead(s, k)
  {
    s.(changes := s.changes[s.stops[k].id := WithFile(StoppedChange(s, k), FileRead(s, k, current, language))],
       stops := s.stops[k := Stop(s.stops[k].id, s.stops[k].read + 1)])
  }

  /** A stop that reads all that is left with nothing in between. */
  function ReadRest(s: State, k: nat, texts: string -> Option<string>, languages: string -> string): State
    requires IsStop(s, k) && s.stops[k].read <= |StoppedChange(s, k).dirty|
    decreases |StoppedChange(s, k).dirty| - s.stops[k].read
  {
    if s.stops[k].read == |StoppedChange(s, k).dirty| then s
    else
      var path := StoppedChange(s, k).dirty[s.stops[k].read];
      ReadRest(OnStopReads(s, k, texts(path), languages(path)), k, texts, languages)
  }

  predicate Empty(s: State, k: nat)
    requires IsStop(s, k)
  {
    StoppedChange(s, k).files == []
  }

  function OnStopEnds(s: State, k: nat, ending: Ending): State
    requires IsStop(s, k)
  {
    var id, s' := s.stops[k].id, s.(stops := RemoveAt(s.stops, k), active := None);
    if Empty(s, k) then s'.(settled := s.settled + {id})
    else match ending
      case RecordNow => s'.(recordings := s.recordings + [Recording(id, true)])
      case AwaitReview => s'.(queue := s.queue + [id])
      case NothingRendered => s'.(queue := RemoveFirst(s.queue, id), settled := s.settled + {id})
  }

  /** A stop stops watching the disk for its session. */
  predicate Watches(s: State) {
    s.active.Some? && s.active.value in s.changes && forall k :: 0 <= k < |s.stops| ==> s.stops[k].id != s.active.value
  }

  /** Whether an event can come in a state: ids are new, timers are set, and what goes on had begun. */
  predicate Enabled(s: State, e: Event) {
    match e
    case Changed(uri, after, doc, id, now) => id !in s.changes
    case TimerFires(root) => root in s.timers
    case Picked(id) => id in s.queue
    case RecordBegins(id) => id in s.picked
    case RecordEnds(k, result) => k < |s.recordings|
    case Removed(id) => id in s.picked
    case SessionStarts(id, root, snapshot, now) => id !in s.changes
    case DiskChanged(path, kind, now) => Watches(s)
    case StopBegins => s.active.Some?
    case StopReads(k, current, language) => CanRead(s, k)
    case StopEnds(k, ending) => IsStop(s, k) && s.stops[k].read >= |StoppedChange(s, k).dirty|
    case _ => true
  }

  function Step(s: State, e: Event): State
    requires Enabled(s, e)
  {
    match e
    case Remembered(uri, text) => s.(baselines := s.baselines[uri := text])
    case Closed(uri) => s.(baselines := s.baselines - {uri})
    case Changed(_, _, _, _, _) => OnChanged(s, e)
    case Saved(root) => s.(timers := s.timers + {root})
    case TimerFires(root) => OnTimer(s, root)
    case ReviewOpens =>
      s.(queue := s.queue + HeldIds(s.heuristic), heuristic := [], timers := s.timers - HeldRoots(s.heuristic))
    case Picked(id) => s.(picked := s.picked + {id})
    case RecordBegins(id) => s.(recordings := s.recordings + [Recording(id, false)])
    case RecordEnds(k, result) => OnRecordEnds(s, k, result)
    case Removed(id) => s.(queue := RemoveFirst(s.queue, id), settled := s.settled + {id})
    case DiscardAll =>
      s.(queue := [], heuristic := [], timers := {},
         settled := s.settled + (set id | id in s.queue) + (set id | id in HeldIds(s.heuristic)))
    case SessionStarts(id, root, snapshot, now) =>
      s.(changes := s.changes[id := NewChange(root, now, snapshot)], active := Some(id))
    case DiskChanged(path, kind, now) =>
      s.(changes := s.changes[s.active.value := TouchedOnDisk(s.changes[s.active.value], path, kind, now)])
    case StopBegins => s.(stops := s.stops + [Stop(s.active.value, 0)])
    case StopReads(k, current, language) => OnStopReads(s, k, current, language)
    case StopEnds(k, ending) => OnStopEnds(s, k, ending)
  }

  // ---------------------------------------------------------------- what every event keeps

  /** Every workspace with a heuristic change has a timer, and at most one such change. */
  ghost predicate TimersCover(s: State) {
    && (forall i :: 0 <= i < |s.heuristic| ==> s.heuristic[i].root in s.timers)
    && (forall i, j :: 0 <= i < j < |s.heuristic| ==> s.heuristic[i].root != s.heuristic[j].root)
  }

  lemma GatheringKeepsTimers(s: State, e: Event)
    requires e.Changed? && Gathers(s, e) && TimersCover(s)
    ensures TimersCover(Gathered(s, e))
  {
  }

  lemma TimerKeepsTimers(s: State, root: string)
    requires TimersCover(s)
    ensures TimersCover(OnTimer(s, root))
  {
  }

  lemma StepKeepsTimers(s: State, e: Event)
    requires Enabled(s, e) && TimersCover(s)
    ensures TimersCover(Step(s, e))
  {
    if e.Changed? && Gathers(s, e) {
      GatheringKeepsTimers(s, e);
    } else if e.TimerFires? {
      TimerKeepsTimers(s, e.root);
    } else if !e.ReviewOpens? && !e.DiscardAll? {
      assert Step(s, e).heuristic == s.heuristic && s.timers <= Step(s, e).timers;
    }
  }

  /** A workspace has a timer after an event exactly if the event is a save or a gathered edit in it, or it had one and
      the event neither fires it, nor discards everything, nor is a review that takes its heuristic change. */
  lemma TimerIsSetExactlyWhen(s: State, e: Event, root: string)
    requires Enabled(s, e)
    ensures root in Step(s, e).timers
       <==> || e == Saved(root) || (e.Changed? && Gathers(s, e) && e.doc.root == Some(root))
            || (root in s.timers && e != TimerFires(root) && e != DiscardAll
                && !(e == ReviewOpens && exists id :: Held(root, id) in s.heuristic))
  {
    if e == ReviewOpens {
      assert root in HeldRoots(s.heuristic) <==> exists id :: Held(root, id) in s.heuristic by {
        if h :| h in s.heuristic && h.root == root {
          assert Held(root, h.id) in s.heuristic;
        }
      }
    }
  }

  ghost function Times(ids: seq<string>, x: string): nat { multiset(ids)[x] }

  ghost function One(b: bool): nat { if b then 1 else 0 }

  /** How often a stop is recording `x`. */
  ghost function Stopping(recordings: seq<Recording>, x: string): nat {
    if recordings == [] then 0
    else Stopping(recordings[..|recordings| - 1], x) + One(recordings[|recordings| - 1] == Recording(x, true))
  }

  /** In how many places the change `x` is waiting to be settled. */
  ghost function Places(s: State, x: string): nat {
    Times(HeldIds(s.heuristic), x) + Times(s.queue, x) + Stopping(s.recordings, x) + One(s.active == Some(x))
  }

  ghost predicate Counted(s: State, x: string) {
    Places(s, x) + One(x in s.settled) == One(x in s.changes)
  }

  /** Every change ever made is settled or in exactly one place, and nothing else is anywhere. */
  ghost predicate Conserved(s: State) { forall x :: Counted(s, x) }

  /** What a review has selected came from the queue, so it is in no other place. */
  ghost predicate PickApart(s: State, id: string) {
    id in s.picked ==>
      && id in s.changes && id !in HeldIds(s.heuristic)
      && Recording(id, true) !in s.recordings && s.active != Some(id)
  }

  ghost predicate PicksSettle(s: State) { forall id :: PickApart(s, id) }

  ghost predicate ReviewsPicked(s: State) {
    forall r :: r in s.recordings && !r.fromStop ==> r.id in s.picked
  }

  ghost predicate Inv(s: State) { TimersCover(s) && Conserved(s) && PicksSettle(s) && ReviewsPicked(s) }

  /** A session starts when none is active, a stop ends while its own session is, and nothing fails after the recording
      of a stopped session. */
  predicate Orderly(s: State, e: Event)
    requires Enabled(s, e)
  {
    match e
    case SessionStarts(_, _, _, _) => s.active.None?
    case StopEnds(k, _) => s.active == Some(s.stops[k].id)
    case RecordEnds(k, result) => s.recordings[k].fromStop ==> !result.CallbackFails?
    case _ => true
  }

  // ---------------------------------------------------------------- counting the places

  lemma RemoveAtCount(ids: seq<string>, i: nat, x: string)
    requires i < |ids|
    ensures Times(RemoveAt(ids, i), x) + One(ids[i] == x) == Times(ids, x)
  {
    assert ids == ids[..i] + [ids[i]] + ids[i + 1..];
  }

  lemma AppendCount(ids: seq<string>, id: string, x: string)
    ensures Times(ids + [id], x) == Times(ids, x) + One(id == x)
  {
  }

  lemma HeldIdsRemoveAt(heuristic: seq<Held>, i: nat)
    requires i < |heuristic|
    ensures HeldIds(RemoveAt(heuristic, i)) == RemoveAt(HeldIds(heuristic), i)
  {
  }

  lemma {:induction false} StoppingRemoveAt(recordings: seq<Recording>, k: nat, x: string)
    requires k < |recordings|
    ensures Stopping(RemoveAt(recordings, k), x) + One(recordings[k] == Recording(x, true)) == Stopping(recordings, x)
    decreases |recordings|
  {
    var last := |recordings| - 1;
    var rest := RemoveAt(recordings, k);
    if k < last {
      StoppingRemoveAt(recordings[..last], k, x);
      assert rest[..|rest| - 1] == RemoveAt(recordings[..last], k);
    } else {
      assert rest == recordings[..last];
    }
  }

  lemma StoppingAppend(recordings: seq<Recording>, r: Recording, x: string)
    ensures Stopping(recordings + [r], x) == Stopping(recordings, x) + One(r == Recording(x, true))
  {
    assert (recordings + [r])[..|recordings|] == recordings;
  }

  lemma {:induction false} StoppingIsIn(recordings: seq<Recording>, x: string)
    ensures Stopping(recordings, x) > 0 <==> Recording(x, true) in recordings
  {
    if recordings != [] {
      StoppingIsIn(recordings[..|recordings| - 1], x);
      assert recordings == recordings[..|recordings| - 1] + [recordings[|recordings| - 1]];
    }
  }

  lemma TimerConserves(s: State, root: string, x: string)
    requires Counted(s, x)
    ensures Counted(OnTimer(s, root), x)
  {
    var i := HeldIndex(s.heuristic, root);
    if i < |s.heuristic| {
      HeldIdsRemoveAt(s.heuristic, i);
      RemoveAtCount(HeldIds(s.heuristic), i, x);
      AppendCount(s.queue, s.heuristic[i].id, x);
    }
  }

  lemma GatheringConserves(s: State, e: Event, x: string)
    requires e.Changed? && Enabled(s, e) && Gathers(s, e) && Conserved(s)
    ensures Counted(Gathered(s, e), x)
  {
    var s', id := Gathered(s, e), TargetId(s, e);
    assert Counted(s, id) && Counted(s, x);
    var i := HeldIndex(s.heuristic, e.doc.root.value);
    if i < |s.heuristic| {
      assert HeldIds(s.heuristic)[i] == id;
      assert Times(HeldIds(s.heuristic), id) > 0;
    } else {
      assert HeldIds(s'.heuristic) == HeldIds(s.heuristic) + [id];
      AppendCount(HeldIds(s.heuristic), id, x);
    }
  }

  lemma ChangedConserves(s: State, e: Event, x: string)
    requires e.Changed? && Enabled(s, e) && Conserved(s)
    ensures Counted(OnChanged(s, e), x)
  {
    assert Counted(s, x);
    if Gathers(s, e) {
      GatheringConserves(s, e, x);
    }
  }

  lemma OpeningConserves(s: State, x: string)
    requires Counted(s, x)
    ensures Counted(Step(s, ReviewOpens), x)
  {
    assert HeldIds([]) == [];
  }

  lemma RemoveFirstCount(queue: seq<string>, id: string, x: string)
    ensures Times(RemoveFirst(queue, id), x) == if x == id && id in queue then Times(queue, x) - 1 else Times(queue, x)
  {
    if IndexOf(queue, id) < |queue| {
      RemoveAtCount(queue, IndexOf(queue, id), x);
    }
  }

  lemma RemovingConserves(s: State, id: string, x: string)
    requires Counted(s, x) && id in s.changes
    requires id !in HeldIds(s.heuristic) && Stopping(s.recordings, id) == 0 && s.active != Some(id)
    ensures Counted(s.(queue := RemoveFirst(s.queue, id), settled := s.settled + {id}), x)
  {
    RemoveFirstCount(s.queue, id, x);
  }

  lemma ReviewEndConserves(s: State, k: nat, result: RecordResult, x: string)
    requires Inv(s) && k < |s.recordings| && !s.recordings[k].fromStop
    ensures Counted(OnRecordEnds(s, k, result), x)
  {
    var r, s' := s.recordings[k], s.(recordings := RemoveAt(s.recordings, k));
    assert Counted(s, x) && r in s.recordings && PickApart(s, r.id);
    StoppingRemoveAt(s.recordings, k, x);
    assert Counted(s', x);
    if !result.RecordFails? {
      StoppingIsIn(s.recordings, r.id);
      StoppingRemoveAt(s.recordings, k, r.id);
      RemovingConserves(s', r.id, x);
    }
  }

  lemma StopRecordEndConserves(s: State, k: nat, result: RecordResult, x: string)
    requires Conserved(s) && k < |s.recordings| && s.recordings[k].fromStop && !result.CallbackFails?
    ensures Counted(OnRecordEnds(s, k, result), x)
  {
    var r := s.recordings[k];
    assert Counted(s, x) && Counted(s, r.id);
    StoppingRemoveAt(s.recordings, k, x);
    StoppingRemoveAt(s.recordings, k, r.id);
    RemoveFirstCount(s.queue, r.id, x);
    AppendCount(s.queue, r.id, x);
  }

  lemma RecordEndConserves(s: State, k: nat, result: RecordResult, x: string)
    requires Inv(s) && k < |s.recordings| && (s.recordings[k].fromStop ==> !result.CallbackFails?)
    ensures Counted(OnRecordEnds(s, k, result), x)
  {
    if s.recordings[k].fromStop {
      StopRecordEndConserves(s, k, result, x);
    } else {
      ReviewEndConserves(s, k, result, x);
    }
  }

  /** A stop that takes an error from behind the recording for a failure of it queues a change that is settled. */
  lemma CallbackFailureBreaks(s: State, k: nat)
    requires Conserved(s) && k < |s.recordings| && s.recordings[k].fromStop
    ensures !Conserved(OnRecordEnds(s, k, CallbackFails))
  {
    var id := s.recordings[k].id;
    assert Counted(s, id);
    StoppingRemoveAt(s.recordings, k, id);
    AppendCount(RemoveFirst(s.queue, id), id, id);
    assert !Counted(OnRecordEnds(s, k, CallbackFails), id);
  }

  lemma DiscardConserves(s: State, x: string)
    requires Counted(s, x)
    ensures Counted(Step(s, DiscardAll), x)
  {
    assert HeldIds([]) == [];
    assert x in s.queue <==> Times(s.queue, x) > 0;
    assert x in HeldIds(s.heuristic) <==> Times(HeldIds(s.heuristic), x) > 0;
  }

  /** The session of a stop that ends in order is in no other place. */
  lemma StopLeaves(s: State, k: nat, x: string)
    requires Conserved(s) && IsStop(s, k) && s.active == Some(s.stops[k].id)
    ensures Places(s.(active := None), x) + One(x == s.stops[k].id) == Places(s, x)
    ensures Places(s.(active := None), s.stops[k].id) == 0 && s.stops[k].id !in s.settled
    ensures s.stops[k].id !in s.queue
  {
    assert Counted(s, s.stops[k].id);
  }

  lemma StopEndConserves(s: State, k: nat, ending: Ending, x: string)
    requires Conserved(s) && IsStop(s, k) && s.active == Some(s.stops[k].id)
    ensures Counted(OnStopEnds(s, k, ending), x)
  {
    var id := s.stops[k].id;
    assert Counted(s, x);
    StopLeaves(s, k, x);
    if Empty(s, k) || ending.NothingRendered? {
      assert RemoveFirst(s.queue, id) == s.queue;
    } else if ending.AwaitReview? {
      AppendCount(s.queue, id, x);
    } else {
      StoppingAppend(s.recordings, Recording(id, true), x);
    }
  }

  lemma StepConserves(s: State, e: Event, x: string)
    requires Inv(s) && Enabled(s, e) && Orderly(s, e)
    ensures Counted(Step(s, e), x)
  {
    assert Counted(s, x);
    match e
    case Changed(_, _, _, _, _) => ChangedConserves(s, e, x);
    case TimerFires(root) => TimerConserves(s, root, x);
    case ReviewOpens => OpeningConserves(s, x);
    case RecordBegins(id) => StoppingAppend(s.recordings, Recording(id, false), x);
    case RecordEnds(k, result) => RecordEndConserves(s, k, result, x);
    case Removed(id) => assert PickApart(s, id); StoppingIsIn(s.recordings, id); RemovingConserves(s, id, x);
    case DiscardAll => DiscardConserves(s, x);
    case StopEnds(k, ending) => StopEndConserves(s, k, ending, x);
    case _ =>
  }

  lemma PickingKeepsPicks(s: State, picked: string, id: string)
    requires Conserved(s) && PickApart(s, id) && picked in s.queue
    ensures PickApart(Step(s, Picked(picked)), id)
  {
    assert Counted(s, picked);
    StoppingIsIn(s.recordings, picked);
    assert Times(s.queue, picked) > 0;
    assert picked in HeldIds(s.heuristic) <==> Times(HeldIds(s.heuristic), picked) > 0;
  }

  lemma StopEndKeepsPicks(s: State, k: nat, ending: Ending, id: string)
    requires PickApart(s, id) && IsStop(s, k) && s.active == Some(s.stops[k].id)
    ensures PickApart(OnStopEnds(s, k, ending), id)
  {
  }

  lemma TimerKeepsPicks(s: State, root: string, id: string)
    requires PickApart(s, id)
    ensures PickApart(OnTimer(s, root), id)
  {
    var i := HeldIndex(s.heuristic, root);
    if i < |s.heuristic| {
      HeldIdsRemoveAt(s.heuristic, i);
    }
  }

  lemma ChangedKeepsPicks(s: State, e: Event, id: string)
    requires e.Changed? && Enabled(s, e) && PickApart(s, id)
    ensures PickApart(OnChanged(s, e), id)
  {
    if Gathers(s, e) && HeldIndex(s.heuristic, e.doc.root.value) == |s.heuristic| {
      assert HeldIds(Gathered(s, e).heuristic) == HeldIds(s.heuristic) + [e.id];
    }
  }

  lemma StepKeepsPicks(s: State, e: Event, id: string)
    requires Inv(s) && Enabled(s, e) && Orderly(s, e)
    ensures PickApart(Step(s, e), id)
  {
    assert PickApart(s, id);
    match e
    case Changed(_, _, _, _, _) => ChangedKeepsPicks(s, e, id);
    case TimerFires(root) => TimerKeepsPicks(s, root, id);
    case Picked(picked) => PickingKeepsPicks(s, picked, id);
    case StopEnds(k, ending) => StopEndKeepsPicks(s, k, ending, id);
    case _ =>
  }

  lemma StepKeepsReviews(s: State, e: Event)
    requires ReviewsPicked(s) && Enabled(s, e)
    ensures ReviewsPicked(Step(s, e))
  {
  }

  lemma StepKeepsInv(s: State, e: Event)
    requires Inv(s) && Enabled(s, e) && Orderly(s, e)
    ensures Inv(Step(s, e))
  {
    StepKeepsTimers(s, e);
    StepKeepsReviews(s, e);
    forall x
      ensures Counted(Step(s, e), x)
    {
      StepConserves(s, e, x);
    }
    forall x
      ensures PickApart(Step(s, e), x)
    {
      StepKeepsPicks(s, e, x);
    }
  }

  lemma StopOfAnotherBreaks(s: State, k: nat, ending: Ending)
    requires Conserved(s) && IsStop(s, k) && s.active.Some? && s.active.value != s.stops[k].id
    ensures !Conserved(OnStopEnds(s, k, ending))
  {
    var x, id := s.active.value, s.stops[k].id;
    assert Counted(s, x);
    RemoveFirstCount(s.queue, id, x);
    AppendCount(s.queue, id, x);
    StoppingAppend(s.recordings, Recording(id, true), x);
    assert !Counted(OnStopEnds(s, k, ending), x);
  }

  /** A stop that ends after its session has been cleared, and settles what is settled already, or takes it off the
      queue. */
  predicate Harmless(s: State, e: Event)
    requires Enabled(s, e)
  {
    e.StopEnds? && s.active.None? && HarmlessEnd(s, e.k, e.ending)
  }

  predicate HarmlessEnd(s: State, k: nat, ending: Ending)
    requires IsStop(s, k)
  {
    if Empty(s, k) then s.stops[k].id in s.settled
    else ending.NothingRendered? && (s.stops[k].id in s.settled || s.stops[k].id in s.queue)
  }

  lemma SecondStopBreaks(s: State, k: nat, ending: Ending)
    requires Conserved(s) && IsStop(s, k) && s.active.None? && !HarmlessEnd(s, k, ending)
    ensures !Conserved(OnStopEnds(s, k, ending))
  {
    var id := s.stops[k].id;
    assert Counted(s, id);
    RemoveFirstCount(s.queue, id, id);
    AppendCount(s.queue, id, id);
    StoppingAppend(s.recordings, Recording(id, true), id);
    assert !Counted(OnStopEnds(s, k, ending), id);
  }

  lemma HarmlessEndConserves(s: State, k: nat, ending: Ending, x: string)
    requires Conserved(s) && IsStop(s, k) && s.active.None? && HarmlessEnd(s, k, ending)
    ensures Counted(OnStopEnds(s, k, ending), x)
  {
    assert Counted(s, x) && Counted(s, s.stops[k].id);
    RemoveFirstCount(s.queue, s.stops[k].id, x);
  }

  lemma StartOverBreaks(s: State, id: string, root: string, snapshot: map<string, string>, now: int)
    requires Conserved(s) && id !in s.changes && s.active.Some?
    ensures !Conserved(Step(s, SessionStarts(id, root, snapshot, now)))
  {
    assert Counted(s, s.active.value);
    assert !Counted(Step(s, SessionStarts(id, root, snapshot, now)), s.active.value);
  }

  /** An event loses no change and puts none in two places exactly when it is orderly or a harmless end of a stop. */
  lemma CountKeptExactlyWhen(s: State, e: Event)
    requires Inv(s) && Enabled(s, e)
    ensures Conserved(Step(s, e)) <==> Orderly(s, e) || Harmless(s, e)
  {
    if Orderly(s, e) {
      StepKeepsInv(s, e);
    } else if e.SessionStarts? {
      StartOverBreaks(s, e.id, e.root, e.snapshot, e.now);
    } else if e.RecordEnds? {
      CallbackFailureBreaks(s, e.k);
    } else if s.active.Some? {
      StopOfAnotherBreaks(s, e.k, e.ending);
    } else if HarmlessEnd(s, e.k, e.ending) {
      forall x
        ensures Counted(Step(s, e), x)
      {
        HarmlessEndConserves(s, e.k, e.ending, x);
      }
    } else {
      SecondStopBreaks(s, e.k, e.ending);
    }
  }

  // ---------------------------------------------------------------- whole runs

  function Init(baselines: map<string, string>): State {
    State(baselines, map[], [], {}, [], None, [], [], {}, {})
  }

  /** A run of enabled events. */
  ghost predicate IsRun(states: seq<State>, events: seq<Event>) {
    && |states| == |events| + 1
    && states[0] == Init(states[0].baselines)
    && forall i :: 0 <= i < |events| ==> AdvancesAt(states, events, i)
  }

  ghost predicate AdvancesAt(states: seq<State>, events: seq<Event>, i: nat)
    requires |states| == |events| + 1 && i < |events|
  {
    Advances(states[i], events[i], states[i + 1])
  }

  ghost predicate Advances(s: State, e: Event, s': State) { Enabled(s, e) && s' == Step(s, e) }

  ghost predicate OrderlyRun(states: seq<State>, events: seq<Event>)
    requires IsRun(states, events)
  {
    forall i :: 0 <= i < |events| ==> OrderlyAt(states, events, i)
  }

  ghost predicate OrderlyAt(states: seq<State>, events: seq<Event>, i: nat)
    requires IsRun(states, events) && i < |events|
  {
    AdvancesAt(states, events, i) && Orderly(states[i], events[i])
  }

  lemma StartKeepsInv(states: seq<State>, events: seq<Event>)
    requires IsRun(states, events)
    ensures Inv(states[0])
  {
    assert HeldIds([]) == [];
    forall x
      ensures Counted(states[0], x)
    {
    }
  }

  /** Over every run in which starts and stops are orderly, whatever edits, timers, reviews, recordings and discards
      come in between: timers cover the heuristic changes, and every change is settled or in exactly one place. */
  lemma {:induction false} RunsConserve(states: seq<State>, events: seq<Event>, n: nat)
    requires IsRun(states, events) && OrderlyRun(states, events) && n <= |events|
    ensures Inv(states[n])
  {
    if n == 0 {
      StartKeepsInv(states, events);
    } else {
      RunsConserve(states, events, n - 1);
      assert OrderlyAt(states, events, n - 1);
      StepKeepsInv(states[n - 1], events[n - 1]);
    }
  }

  lemma HarmlessEndKeepsPicks(s: State, k: nat, ending: Ending, id: string)
    requires PickApart(s, id) && IsStop(s, k) && s.active.None? && HarmlessEnd(s, k, ending)
    ensures PickApart(OnStopEnds(s, k, ending), id)
  {
  }

  lemma HarmlessKeepsInv(s: State, e: Event)
    requires Inv(s) && Enabled(s, e) && Harmless(s, e)
    ensures Inv(Step(s, e))
  {
    StepKeepsTimers(s, e);
    StepKeepsReviews(s, e);
    CountKeptExactlyWhen(s, e);
    forall id
      ensures PickApart(Step(s, e), id)
    {
      assert PickApart(s, id);
      HarmlessEndKeepsPicks(s, e.k, e.ending, id);
    }
  }

  /** The event is orderly or a harmless end of a stop. */
  ghost predicate KeptAt(states: seq<State>, events: seq<Event>, i: nat)
    requires IsRun(states, events) && i < |events|
  {
    AdvancesAt(states, events, i)
    && (Orderly(states[i], events[i]) || Harmless(states[i], events[i]))
  }

  lemma {:induction false} KeptRunsKeepInv(states: seq<State>, events: seq<Event>, n: nat)
    requires IsRun(states, events) && n <= |events| && forall i :: 0 <= i < n ==> KeptAt(states, events, i)
    ensures Inv(states[n])
  {
    if n == 0 {
      StartKeepsInv(states, events);
    } else {
      KeptRunsKeepInv(states, events, n - 1);
      assert KeptAt(states, events, n - 1);
      KeptStep(states[n - 1], events[n - 1]);
    }
  }

  lemma KeptStep(s: State, e: Event)
    requires Inv(s) && Enabled(s, e) && (Orderly(s, e) || Harmless(s, e))
    ensures Inv(Step(s, e))
  {
    if Orderly(s, e) {
      StepKeepsInv(s, e);
    } else {
      HarmlessKeepsInv(s, e);
    }
  }

  lemma {:induction false} FirstUnkept(states: seq<State>, events: seq<Event>, n: nat) returns (i: nat)
    requires IsRun(states, events) && n <= |events| && exists j :: 0 <= j < n && !KeptAt(states, events, j)
    ensures i < n && !KeptAt(states, events, i) && forall j :: 0 <= j < i ==> KeptAt(states, events, j)
  {
    if j: nat :| j < n - 1 && !KeptAt(states, events, j) {
      i := FirstUnkept(states, events, n - 1);
    } else {
      i := n - 1;
    }
  }

  /** Over every run: no change is ever lost or in two places exactly when every event is orderly or a harmless end of a
      stop. */
  lemma RunsConserveExactlyWhen(states: seq<State>, events: seq<Event>, n: nat)
    requires IsRun(states, events) && n <= |events|
    ensures (forall i :: 0 <= i <= n ==> Conserved(states[i])) <==> forall i :: 0 <= i < n ==> KeptAt(states, events, i)
  {
    if forall i :: 0 <= i < n ==> KeptAt(states, events, i) {
      forall i | 0 <= i <= n
        ensures Conserved(states[i])
      {
        KeptRunsKeepInv(states, events, i);
      }
    } else {
      var i := FirstUnkept(states, events, n);
      KeptRunsKeepInv(states, events, i);
      assert AdvancesAt(states, events, i);
      CountKeptExactlyWhen(states[i], events[i]);
      assert !Conserved(states[i + 1]);
    }
  }

  /** No stop begins while another one is under way, no session starts while one is active or being stopped, and nothing
      fails after a recording. */
  predicate Serial(s: State, e: Event) {
    && (e.StopBegins? ==> s.stops == [])
    && (e.SessionStarts? ==> s.active.None? && s.stops == [])
    && (e.RecordEnds? ==> !e.result.CallbackFails?)
  }

  ghost predicate SerialRun(states: seq<State>, events: seq<Event>) {
    IsRun(states, events) && forall i :: 0 <= i < |events| ==> Serial(states[i], events[i])
  }

  /** Under the serial discipline, the only stop under way is that of the active session. */
  ghost predicate OneStop(s: State) {
    s.stops == [] || (s.active.Some? && |s.stops| == 1 && s.stops[0].id == s.active.value)
  }

  lemma SerialIsOrderly(s: State, e: Event)
    requires OneStop(s) && Enabled(s, e) && Serial(s, e)
    ensures Orderly(s, e) && OneStop(Step(s, e))
  {
  }

  lemma {:induction false} SerialRunsAreOrderly(states: seq<State>, events: seq<Event>, n: nat)
    requires SerialRun(states, events) && n <= |events|
    ensures OneStop(states[n])
    ensures forall i :: 0 <= i < n ==> OrderlyAt(states, events, i)
  {
    if n > 0 {
      SerialRunsAreOrderly(states, events, n - 1);
      assert AdvancesAt(states, events, n - 1);
      SerialIsOrderly(states[n - 1], events[n - 1]);
    }
  }

  /** A stop of the active session settles it if it holds no file or renders none, and otherwise begins to record it or
      puts it in the queue. */
  lemma StopDisposes(s: State, k: nat, ending: Ending)
    requires Conserved(s) && Enabled(s, StopEnds(k, ending)) && s.active == Some(s.stops[k].id)
    ensures var s', id := Step(s, StopEnds(k, ending)), s.stops[k].id;
            var done := StoppedChange(s, k).files == [] || ending.NothingRendered?;
            && s'.active.None? && (id in s'.settled <==> done)
            && (Recording(id, true) in s'.recordings <==> !done && ending.RecordNow?)
            && (id in s'.queue <==> !done && ending.AwaitReview?)
  {
    StopLeaves(s, k, s.stops[k].id);
    StoppingIsIn(s.recordings, s.stops[k].id);
  }

  /** The states of a review that picks a change and records it. */
  function Reviewed(s: State, id: string, result: RecordResult): State
    requires id in s.queue
  {
    var picked := Step(s, Picked(id));
    Step(Step(picked, RecordBegins(id)), RecordEnds(|s.recordings|, result))
  }

  lemma ReviewedIs(s: State, id: string, result: RecordResult)
    requires id in s.queue
    ensures Reviewed(s, id, result)
         == s.(picked := s.picked + {id}, queue := if result.RecordFails? then s.queue else RemoveFirst(s.queue, id),
               settled := if result.RecordFails? then s.settled else s.settled + {id})
  {
    var recordings := s.recordings + [Recording(id, false)];
    assert recordings[..|s.recordings|] + recordings[|s.recordings| + 1..] == s.recordings;
  }

  /** A change in the queue that a review picks and records is settled and leaves the queue, whatever fails behind the
      recording; if the recording itself fails it stays in the queue and is not settled. */
  lemma ReviewRecords(s: State, id: string, result: RecordResult)
    requires Inv(s) && id in s.queue
    ensures var s' := Reviewed(s, id, result);
            && (!result.RecordFails? ==> id in s'.settled && id !in s'.queue)
            && (result.RecordFails? ==> id !in s'.settled && s'.queue == s.queue)
            && s'.recordings == s.recordings && s'.changes == s.changes
  {
    ReviewedIs(s, id, result);
    assert Counted(s, id) && Times(s.queue, id) == 1;
    RemoveFirstCount(s.queue, id, id);
  }

  /** A record that fails in a stop leaves the session in the queue, once, and nowhere else. */
  lemma FailedRecordIsQueued(s: State, k: nat)
    requires Inv(s) && k < |s.recordings| && s.recordings[k].fromStop
    ensures var s', id := Step(s, RecordEnds(k, RecordFails)), s.recordings[k].id;
            id in s'.queue && Places(s', id) == 1 && id !in s'.settled
  {
    var s', id := Step(s, RecordEnds(k, RecordFails)), s.recordings[k].id;
    StopRecordEndConserves(s, k, RecordFails, id);
    assert s'.queue == s.queue + [id];
    assert Counted(s', id) && Times(s'.queue, id) > 0;
  }

  function Opened(changes: map<string, Change>, active: Option<string>, stops: seq<Stop>, settled: set<string>): State {
    Init(map[]).(changes := changes, active := active, stops := stops, settled := settled)
  }

  function LossyEvent(i: nat): Event {
    if i == 0 then SessionStarts("a", "w", map[], 0)
    else if i <= 2 then StopBegins
    else if i == 4 then SessionStarts("b", "w", map[], 0)
    else StopEnds(0, RecordNow)
  }

  function LossyState(i: nat): State {
    var c, stop := NewChange("w", 0, map[]), Stop("a", 0);
    var a, ab := map["a" := c], map["a" := c, "b" := c];
    if i == 0 then Init(map[])
    else if i == 1 then Opened(a, Some("a"), [], {})
    else if i == 2 then Opened(a, Some("a"), [stop], {})
    else if i == 3 then Opened(a, Some("a"), [stop, stop], {})
    else if i == 4 then Opened(a, None, [stop], {"a"})
    else if i == 5 then Opened(ab, Some("b"), [stop], {"a"})
    else Opened(ab, None, [], {"a"})
  }

  lemma LossyRunAdvances(i: nat)
    requires i < 6
    ensures Advances(LossyState(i), LossyEvent(i), LossyState(i + 1))
  {
  }

  /** Two stops of one session that overlap lose a session started in between: it is active no more, and in no place. */
  lemma OverlappingStopsLoseASession()
    ensures exists states, events :: IsRun(states, events) && LosesSession(states[|events|], "b")
  {
    var states, events :=
        seq(7, i requires 0 <= i < 7 => LossyState(i)), seq(6, i requires 0 <= i < 6 => LossyEvent(i));
    forall i | 0 <= i < 6
      ensures AdvancesAt(states, events, i)
    {
      LossyRunAdvances(i);
    }
    assert HeldIds([]) == [];
    assert IsRun(states, events) && LosesSession(states[|events|], "b");
  }

  ghost predicate LosesSession(s: State, id: string) { id in s.changes && Places(s, id) == 0 && id !in s.settled }

  // ---------------------------------------------------------------- what changes hold

  /** What an event gathers or reads for a change. */
  function Contribution(s: State, e: Event, id: string): seq<FileChange> {
    if e.Changed? && Gathers(s, e) && TargetId(s, e) == id then [EditOf(s, e)]
    else if e.StopReads? && CanRead(s, e.k) && s.stops[e.k].id == id then
      var file := FileRead(s, e.k, e.current, e.language);
      if file.Some? then [file.value] else []
    else []
  }

  /** What a run gathers and reads for a change. */
  ghost function Log(states: seq<State>, events: seq<Event>, n: nat, id: string): seq<FileChange>
    requires |states| == |events| + 1 && n <= |events|
  {
    if n == 0 then [] else Log(states, events, n - 1, id) + Contribution(states[n - 1], events[n - 1], id)
  }

  function FilesOf(s: State, id: string): seq<FileChange> { if id in s.changes then s.changes[id].files else [] }

  lemma ReadingFiles(s: State, k: nat, current: Option<string>, language: string, id: string)
    requires CanRead(s, k)
    ensures s.stops[k].id != id ==> FilesOf(OnStopReads(s, k, current, language), id) == FilesOf(s, id)
    ensures s.stops[k].id == id ==>
              FilesOf(OnStopReads(s, k, current, language), id)
              == WithFile(s.changes[id], FileRead(s, k, current, language)).files
  {
  }

  lemma ChangedFiles(s: State, e: Event, id: string)
    requires e.Changed? && Enabled(s, e)
    ensures Gathers(s, e) && TargetId(s, e) == id ==>
              FilesOf(OnChanged(s, e), id) == Merge(FilesOf(s, id), EditOf(s, e))
    ensures !(Gathers(s, e) && TargetId(s, e) == id) ==> FilesOf(OnChanged(s, e), id) == FilesOf(s, id)
  {
  }

  /** `next` is one edit at most. */
  function MergeNext(files: seq<FileChange>, next: seq<FileChange>): seq<FileChange> {
    if next == [] then files else Merge(files, next[0])
  }

  lemma StepFiles(s: State, e: Event, id: string)
    requires Enabled(s, e)
    ensures |Contribution(s, e, id)| <= 1
    ensures FilesOf(Step(s, e), id) == MergeNext(FilesOf(s, id), Contribution(s, e, id))
  {
    match e
    case Changed(_, _, _, _, _) => ChangedFiles(s, e, id);
    case StopReads(k, current, language) => ReadingFiles(s, k, current, language, id);
    case _ =>
  }

  lemma MergeAllNext(log: seq<FileChange>, next: seq<FileChange>)
    requires |next| <= 1
    ensures MergeAll([], log + next) == MergeNext(MergeAll([], log), next)
  {
    if next == [] {
      assert log + next == log;
    } else {
      assert (log + next)[..|log|] == log && (log + next)[|log|] == next[0];
    }
  }

  lemma StepMerges(s: State, e: Event, id: string, log: seq<FileChange>)
    requires Enabled(s, e) && FilesOf(s, id) == MergeAll([], log)
    ensures FilesOf(Step(s, e), id) == MergeAll([], log + Contribution(s, e, id))
  {
    StepFiles(s, e, id);
    MergeAllNext(log, Contribution(s, e, id));
  }

  /** A change holds exactly the merge of the edits gathered for it and of the paths read for it, wherever it is. */
  ghost predicate HoldsLog(states: seq<State>, events: seq<Event>, n: nat, id: string)
    requires IsRun(states, events) && n <= |events|
  {
    FilesOf(states[n], id) == MergeAll([], Log(states, events, n, id))
  }

  lemma HoldsLogFirst(states: seq<State>, events: seq<Event>, id: string)
    requires IsRun(states, events)
    ensures HoldsLog(states, events, 0, id)
  {
  }

  lemma HoldsLogNext(states: seq<State>, events: seq<Event>, n: nat, id: string)
    requires IsRun(states, events) && n < |events| && HoldsLog(states, events, n, id)
    ensures HoldsLog(states, events, n + 1, id)
  {
    var log := Log(states, events, n, id);
    assert AdvancesAt(states, events, n);
    StepMerges(states[n], events[n], id, log);
    assert Log(states, events, n + 1, id) == log + Contribution(states[n], events[n], id);
  }

  /** So it is for every change in every state of every run. */
  lemma {:induction false} GatheredIsMerged(states: seq<State>, events: seq<Event>, n: nat, id: string)
    requires IsRun(states, events) && n <= |events|
    ensures HoldsLog(states, events, n, id)
  {
    if n == 0 {
      HoldsLogFirst(states, events, id);
    } else {
      GatheredIsMerged(states, events, n - 1, id);
      HoldsLogNext(states, events, n - 1, id);
    }
  }

  // ---------------------------------------------------------------- and which texts these are

  /** What the document of a uri held before event `n`, as the events tell it. */
  ghost function TextAt(initial: map<string, string>, events: seq<Event>, uri: string, n: nat): Option<string>
    requires n <= |events|
  {
    if n == 0 then Lookup(initial, uri)
    else if events[n - 1].Remembered? && events[n - 1].uri == uri then Some(events[n - 1].text)
    else if events[n - 1].Changed? && events[n - 1].uri == uri then Some(events[n - 1].after)
    else if events[n - 1].Closed? && events[n - 1].uri == uri then None
    else TextAt(initial, events, uri, n - 1)
  }

  ghost function TextBefore(states: seq<State>, events: seq<Event>, i: nat): Option<string>
    requires |states| == |events| + 1 && i < |events| && events[i].Changed?
  {
    TextAt(states[0].baselines, events, events[i].uri, i)
  }

  lemma StepTexts(s: State, e: Event, uri: string)
    requires Enabled(s, e)
    ensures Lookup(Step(s, e).baselines, uri)
         == if e.Remembered? && e.uri == uri then Some(e.text)
            else if e.Changed? && e.uri == uri then Some(e.after)
            else if e.Closed? && e.uri == uri then None
            else Lookup(s.baselines, uri)
  {
  }

  lemma {:induction false} TextsAreHeld(states: seq<State>, events: seq<Event>, n: nat, uri: string)
    requires IsRun(states, events) && n <= |events|
    ensures Lookup(states[n].baselines, uri) == TextAt(states[0].baselines, events, uri, n)
  {
    if n > 0 {
      TextsAreHeld(states, events, n - 1, uri);
      assert AdvancesAt(states, events, n - 1);
      StepTexts(states[n - 1], events[n - 1], uri);
    }
  }

  lemma {:induction false} RunsKeepTimers(states: seq<State>, events: seq<Event>, n: nat)
    requires IsRun(states, events) && n <= |events|
    ensures TimersCover(states[n])
  {
    if n > 0 {
      RunsKeepTimers(states, events, n - 1);
      assert AdvancesAt(states, events, n - 1);
      StepKeepsTimers(states[n - 1], events[n - 1]);
    }
  }

  /** Event `i` changes the text of an open document at `path` that may be captured, in some workspace. */
  ghost predicate Edits(states: seq<State>, events: seq<Event>, i: int, path: string)
    requires |states| == |events| + 1
  {
    && 0 <= i < |events| && events[i].Changed? && events[i].doc.path == path
    && TextBefore(states, events, i).Some? && TextBefore(states, events, i).value != events[i].after
    && events[i].doc.capture && events[i].doc.fits && events[i].doc.root.Some?
  }

  /** Event `i` is an edit of `path` outside any session, in a workspace whose heuristic change then is `id`. */
  ghost predicate GathersAt(states: seq<State>, events: seq<Event>, i: int, id: string, path: string)
    requires |states| == |events| + 1
  {
    && Edits(states, events, i, path) && events[i].doc.detect
    && Held(events[i].doc.root.value, id) in states[i + 1].heuristic
    && (forall session :: states[i].active == Some(session) && session in states[i].changes ==>
          states[i].changes[session].root != events[i].doc.root.value)
  }

  lemma EditsExactlyWhen(states: seq<State>, events: seq<Event>, i: nat, path: string)
    requires IsRun(states, events) && i < |events| && events[i].Changed?
    ensures Edits(states, events, i, path) <==> events[i].doc.path == path && Captured(states[i], events[i])
    ensures Captured(states[i], events[i]) ==> TextBefore(states, events, i) == Some(states[i].baselines[events[i].uri])
  {
    TextsAreHeld(states, events, i, events[i].uri);
  }

  lemma HeldOnce(s: State, a: Held, b: Held)
    requires TimersCover(s) && a in s.heuristic && b in s.heuristic && a.root == b.root
    ensures a == b
  {
    var i :| 0 <= i < |s.heuristic| && s.heuristic[i] == a;
    var j :| 0 <= j < |s.heuristic| && s.heuristic[j] == b;
  }

  lemma TargetIsHeld(s: State, e: Event)
    requires e.Changed? && Gathers(s, e)
    ensures Held(e.doc.root.value, TargetId(s, e)) in Gathered(s, e).heuristic
  {
    var i := HeldIndex(s.heuristic, e.doc.root.value);
    if i < |s.heuristic| {
      assert s.heuristic[i] == Held(e.doc.root.value, TargetId(s, e));
    }
  }

  lemma GathersExactlyWhen(states: seq<State>, events: seq<Event>, i: nat, id: string, path: string)
    requires IsRun(states, events) && i < |events|
    ensures GathersAt(states, events, i, id, path)
       <==> && events[i].Changed? && Gathers(states[i], events[i])
            && TargetId(states[i], events[i]) == id && events[i].doc.path == path
  {
    var s, e := states[i], events[i];
    assert AdvancesAt(states, events, i);
    if e.Changed? {
      EditsExactlyWhen(states, events, i, path);
      if Gathers(s, e) {
        TargetIsHeld(s, e);
        RunsKeepTimers(states, events, i + 1);
        if Held(e.doc.root.value, id) in states[i + 1].heuristic {
          HeldOnce(states[i + 1], Held(e.doc.root.value, id), Held(e.doc.root.value, TargetId(s, e)));
        }
      }
    }
  }

  ghost predicate NoneGathers(states: seq<State>, events: seq<Event>, a: nat, b: nat, id: string, path: string)
    requires |states| == |events| + 1
  {
    forall k :: a <= k < b ==> !GathersAt(states, events, k, id, path)
  }

  /** From the text before the first edit of its path that the change gathered to the text after the last one. */
  ghost predicate NetEdits(states: seq<State>, events: seq<Event>, n: nat, id: string, f: FileChange, first: nat,
                           last: nat)
    requires |states| == |events| + 1
  {
    && first <= last < n && GathersAt(states, events, first, id, f.path) && GathersAt(states, events, last, id, f.path)
    && NoneGathers(states, events, 0, first, id, f.path) && NoneGathers(states, events, last + 1, n, id, f.path)
    && TextBefore(states, events, first) == Some(f.before) && events[last].after == f.after
    && events[last].doc.language == f.language && events[last].now == f.at
  }

  ghost predicate IsNetEdit(states: seq<State>, events: seq<Event>, n: nat, id: string, f: FileChange)
    requires |states| == |events| + 1
  {
    exists first: nat, last: nat :: NetEdits(states, events, n, id, f, first, last)
  }

  ghost predicate HasPath(files: seq<FileChange>, path: string) { exists f :: f in files && f.path == path }

  /** The files are exactly the net edits of the paths that the change gathered, each path once. */
  ghost predicate HoldsNetEdits(states: seq<State>, events: seq<Event>, n: nat, id: string)
    requires |states| == |events| + 1 && n <= |events|
  {
    var files := FilesOf(states[n], id);
    && DistinctPaths(files) && (forall f :: f in files ==> IsNetEdit(states, events, n, id, f))
    && forall k, path :: 0 <= k < n && GathersAt(states, events, k, id, path) ==> HasPath(files, path)
  }

  /** The change has never been the active session. */
  ghost predicate NeverActive(states: seq<State>, n: nat, id: string)
    requires n < |states|
  {
    forall i :: 0 <= i <= n ==> states[i].active != Some(id)
  }

  lemma {:induction false} NeverStopped(states: seq<State>, events: seq<Event>, n: nat, id: string)
    requires IsRun(states, events) && n <= |events| && NeverActive(states, n, id)
    ensures forall k :: 0 <= k < |states[n].stops| ==> states[n].stops[k].id != id
  {
    if n > 0 {
      NeverStopped(states, events, n - 1, id);
      assert AdvancesAt(states, events, n - 1);
      StopIdsStep(states[n - 1], events[n - 1], id);
    }
  }

  lemma StopIdsStep(s: State, e: Event, id: string)
    requires Enabled(s, e) && s.active != Some(id) && forall k :: 0 <= k < |s.stops| ==> s.stops[k].id != id
    ensures forall k :: 0 <= k < |Step(s, e).stops| ==> Step(s, e).stops[k].id != id
  {
  }

  /** A later event that does not gather for the path leaves its net edit. */
  lemma NetEditStays(states: seq<State>, events: seq<Event>, n: nat, id: string, f: FileChange)
    requires |states| == |events| + 1 && n < |events| && IsNetEdit(states, events, n, id, f)
    requires !GathersAt(states, events, n, id, f.path)
    ensures IsNetEdit(states, events, n + 1, id, f)
  {
    var first: nat, last: nat :| NetEdits(states, events, n, id, f, first, last);
    assert NetEdits(states, events, n + 1, id, f, first, last);
  }

  lemma NetEditMoves(states: seq<State>, events: seq<Event>, n: nat, id: string, f: FileChange, next: FileChange)
    requires |states| == |events| + 1 && n < |events| && IsNetEdit(states, events, n, id, f)
    requires GathersAt(states, events, n, id, f.path) && next.path == f.path && next.before == f.before
    requires next.after == events[n].after && next.language == events[n].doc.language && next.at == events[n].now
    ensures IsNetEdit(states, events, n + 1, id, next)
  {
    var first: nat, last: nat :| NetEdits(states, events, n, id, f, first, last);
    assert NetEdits(states, events, n + 1, id, next, first, n);
  }

  lemma NetEditBegins(states: seq<State>, events: seq<Event>, n: nat, id: string, next: FileChange)
    requires |states| == |events| + 1 && n < |events| && GathersAt(states, events, n, id, next.path)
    requires NoneGathers(states, events, 0, n, id, next.path)
    requires TextBefore(states, events, n) == Some(next.before) && next.after == events[n].after
    requires next.language == events[n].doc.language && next.at == events[n].now
    ensures IsNetEdit(states, events, n + 1, id, next)
  {
    assert NetEdits(states, events, n + 1, id, next, n, n);
  }

  lemma PathIndexIs(files: seq<FileChange>, path: string)
    ensures HasPath(files, path) <==> PathIndex(files, path) < |files|
  {
    var i := PathIndex(files, path);
    if i < |files| {
      assert files[i] in files;
    } else {
      assert forall f :: f in files ==> f.path != path;
    }
  }

  lemma MergedIsNet(states: seq<State>, events: seq<Event>, n: nat, id: string, next: FileChange, f: FileChange)
    requires |states| == |events| + 1 && n < |events| && HoldsNetEdits(states, events, n, id)
    requires GathersAt(states, events, n, id, next.path) && TextBefore(states, events, n) == Some(next.before)
    requires next.after == events[n].after && next.language == events[n].doc.language && next.at == events[n].now
    requires f in Merge(FilesOf(states[n], id), next)
    ensures IsNetEdit(states, events, n + 1, id, f)
  {
    var files := FilesOf(states[n], id);
    var at := PathIndex(files, next.path);
    MergeMember(files, next, f);
    PathIndexIs(files, next.path);
    if f.path != next.path {
      NetEditStays(states, events, n, id, f);
    } else if at < |files| {
      assert files[at] in files;
      NetEditMoves(states, events, n, id, files[at], f);
    } else {
      NetEditBegins(states, events, n, id, f);
    }
  }

  lemma NetEditsNext(states: seq<State>, events: seq<Event>, n: nat, id: string)
    requires IsRun(states, events) && n < |events| && HoldsNetEdits(states, events, n, id)
    requires events[n].Changed? && Gathers(states[n], events[n]) && TargetId(states[n], events[n]) == id
    ensures HoldsNetEdits(states, events, n + 1, id)
  {
    var s, e, files := states[n], events[n], FilesOf(states[n], id);
    var next := FileChange(e.doc.path, e.doc.language, s.baselines[e.uri], e.after, e.now);
    assert AdvancesAt(states, events, n);
    ChangedFiles(s, e, id);
    EditsExactlyWhen(states, events, n, e.doc.path);
    GathersExactlyWhen(states, events, n, id, e.doc.path);
    MergeKeepsDistinct(files, next);
    forall f | f in Merge(files, next)
      ensures IsNetEdit(states, events, n + 1, id, f)
    {
      MergedIsNet(states, events, n, id, next, f);
    }
    forall k, path | 0 <= k < n + 1 && GathersAt(states, events, k, id, path)
      ensures HasPath(Merge(files, next), path)
    {
      PathIndexIs(files, path);
      MergeKeepsPaths(files, next, path);
      PathIndexIs(Merge(files, next), path);
    }
  }

  lemma OthersKeepNetEdits(states: seq<State>, events: seq<Event>, n: nat, id: string)
    requires |states| == |events| + 1 && n < |events| && HoldsNetEdits(states, events, n, id)
    requires FilesOf(states[n + 1], id) == FilesOf(states[n], id)
    requires forall path :: !GathersAt(states, events, n, id, path)
    ensures HoldsNetEdits(states, events, n + 1, id)
  {
    forall f | f in FilesOf(states[n], id)
      ensures IsNetEdit(states, events, n + 1, id, f)
    {
      NetEditStays(states, events, n, id, f);
    }
  }

  lemma OtherEventKeeps(states: seq<State>, events: seq<Event>, n: nat, id: string)
    requires IsRun(states, events) && n < |events| && NeverActive(states, n, id)
    requires !(events[n].Changed? && Gathers(states[n], events[n]) && TargetId(states[n], events[n]) == id)
    ensures FilesOf(states[n + 1], id) == FilesOf(states[n], id)
    ensures forall path :: !GathersAt(states, events, n, id, path)
  {
    assert AdvancesAt(states, events, n);
    NeverStopped(states, events, n, id);
    StepFiles(states[n], events[n], id);
    forall path: string
      ensures !GathersAt(states, events, n, id, path)
    {
      GathersExactlyWhen(states, events, n, id, path);
    }
  }

  lemma EventKeepsNetEdits(states: seq<State>, events: seq<Event>, n: nat, id: string)
    requires IsRun(states, events) && n < |events| && NeverActive(states, n, id)
    requires HoldsNetEdits(states, events, n, id)
    ensures HoldsNetEdits(states, events, n + 1, id)
  {
    if events[n].Changed? && Gathers(states[n], events[n]) && TargetId(states[n], events[n]) == id {
      NetEditsNext(states, events, n, id);
    } else {
      OtherEventKeeps(states, events, n, id);
      OthersKeepNetEdits(states, events, n, id);
    }
  }

  /** In every run, in any order of events, a change that is no session has for every path it gathered an edit of one
      file: from what the document of the first such edit held just before it to what the last one left. */
  lemma HeuristicFilesAre(states: seq<State>, events: seq<Event>, n: nat, id: string)
    requires IsRun(states, events) && n <= |events| && NeverActive(states, n, id)
    ensures HoldsNetEdits(states, events, n, id)
  {
    HeuristicFilesFrom(states, events, 0, n, id);
  }

  lemma {:induction false} HeuristicFilesFrom(states: seq<State>, events: seq<Event>, m: nat, n: nat, id: string)
    requires IsRun(states, events) && m <= n <= |events| && NeverActive(states, n, id)
    requires HoldsNetEdits(states, events, m, id)
    ensures HoldsNetEdits(states, events, n, id)
    decreases n - m
  {
    if m < n {
      EventKeepsNetEdits(states, events, m, id);
      HeuristicFilesFrom(states, events, m + 1, n, id);
    }
  }

  // ---------------------------------------------------------------- what a stopped session holds

  /** What an event reads of a session, if it reads a path of it. */
  function ReadsOf(s: State, e: Event, id: string): seq<Option<FileChange>> {
    if e.StopReads? && CanRead(s, e.k) && s.stops[e.k].id == id then [FileRead(s, e.k, e.current, e.language)] else []
  }

  ghost function SessionReads(states: seq<State>, events: seq<Event>, n: nat, id: string): seq<Option<FileChange>>
    requires |states| == |events| + 1 && n <= |events|
  {
    if n == 0 then [] else SessionReads(states, events, n - 1, id) + ReadsOf(states[n - 1], events[n - 1], id)
  }

  /** The reads that found both texts. */
  function Known(found: seq<Option<FileChange>>): seq<FileChange> {
    if found == [] then []
    else
      var last := found[|found| - 1];
      Known(found[..|found| - 1]) + if last.Some? then [last.value] else []
  }

  /** One read for each of the first paths, in their order. */
  ghost predicate ReadInOrder(paths: seq<string>, found: seq<Option<FileChange>>) {
    && |found| <= |paths|
    && (forall i, j :: 0 <= i < j < |paths| ==> paths[i] != paths[j])
    && (forall i :: 0 <= i < |found| && found[i].Some? ==> found[i].value.path == paths[i])
  }

  /** How many paths the stop under way has read. */
  function ReadCount(s: State): nat { if s.stops == [] then 0 else s.stops[0].read }

  /** A session of which so far `found` was read, and which holds what was found. */
  ghost predicate HoldsReads(s: State, id: string, found: seq<Option<FileChange>>) {
    && id in s.changes && |found| == ReadCount(s)
    && ReadInOrder(s.changes[id].dirty, found) && s.changes[id].files == Known(found)
  }

  lemma {:induction false} KnownIsRead(found: seq<Option<FileChange>>, f: FileChange)
    requires f in Known(found)
    ensures exists i :: 0 <= i < |found| && found[i] == Some(f)
  {
    if found != [] {
      var front := found[..|found| - 1];
      if f in Known(front) {
        KnownIsRead(front, f);
        var i :| 0 <= i < |front| && front[i] == Some(f);
        assert found[i] == Some(f);
      } else {
        assert found[|found| - 1] == Some(f);
      }
    }
  }

  lemma NoneReadYet(paths: seq<string>, found: seq<Option<FileChange>>, f: FileChange)
    requires ReadInOrder(paths, found) && |found| < |paths| && f in Known(found)
    ensures f.path != paths[|found|]
  {
    KnownIsRead(found, f);
  }

  lemma NextReadJoins(paths: seq<string>, found: seq<Option<FileChange>>, next: FileChange)
    requires ReadInOrder(paths, found) && |found| < |paths| && next.path == paths[|found|]
    ensures Merge(Known(found), next) == Known(found + [Some(next)])
  {
    assert (found + [Some(next)])[..|found|] == found;
    var i := PathIndex(Known(found), next.path);
    if i < |Known(found)| {
      NoneReadYet(paths, found, Known(found)[i]);
    }
  }

  lemma {:induction false} KnownPathsDiffer(paths: seq<string>, found: seq<Option<FileChange>>)
    requires ReadInOrder(paths, found)
    ensures DistinctPaths(Known(found))
  {
    if found != [] {
      var front, last := found[..|found| - 1], found[|found| - 1];
      KnownPathsDiffer(paths, front);
      if last.Some? {
        forall f | f in Known(front)
          ensures f.path != last.value.path
        {
          NoneReadYet(paths, front, f);
        }
      }
    }
  }

  lemma ReadingHolds(s: State, k: nat, current: Option<string>, language: string, found: seq<Option<FileChange>>)
    requires CanRead(s, k) && OneStop(s) && HoldsReads(s, s.stops[k].id, found)
    ensures HoldsReads(OnStopReads(s, k, current, language), s.stops[k].id, found + [FileRead(s, k, current, language)])
  {
    var next := FileRead(s, k, current, language);
    assert (found + [next])[..|found|] == found;
    if next.Some? {
      NextReadJoins(StoppedChange(s, k).dirty, found, next.value);
    }
  }

  lemma ActiveIsNotGathered(s: State, e: Event)
    requires Conserved(s) && e.Changed? && Gathers(s, e) && s.active.Some? && Enabled(s, e)
    ensures TargetId(s, e) != s.active.value
  {
    assert Counted(s, s.active.value);
    var i := HeldIndex(s.heuristic, e.doc.root.value);
    assert i < |s.heuristic| ==> HeldIds(s.heuristic)[i] == TargetId(s, e);
  }

  lemma TouchingHolds(s: State, s': State, id: string, found: seq<Option<FileChange>>, path: string)
    requires HoldsReads(s, id, found) && s'.stops == s.stops && id in s'.changes
    requires s'.changes[id].dirty == Add(s.changes[id].dirty, path) && s'.changes[id].files == s.changes[id].files
    ensures HoldsReads(s', id, found)
  {
  }

  lemma ChangedHolds(s: State, e: Event, id: string, found: seq<Option<FileChange>>)
    requires e.Changed? && Enabled(s, e) && Conserved(s) && s.active == Some(id) && HoldsReads(s, id, found)
    ensures HoldsReads(OnChanged(s, e), id, found)
  {
    if Gathers(s, e) {
      ActiveIsNotGathered(s, e);
    } else if Captured(s, e) && InSession(s, e.doc.root.value) {
      TouchingHolds(s, OnChanged(s, e), id, found, e.doc.path);
    }
  }

  lemma OthersHoldReads(s: State, e: Event, id: string, found: seq<Option<FileChange>>)
    requires !e.Changed? && !e.DiskChanged? && !e.StopReads? && Enabled(s, e) && Serial(s, e)
    requires s.active == Some(id) && Step(s, e).active == Some(id) && HoldsReads(s, id, found)
    ensures HoldsReads(Step(s, e), id, found)
  {
    assert ReadCount(Step(s, e)) == ReadCount(s) && Step(s, e).changes == s.changes;
  }

  /** While a session is active every event keeps what was read of it. */
  lemma StepHoldsReads(s: State, e: Event, id: string, found: seq<Option<FileChange>>)
    requires Conserved(s) && OneStop(s) && Enabled(s, e) && Serial(s, e)
    requires s.active == Some(id) && Step(s, e).active == Some(id) && HoldsReads(s, id, found)
    ensures HoldsReads(Step(s, e), id, found + ReadsOf(s, e, id))
  {
    if e.StopReads? {
      ReadingHolds(s, e.k, e.current, e.language, found);
    } else {
      assert found + ReadsOf(s, e, id) == found;
      match e
      case Changed(_, _, _, _, _) => ChangedHolds(s, e, id, found);
      case DiskChanged(path, kind, now) => TouchingHolds(s, Step(s, e), id, found, path);
      case _ => OthersHoldReads(s, e, id, found);
    }
  }

  lemma {:induction false} NothingReadBefore(states: seq<State>, events: seq<Event>, n: nat, id: string)
    requires IsRun(states, events) && n <= |events| && id !in states[n].changes
    ensures SessionReads(states, events, n, id) == []
  {
    if n > 0 {
      assert AdvancesAt(states, events, n - 1);
      assert states[n - 1].changes.Keys <= states[n].changes.Keys;
      NothingReadBefore(states, events, n - 1, id);
    }
  }

  lemma StartedHoldsReads(s: State, e: Event, id: string)
    requires Enabled(s, e) && Serial(s, e) && s.active != Some(id) && Step(s, e).active == Some(id)
    ensures id !in s.changes && ReadsOf(s, e, id) == [] && HoldsReads(Step(s, e), id, [])
  {
  }

  lemma SerialInvariant(states: seq<State>, events: seq<Event>, n: nat)
    requires SerialRun(states, events) && n <= |events|
    ensures Conserved(states[n]) && OneStop(states[n])
  {
    SerialRunsAreOrderly(states, events, |events|);
    SerialRunsAreOrderly(states, events, n);
    RunsConserve(states, events, n);
  }

  lemma ActiveHoldsNext(states: seq<State>, events: seq<Event>, n: nat, id: string)
    requires SerialRun(states, events) && n < |events| && states[n + 1].active == Some(id)
    requires states[n].active == Some(id) ==> HoldsReads(states[n], id, SessionReads(states, events, n, id))
    ensures HoldsReads(states[n + 1], id, SessionReads(states, events, n + 1, id))
  {
    var s, e, found := states[n], events[n], SessionReads(states, events, n, id);
    assert AdvancesAt(states, events, n) && Serial(s, e);
    assert SessionReads(states, events, n + 1, id) == found + ReadsOf(s, e, id);
    if s.active == Some(id) {
      SerialInvariant(states, events, n);
      StepHoldsReads(s, e, id, found);
    } else {
      StartedHoldsReads(s, e, id);
      NothingReadBefore(states, events, n, id);
    }
  }

  lemma {:induction false} ActiveHoldsReads(states: seq<State>, events: seq<Event>, n: nat, id: string)
    requires SerialRun(states, events) && n <= |events| && states[n].active == Some(id)
    ensures HoldsReads(states[n], id, SessionReads(states, events, n, id))
  {
    if n > 0 {
      if states[n - 1].active == Some(id) {
        ActiveHoldsReads(states, events, n - 1, id);
      }
      ActiveHoldsNext(states, events, n - 1, id);
    }
  }

  /** Where a stop ends in a serial run, every path the session touched has been read once, in the order of the first
      touches, and the session holds exactly what was found: each path with both texts, once. */
  lemma StoppedSessionHolds(states: seq<State>, events: seq<Event>, i: nat)
    requires SerialRun(states, events) && i < |events| && events[i].StopEnds?
    ensures Enabled(states[i], events[i])
    ensures var c := StoppedChange(states[i], events[i].k);
            var found := SessionReads(states, events, i, states[i].stops[events[i].k].id);
            && |found| == |c.dirty| && ReadInOrder(c.dirty, found)
            && c.files == Known(found) && DistinctPaths(c.files)
  {
    var s, e := states[i], events[i];
    assert AdvancesAt(states, events, i);
    SerialRunsAreOrderly(states, events, i);
    var id := s.stops[e.k].id;
    ActiveHoldsReads(states, events, i, id);
    KnownPathsDiffer(s.changes[id].dirty, SessionReads(states, events, i, id));
  }

  // ---------------------------------------------------------------- which texts a session finds

  /** Event `a` starts the session. */
  ghost predicate StartsAt(events: seq<Event>, a: int, id: string) {
    0 <= a < |events| && events[a].SessionStarts? && events[a].id == id
  }

  /** Event `i` is an edit of `path` in the workspace of the session while that is active. */
  ghost predicate SessionEdit(states: seq<State>, events: seq<Event>, a: int, i: int, path: string)
    requires |states| == |events| + 1 && 0 <= a < |events| && events[a].SessionStarts?
  {
    && a < i && Edits(states, events, i, path) && events[i].doc.root == Some(events[a].root)
    && states[i].active == Some(events[a].id)
  }

  ghost predicate OnDisk(events: seq<Event>, i: int, path: string, kind: DiskKind) {
    0 <= i < |events| && events[i].DiskChanged? && events[i].path == path && events[i].kind == kind
  }

  ghost predicate EditedBefore(states: seq<State>, events: seq<Event>, a: int, n: int, path: string)
    requires |states| == |events| + 1 && 0 <= a < |events| && events[a].SessionStarts?
  {
    exists i :: i < n && SessionEdit(states, events, a, i, path)
  }

  /** The text is what the document held just before the first edit of the path in the session. */
  ghost predicate HeldAtFirstEdit(states: seq<State>, events: seq<Event>, a: int, n: int, path: string, text: string)
    requires |states| == |events| + 1 && 0 <= a < |events| && events[a].SessionStarts?
  {
    exists i :: i < n && SessionEdit(states, events, a, i, path) && TextBefore(states, events, i) == Some(text)
                && !EditedBefore(states, events, a, i, path)
  }

  ghost predicate CreatedSince(events: seq<Event>, a: int, n: int, path: string) {
    exists i :: a < i < n && OnDisk(events, i, path, Create)
  }

  /** A deletion on disk comes after every edit and every creation of the path. */
  ghost predicate DeletedLast(states: seq<State>, events: seq<Event>, a: int, n: int, path: string)
    requires |states| == |events| + 1 && 0 <= a < |events| && events[a].SessionStarts?
  {
    exists i :: a < i < n && OnDisk(events, i, path, Delete) && NotRevived(states, events, a, i + 1, n, path)
  }

  ghost predicate NotRevived(states: seq<State>, events: seq<Event>, a: int, i: int, n: int, path: string)
    requires |states| == |events| + 1 && 0 <= a < |events| && events[a].SessionStarts?
  {
    forall j :: i <= j < n ==> !SessionEdit(states, events, a, j, path) && !OnDisk(events, j, path, Create)
  }

  /** Event `i` edits the path in the session or changes it on disk. */
  ghost predicate TouchesPath(states: seq<State>, events: seq<Event>, a: int, i: int, path: string)
    requires |states| == |events| + 1 && 0 <= a < |events| && events[a].SessionStarts?
  {
    SessionEdit(states, events, a, i, path)
    || (a < i && exists kind :: OnDisk(events, i, path, kind))
  }

  ghost predicate TouchedSince(states: seq<State>, events: seq<Event>, a: int, n: int, path: string)
    requires |states| == |events| + 1 && 0 <= a < |events| && events[a].SessionStarts?
  {
    exists i :: i < n && TouchesPath(states, events, a, i, path)
  }

  /** What the session knows of a path: its text in the snapshot or at the first edit, whether it was created, whether
      it is deleted, and whether to look at it. */
  ghost predicate KnowsPath(states: seq<State>, events: seq<Event>, a: int, n: int, path: string, c: Change)
    requires |states| == |events| + 1 && 0 <= a < |events| && events[a].SessionStarts?
  {
    && c.root == events[a].root
    && (path in events[a].snapshot ==> path in c.baselines && c.baselines[path] == events[a].snapshot[path])
    && (path !in events[a].snapshot ==>
         && (path in c.baselines <==> EditedBefore(states, events, a, n, path))
         && (path in c.baselines ==> HeldAtFirstEdit(states, events, a, n, path, c.baselines[path])))
    && (path in c.created <==> CreatedSince(events, a, n, path))
    && (path in c.deleted <==> DeletedLast(states, events, a, n, path))
    && (path in c.dirty <==> TouchedSince(states, events, a, n, path))
  }

  lemma EditedNext(states: seq<State>, events: seq<Event>, a: int, n: nat, path: string, text: string)
    requires |states| == |events| + 1 && 0 <= a < |events| && events[a].SessionStarts? && n < |events|
    ensures EditedBefore(states, events, a, n + 1, path)
       <==> EditedBefore(states, events, a, n, path) || SessionEdit(states, events, a, n, path)
    ensures HeldAtFirstEdit(states, events, a, n, path, text) ==>
              HeldAtFirstEdit(states, events, a, n + 1, path, text)
    ensures SessionEdit(states, events, a, n, path) && !EditedBefore(states, events, a, n, path) ==>
              (TextBefore(states, events, n) == Some(text) ==> HeldAtFirstEdit(states, events, a, n + 1, path, text))
  {
  }

  lemma CreatedNext(events: seq<Event>, a: int, n: nat, path: string)
    requires a < n < |events|
    ensures CreatedSince(events, a, n + 1, path)
       <==> CreatedSince(events, a, n, path) || OnDisk(events, n, path, Create)
  {
  }

  lemma DeletedNext(states: seq<State>, events: seq<Event>, a: int, n: nat, path: string)
    requires |states| == |events| + 1 && 0 <= a < n < |events| && events[a].SessionStarts?
    ensures DeletedLast(states, events, a, n + 1, path)
       <==> OnDisk(events, n, path, Delete)
            || (DeletedLast(states, events, a, n, path)
                && !SessionEdit(states, events, a, n, path) && !OnDisk(events, n, path, Create))
  {
    if OnDisk(events, n, path, Delete) {
      assert NotRevived(states, events, a, n + 1, n + 1, path);
    } else if DeletedLast(states, events, a, n, path) && !SessionEdit(states, events, a, n, path)
              && !OnDisk(events, n, path, Create) {
      var i :| a < i < n && OnDisk(events, i, path, Delete) && NotRevived(states, events, a, i + 1, n, path);
      assert NotRevived(states, events, a, i + 1, n + 1, path);
    }
    if DeletedLast(states, events, a, n + 1, path) {
      var i :| a < i < n + 1 && OnDisk(events, i, path, Delete) && NotRevived(states, events, a, i + 1, n + 1, path);
      assert i < n ==> NotRevived(states, events, a, i + 1, n, path);
    }
  }

  lemma TouchedNext(states: seq<State>, events: seq<Event>, a: int, n: nat, path: string)
    requires |states| == |events| + 1 && 0 <= a < |events| && events[a].SessionStarts? && n < |events|
    ensures TouchedSince(states, events, a, n + 1, path)
       <==> TouchedSince(states, events, a, n, path) || TouchesPath(states, events, a, n, path)
  {
  }

  /** An event that does not touch the path leaves what is known of it. */
  lemma UntouchedKnows(states: seq<State>, events: seq<Event>, a: int, n: nat, path: string, c: Change, c': Change)
    requires |states| == |events| + 1 && 0 <= a < n < |events| && events[a].SessionStarts?
    requires KnowsPath(states, events, a, n, path, c) && !TouchesPath(states, events, a, n, path)
    requires c'.root == c.root && Lookup(c'.baselines, path) == Lookup(c.baselines, path)
    requires path in c'.created <==> path in c.created
    requires path in c'.deleted <==> path in c.deleted
    requires path in c'.dirty <==> path in c.dirty
    ensures KnowsPath(states, events, a, n + 1, path, c')
  {
    EditedNext(states, events, a, n, path, if path in c.baselines then c.baselines[path] else "");
    CreatedNext(events, a, n, path);
    DeletedNext(states, events, a, n, path);
    TouchedNext(states, events, a, n, path);
    assert !OnDisk(events, n, path, Create) && !OnDisk(events, n, path, Delete);
  }

  lemma EditKnows(states: seq<State>, events: seq<Event>, a: int, n: nat, path: string, c: Change, before: string,
                  now: int)
    requires |states| == |events| + 1 && 0 <= a < n < |events| && events[a].SessionStarts?
    requires KnowsPath(states, events, a, n, path, c) && SessionEdit(states, events, a, n, path)
    requires TextBefore(states, events, n) == Some(before)
    ensures KnowsPath(states, events, a, n + 1, path, TouchedInEditor(c, path, before, now))
  {
    EditedNext(states, events, a, n, path, TouchedInEditor(c, path, before, now).baselines[path]);
    CreatedNext(events, a, n, path);
    DeletedNext(states, events, a, n, path);
    TouchedNext(states, events, a, n, path);
  }

  lemma DiskKnows(states: seq<State>, events: seq<Event>, a: int, n: nat, path: string, c: Change, kind: DiskKind,
                  now: int)
    requires |states| == |events| + 1 && 0 <= a < n < |events| && events[a].SessionStarts?
    requires KnowsPath(states, events, a, n, path, c) && OnDisk(events, n, path, kind)
    ensures KnowsPath(states, events, a, n + 1, path, TouchedOnDisk(c, path, kind, now))
  {
    EditedNext(states, events, a, n, path, if path in c.baselines then c.baselines[path] else "");
    CreatedNext(events, a, n, path);
    DeletedNext(states, events, a, n, path);
    TouchedNext(states, events, a, n, path);
  }

  lemma StartKnows(states: seq<State>, events: seq<Event>, a: nat, id: string, path: string)
    requires IsRun(states, events) && StartsAt(events, a, id)
    ensures id in states[a + 1].changes && KnowsPath(states, events, a, a + 1, path, states[a + 1].changes[id])
  {
    assert AdvancesAt(states, events, a);
    assert states[a + 1].changes[id] == NewChange(events[a].root, events[a].now, events[a].snapshot);
  }

  lemma SessionEditExactlyWhen(states: seq<State>, events: seq<Event>, a: nat, n: nat, id: string, path: string)
    requires IsRun(states, events) && StartsAt(events, a, id) && a < n < |events| && events[n].Changed?
    requires states[n].active == Some(id) && id in states[n].changes && states[n].changes[id].root == events[a].root
    ensures SessionEdit(states, events, a, n, path)
       <==> && events[n].doc.path == path && Captured(states[n], events[n])
            && InSession(states[n], events[n].doc.root.value)
  {
    EditsExactlyWhen(states, events, n, path);
  }

  lemma ChangedKnows(states: seq<State>, events: seq<Event>, a: nat, n: nat, id: string, path: string)
    requires IsRun(states, events) && StartsAt(events, a, id) && a < n < |events| && events[n].Changed?
    requires Conserved(states[n]) && states[n].active == Some(id) && id in states[n].changes
    requires KnowsPath(states, events, a, n, path, states[n].changes[id])
    ensures id in states[n + 1].changes
    ensures KnowsPath(states, events, a, n + 1, path, states[n + 1].changes[id])
  {
    var s, e := states[n], events[n];
    assert AdvancesAt(states, events, n);
    SessionEditExactlyWhen(states, events, a, n, id, path);
    if SessionEdit(states, events, a, n, path) {
      EditsExactlyWhen(states, events, n, path);
      EditKnows(states, events, a, n, path, s.changes[id], s.baselines[e.uri], e.now);
    } else {
      if Gathers(s, e) {
        ActiveIsNotGathered(s, e);
      }
      UntouchedKnows(states, events, a, n, path, s.changes[id], states[n + 1].changes[id]);
    }
  }

  lemma DiskChangeKnows(states: seq<State>, events: seq<Event>, a: nat, n: nat, id: string, path: string)
    requires IsRun(states, events) && StartsAt(events, a, id) && a < n < |events| && events[n].DiskChanged?
    requires states[n].active == Some(id) && id in states[n].changes
    requires KnowsPath(states, events, a, n, path, states[n].changes[id])
    ensures id in states[n + 1].changes
    ensures KnowsPath(states, events, a, n + 1, path, states[n + 1].changes[id])
  {
    var c, e := states[n].changes[id], events[n];
    assert AdvancesAt(states, events, n);
    if e.path == path {
      DiskKnows(states, events, a, n, path, c, e.kind, e.now);
    } else {
      UntouchedKnows(states, events, a, n, path, c, TouchedOnDisk(c, e.path, e.kind, e.now));
    }
  }

  /** Events that are neither edits nor changes on disk leave what a session knows. */
  lemma OthersKnow(s: State, e: Event, id: string)
    requires Enabled(s, e) && Serial(s, e) && s.active == Some(id) && id in s.changes
    requires !e.Changed? && !e.DiskChanged?
    ensures id in Step(s, e).changes
    ensures var c, c' := s.changes[id], Step(s, e).changes[id];
            c'.root == c.root && c'.baselines == c.baselines && c'.created == c.created && c'.deleted == c.deleted
            && c'.dirty == c.dirty
  {
  }

  lemma SessionStays(states: seq<State>, events: seq<Event>, a: nat, n: nat, id: string)
    requires IsRun(states, events) && StartsAt(events, a, id) && a < n <= |events|
    ensures id in states[n].changes
  {
    assert AdvancesAt(states, events, n - 1);
    if a + 1 < n {
      SessionStays(states, events, a, n - 1, id);
    }
  }

  lemma EventKnows(states: seq<State>, events: seq<Event>, a: nat, n: nat, id: string, path: string)
    requires SerialRun(states, events) && StartsAt(events, a, id) && a < n < |events|
    requires states[n].active == Some(id) && id in states[n].changes && id in states[n + 1].changes
    requires KnowsPath(states, events, a, n, path, states[n].changes[id])
    ensures id in states[n + 1].changes
    ensures KnowsPath(states, events, a, n + 1, path, states[n + 1].changes[id])
  {
    SerialInvariant(states, events, n);
    if events[n].Changed? {
      ChangedKnows(states, events, a, n, id, path);
    } else if events[n].DiskChanged? {
      DiskChangeKnows(states, events, a, n, id, path);
    } else {
      assert AdvancesAt(states, events, n) && Serial(states[n], events[n]);
      OthersKnow(states[n], events[n], id);
      UntouchedKnows(states, events, a, n, path, states[n].changes[id], states[n + 1].changes[id]);
    }
  }

  /** In a serial run the active session knows of every path what has happened to it since the start. */
  lemma SessionKnows(states: seq<State>, events: seq<Event>, a: nat, n: nat, id: string, path: string)
    requires SerialRun(states, events) && StartsAt(events, a, id) && a < n <= |events|
    requires states[n].active == Some(id)
    ensures id in states[n].changes && KnowsPath(states, events, a, n, path, states[n].changes[id])
  {
    StartKnows(states, events, a, id, path);
    SessionKnowsFrom(states, events, a, a + 1, n, id, path);
  }

  lemma {:induction false} SessionKnowsFrom(states: seq<State>, events: seq<Event>, a: nat, m: nat, n: nat, id: string,
                                            path: string)
    requires SerialRun(states, events) && StartsAt(events, a, id) && a < m <= n <= |events|
    requires states[n].active == Some(id) && id in states[m].changes
    requires KnowsPath(states, events, a, m, path, states[m].changes[id])
    ensures id in states[n].changes && KnowsPath(states, events, a, n, path, states[n].changes[id])
    decreases n - m
  {
    if m < n {
      ActiveEarlier(states, events, m, n, id);
      SessionStays(states, events, a, m + 1, id);
      EventKnows(states, events, a, m, id, path);
      SessionKnowsFrom(states, events, a, m + 1, n, id, path);
    }
  }

  /** Event `i` starts the session, edits a path in it or changes one on disk. */
  ghost predicate UpdatesSession(states: seq<State>, events: seq<Event>, a: int, i: int)
    requires |states| == |events| + 1 && 0 <= a < |events| && events[a].SessionStarts?
  {
    a == i || (a < i && exists path :: TouchesPath(states, events, a, i, path))
  }

  function NowOf(e: Event): int {
    match e
    case Changed(_, _, _, _, now) => now
    case SessionStarts(_, _, _, now) => now
    case DiskChanged(_, _, now) => now
    case _ => 0
  }

  /** The time is that of the last event that touched the session. */
  ghost predicate IsLastUpdate(states: seq<State>, events: seq<Event>, a: int, n: int, at: int)
    requires |states| == |events| + 1 && 0 <= a < |events| && events[a].SessionStarts?
  {
    exists i :: i < n && i < |events| && UpdatesSession(states, events, a, i) && NowOf(events[i]) == at
                && NoneUpdates(states, events, a, i + 1, n)
  }

  ghost predicate NoneUpdates(states: seq<State>, events: seq<Event>, a: int, i: int, n: int)
    requires |states| == |events| + 1 && 0 <= a < |events| && events[a].SessionStarts?
  {
    forall j :: i <= j < n ==> !UpdatesSession(states, events, a, j)
  }

  lemma UpdateNext(states: seq<State>, events: seq<Event>, a: int, n: nat, at: int, next: int)
    requires |states| == |events| + 1 && 0 <= a < n < |events| && events[a].SessionStarts?
    requires IsLastUpdate(states, events, a, n, at)
    requires UpdatesSession(states, events, a, n) ==> next == NowOf(events[n])
    requires !UpdatesSession(states, events, a, n) ==> next == at
    ensures IsLastUpdate(states, events, a, n + 1, next)
  {
    if UpdatesSession(states, events, a, n) {
      assert NoneUpdates(states, events, a, n + 1, n + 1);
    } else {
      var i :| i < n && i < |events| && UpdatesSession(states, events, a, i) && NowOf(events[i]) == at
               && NoneUpdates(states, events, a, i + 1, n);
      assert NoneUpdates(states, events, a, i + 1, n + 1);
    }
  }

  lemma EventUpdates(states: seq<State>, events: seq<Event>, a: nat, n: nat, id: string)
    requires SerialRun(states, events) && StartsAt(events, a, id) && a < n < |events|
    requires states[n].active == Some(id) && id in states[n].changes && id in states[n + 1].changes
    requires states[n].changes[id].root == events[a].root
    ensures UpdatesSession(states, events, a, n) ==> states[n + 1].changes[id].updatedAt == NowOf(events[n])
    ensures !UpdatesSession(states, events, a, n) ==>
              states[n + 1].changes[id].updatedAt == states[n].changes[id].updatedAt
  {
    var s, e := states[n], events[n];
    assert AdvancesAt(states, events, n) && Serial(s, e);
    SerialInvariant(states, events, n);
    if e.Changed? {
      SessionEditExactlyWhen(states, events, a, n, id, e.doc.path);
      assert SessionEdit(states, events, a, n, e.doc.path) ==> TouchesPath(states, events, a, n, e.doc.path);
      if Gathers(s, e) {
        ActiveIsNotGathered(s, e);
      }
    } else if e.DiskChanged? {
      assert OnDisk(events, n, e.path, e.kind);
      assert TouchesPath(states, events, a, n, e.path);
    }
  }

  lemma {:induction false} UpdatedFrom(states: seq<State>, events: seq<Event>, a: nat, m: nat, n: nat, id: string)
    requires SerialRun(states, events) && StartsAt(events, a, id) && a < m <= n <= |events|
    requires states[n].active == Some(id) && id in states[m].changes
    requires IsLastUpdate(states, events, a, m, states[m].changes[id].updatedAt)
    ensures id in states[n].changes && IsLastUpdate(states, events, a, n, states[n].changes[id].updatedAt)
    decreases n - m
  {
    if m < n {
      ActiveEarlier(states, events, m, n, id);
      SessionStays(states, events, a, m + 1, id);
      SessionKnows(states, events, a, m, id, "");
      EventUpdates(states, events, a, m, id);
      UpdateNext(states, events, a, m, states[m].changes[id].updatedAt, states[m + 1].changes[id].updatedAt);
      UpdatedFrom(states, events, a, m + 1, n, id);
    }
  }

  /** In a serial run the active session bears the time of the last event that touched it. */
  lemma SessionIsUpdated(states: seq<State>, events: seq<Event>, a: nat, n: nat, id: string)
    requires SerialRun(states, events) && StartsAt(events, a, id) && a < n <= |events|
    requires states[n].active == Some(id)
    ensures id in states[n].changes && IsLastUpdate(states, events, a, n, states[n].changes[id].updatedAt)
  {
    StartKnows(states, events, a, id, "");
    assert AdvancesAt(states, events, a);
    assert NoneUpdates(states, events, a, a + 1, a + 1);
    assert UpdatesSession(states, events, a, a) && NowOf(events[a]) == states[a + 1].changes[id].updatedAt;
    assert IsLastUpdate(states, events, a, a + 1, states[a + 1].changes[id].updatedAt);
    UpdatedFrom(states, events, a, a + 1, n, id);
  }

  /** The text of the path before the session: that of the snapshot, or what the document held at the first edit, or
      nothing for a path that was created. */
  ghost predicate TextOfOld(states: seq<State>, events: seq<Event>, a: int, n: int, path: string, text: string)
    requires |states| == |events| + 1 && 0 <= a < |events| && events[a].SessionStarts?
  {
    if path in events[a].snapshot then text == events[a].snapshot[path]
    else if EditedBefore(states, events, a, n, path) then HeldAtFirstEdit(states, events, a, n, path, text)
    else CreatedSince(events, a, n, path) && text == ""
  }

  /** The text of the path when it is read: nothing if it was deleted last, otherwise what the read finds. */
  ghost predicate TextOfNew(states: seq<State>, events: seq<Event>, a: int, n: int, path: string, text: string)
    requires |states| == |events| + 1 && 0 <= a < |events| && events[a].SessionStarts?
    requires 0 <= n < |events| && events[n].StopReads?
  {
    if DeletedLast(states, events, a, n, path) then text == "" else events[n].current == Some(text)
  }

  /** Event `j` reads the path of the file for the session, and these are its texts. */
  ghost predicate ReadAs(states: seq<State>, events: seq<Event>, a: int, j: int, id: string, f: FileChange)
    requires |states| == |events| + 1 && 0 <= a < |events| && events[a].SessionStarts?
  {
    && a < j < |events| && ReadsPath(states[j], events[j], id, f.path) && TouchedSince(states, events, a, j, f.path)
    && TextOfOld(states, events, a, j, f.path, f.before) && TextOfNew(states, events, a, j, f.path, f.after)
    && f.language == events[j].language && f.at == states[j].changes[id].updatedAt
  }

  /** What was held at the first edit is one text. */
  lemma OneHeldText(states: seq<State>, events: seq<Event>, a: int, n: int, path: string, text: string, other: string)
    requires |states| == |events| + 1 && 0 <= a < |events| && events[a].SessionStarts?
    requires HeldAtFirstEdit(states, events, a, n, path, text) && HeldAtFirstEdit(states, events, a, n, path, other)
    ensures text == other
  {
    var i :| i < n && SessionEdit(states, events, a, i, path) && TextBefore(states, events, i) == Some(text)
             && !EditedBefore(states, events, a, i, path);
    var j :| j < n && SessionEdit(states, events, a, j, path) && TextBefore(states, events, j) == Some(other)
             && !EditedBefore(states, events, a, j, path);
    assert !(i < j) && !(j < i);
  }

  lemma SessionFileIs(states: seq<State>, events: seq<Event>, a: nat, j: nat, path: string, c: Change,
                      current: Option<string>, language: string, f: FileChange)
    requires |states| == |events| + 1 && a < j < |events| && events[a].SessionStarts? && events[j].StopReads?
    requires KnowsPath(states, events, a, j, path, c) && events[j].current == current
    ensures SessionFile(c, path, current, language) == Some(f)
       <==> && f.path == path && TextOfOld(states, events, a, j, path, f.before)
            && TextOfNew(states, events, a, j, path, f.after) && f.language == language && f.at == c.updatedAt
  {
    if path !in events[a].snapshot && path in c.baselines && HeldAtFirstEdit(states, events, a, j, path, f.before) {
      OneHeldText(states, events, a, j, path, f.before, c.baselines[path]);
    }
  }

  /** What a read of a session finds. */
  lemma ReadFinds(states: seq<State>, events: seq<Event>, a: nat, j: nat, id: string, f: FileChange)
    requires SerialRun(states, events) && StartsAt(events, a, id) && a < j < |events|
    requires states[j].active == Some(id) && events[j].StopReads? && CanRead(states[j], events[j].k)
    requires states[j].stops[events[j].k].id == id
    ensures FileRead(states[j], events[j].k, events[j].current, events[j].language) == Some(f)
       <==> ReadAs(states, events, a, j, id, f)
  {
    var s, e := states[j], events[j];
    var path := StoppedChange(s, e.k).dirty[s.stops[e.k].read];
    SessionKnows(states, events, a, j, id, path);
    SessionFileIs(states, events, a, j, path, s.changes[id], e.current, e.language, f);
    assert path in s.changes[id].dirty;
  }

  /** The event is an edit of `path` that goes to the active session `id`. */
  predicate TouchesSession(s: State, e: Event, id: string, path: string) {
    && e.Changed? && Captured(s, e) && InSession(s, e.doc.root.value) && s.active == Some(id) && e.doc.path == path
  }

  /** The event reads `path` for the session `id`. */
  predicate ReadsPath(s: State, e: Event, id: string, path: string) {
    && e.StopReads? && CanRead(s, e.k) && s.stops[e.k].id == id
    && StoppedChange(s, e.k).dirty[s.stops[e.k].read] == path
  }

  /** The session is active, and its dirty path at `r` is `path`. */
  ghost predicate DirtyAt(s: State, id: string, r: nat, path: string) {
    s.active == Some(id) && id in s.changes && r < |s.changes[id].dirty| && s.changes[id].dirty[r] == path
  }

  lemma DirtyGrows(s: State, e: Event, id: string)
    requires Enabled(s, e) && s.active == Some(id) && id in s.changes && Step(s, e).active == Some(id)
    ensures id in Step(s, e).changes && s.changes[id].dirty <= Step(s, e).changes[id].dirty
  {
  }

  /** A step reads the path at `r` exactly when it takes the count of what is read past `r`. */
  lemma StepReadsExactlyWhen(s: State, e: Event, id: string, r: nat, path: string)
    requires Enabled(s, e) && Serial(s, e) && OneStop(s) && Step(s, e).active == Some(id)
    requires DirtyAt(s, id, r, path) && DistinctPathsOf(s, id)
    ensures DirtyAt(Step(s, e), id, r, path) && ReadCount(s) <= ReadCount(Step(s, e))
    ensures ReadsPath(s, e, id, path) <==> ReadCount(s) <= r < ReadCount(Step(s, e))
  {
    DirtyGrows(s, e, id);
    if e.StopReads? {
      assert ReadCount(Step(s, e)) == ReadCount(s) + 1;
    } else {
      assert ReadCount(Step(s, e)) == ReadCount(s);
    }
  }

  ghost predicate DistinctPathsOf(s: State, id: string)
    requires id in s.changes
  {
    var dirty := s.changes[id].dirty;
    forall i, j :: 0 <= i < j < |dirty| ==> dirty[i] != dirty[j]
  }

  /** A session that is there and is active after an event was active before it. */
  lemma ActiveBefore(s: State, e: Event, id: string)
    requires Enabled(s, e) && id in s.changes && Step(s, e).active == Some(id)
    ensures s.active == Some(id)
  {
  }

  lemma {:induction false} ActiveEarlier(states: seq<State>, events: seq<Event>, a: nat, n: nat, id: string)
    requires IsRun(states, events) && a <= n <= |events|
    requires id in states[a].changes && states[n].active == Some(id)
    ensures states[a].active == Some(id)
    decreases n - a
  {
    if a < n {
      assert AdvancesAt(states, events, a);
      assert id in states[a + 1].changes;
      ActiveEarlier(states, events, a + 1, n, id);
      assert states[a + 1] == Step(states[a], events[a]);
      ActiveBefore(states[a], events[a], id);
    }
  }

  lemma ActiveNext(states: seq<State>, events: seq<Event>, a: nat, n: nat, id: string)
    requires IsRun(states, events) && a < n <= |events|
    requires id in states[a].changes && states[n].active == Some(id)
    ensures states[a + 1].active == Some(id)
  {
    assert AdvancesAt(states, events, a);
    assert id in states[a + 1].changes;
    ActiveEarlier(states, events, a + 1, n, id);
  }

  ghost predicate ReadBetween(states: seq<State>, events: seq<Event>, a: nat, n: nat, id: string, path: string)
    requires a <= n <= |events| && |states| == |events| + 1
  {
    exists j :: a <= j < n && ReadsPath(states[j], events[j], id, path)
  }

  lemma ReadNext(states: seq<State>, events: seq<Event>, m: nat, id: string, r: nat, path: string)
    requires SerialRun(states, events) && m < |events|
    requires DirtyAt(states[m], id, r, path) && states[m + 1].active == Some(id)
    ensures DirtyAt(states[m + 1], id, r, path) && ReadCount(states[m]) <= ReadCount(states[m + 1])
    ensures ReadsPath(states[m], events[m], id, path) <==> ReadCount(states[m]) <= r < ReadCount(states[m + 1])
  {
    assert AdvancesAt(states, events, m) && Serial(states[m], events[m]);
    SerialInvariant(states, events, m);
    ActiveHoldsReads(states, events, m, id);
    StepReadsExactlyWhen(states[m], events[m], id, r, path);
  }

  lemma ReadBetweenFirst(states: seq<State>, events: seq<Event>, a: nat, n: nat, id: string, path: string)
    requires a < n <= |events| && |states| == |events| + 1
    ensures ReadBetween(states, events, a, n, id, path)
       <==> ReadsPath(states[a], events[a], id, path) || ReadBetween(states, events, a + 1, n, id, path)
  {
  }

  lemma {:induction false} ReadExactlyWhenPassed(states: seq<State>, events: seq<Event>, a: nat, n: nat, id: string,
                                                 r: nat, path: string)
    requires SerialRun(states, events) && a <= n <= |events|
    requires DirtyAt(states[a], id, r, path) && states[n].active == Some(id)
    ensures DirtyAt(states[n], id, r, path) && ReadCount(states[a]) <= ReadCount(states[n])
    ensures ReadBetween(states, events, a, n, id, path) <==> ReadCount(states[a]) <= r < ReadCount(states[n])
    decreases n - a
  {
    if a < n {
      ActiveNext(states, events, a, n, id);
      ReadNext(states, events, a, id, r, path);
      ReadExactlyWhenPassed(states, events, a + 1, n, id, r, path);
      ReadBetweenFirst(states, events, a, n, id, path);
    }
  }

  /** An edit has its path among the dirty ones, at the place it had or at the end, and reads nothing. */
  lemma EditIsDirty(s: State, e: Event, id: string, path: string) returns (r: nat)
    requires Enabled(s, e) && TouchesSession(s, e, id, path)
    requires DistinctPathsOf(s, id) && ReadCount(s) <= |s.changes[id].dirty|
    ensures DirtyAt(Step(s, e), id, r, path) && ReadCount(Step(s, e)) == ReadCount(s)
    ensures path in s.changes[id].dirty[..ReadCount(s)] <==> r < ReadCount(s)
  {
    var dirty := s.changes[id].dirty;
    r := IndexOf(dirty, path);
    if path in dirty[..ReadCount(s)] {
      var i :| 0 <= i < ReadCount(s) && dirty[i] == path;
      assert i == r;
    }
    if r < ReadCount(s) {
      assert dirty[..ReadCount(s)][r] == path;
    }
  }

  ghost predicate IsStopped(s: State, id: string) { exists k :: 0 <= k < |s.stops| && s.stops[k].id == id }

  lemma StaysStopped(s: State, e: Event, id: string)
    requires Enabled(s, e) && IsStopped(s, id) && Step(s, e).active == Some(id) && s.active == Some(id)
    ensures IsStopped(Step(s, e), id)
  {
    var k :| 0 <= k < |s.stops| && s.stops[k].id == id;
    assert !e.StopEnds?;
    assert k < |Step(s, e).stops| && Step(s, e).stops[k].id == id;
  }

  lemma {:induction false} StoppedWhileActive(states: seq<State>, events: seq<Event>, m: nat, n: nat, id: string)
    requires IsRun(states, events) && m <= n <= |events| && IsStopped(states[m], id)
    requires id in states[m].changes && states[n].active == Some(id)
    ensures IsStopped(states[n], id)
    decreases n - m
  {
    if m < n {
      ActiveEarlier(states, events, m, n, id);
      ActiveNext(states, events, m, n, id);
      assert AdvancesAt(states, events, m);
      StaysStopped(states[m], events[m], id);
      ChangesStay(states, events, m, m + 1, id);
      StoppedWhileActive(states, events, m + 1, n, id);
    }
  }

  /** Once a stop of a session has begun no change on disk reaches the session, in any run. */
  lemma StopEndsWatching(states: seq<State>, events: seq<Event>, i: nat, n: nat, id: string)
    requires IsRun(states, events) && i < n < |events| && id in states[i].changes
    requires events[i].StopBegins? && states[i].active == Some(id) && states[n].active == Some(id)
    ensures !events[n].DiskChanged?
  {
    assert AdvancesAt(states, events, i) && AdvancesAt(states, events, n);
    ChangesStay(states, events, i, i + 1, id);
    assert states[i + 1].stops[|states[i].stops|].id == id;
    StoppedWhileActive(states, events, i + 1, n, id);
  }

  /** The end of a stop of the session `id`. */
  predicate EndsStopOf(s: State, e: Event, id: string) { e.StopEnds? && e.k < |s.stops| && s.stops[e.k].id == id }

  lemma EndedStopReadsAll(states: seq<State>, events: seq<Event>, n: nat, id: string)
    requires SerialRun(states, events) && n < |events| && EndsStopOf(states[n], events[n], id)
    ensures states[n].active == Some(id) && id in states[n].changes
    ensures ReadCount(states[n]) >= |states[n].changes[id].dirty|
  {
    assert AdvancesAt(states, events, n);
    SerialRunsAreOrderly(states, events, n);
  }

  ghost predicate ReadBefore(states: seq<State>, events: seq<Event>, n: int, id: string, read: Option<FileChange>)
    requires |states| == |events| + 1
  {
    exists j :: 0 <= j < n && ReadAt(states, events, j, id, read)
  }

  lemma ReadIsEventNext(states: seq<State>, events: seq<Event>, n: nat, id: string, read: Option<FileChange>)
    requires |states| == |events| + 1 && n < |events|
    requires read in SessionReads(states, events, n, id) <==> ReadBefore(states, events, n, id, read)
    ensures read in SessionReads(states, events, n + 1, id) <==> ReadBefore(states, events, n + 1, id, read)
  {
    assert SessionReads(states, events, n + 1, id)
        == SessionReads(states, events, n, id) + ReadsOf(states[n], events[n], id);
    assert ReadAt(states, events, n, id, read) <==> read in ReadsOf(states[n], events[n], id);
  }

  lemma {:induction false} ReadIsEvent(states: seq<State>, events: seq<Event>, m: nat, n: nat, id: string,
                                       read: Option<FileChange>)
    requires |states| == |events| + 1 && m <= n <= |events|
    requires read in SessionReads(states, events, m, id) <==> ReadBefore(states, events, m, id, read)
    ensures read in SessionReads(states, events, n, id) <==> ReadBefore(states, events, n, id, read)
    decreases n - m
  {
    if m < n {
      ReadIsEventNext(states, events, m, id, read);
      ReadIsEvent(states, events, m + 1, n, id, read);
    }
  }

  /** Event `j` is a read of the session with this outcome. */
  ghost predicate ReadAt(states: seq<State>, events: seq<Event>, j: int, id: string, read: Option<FileChange>)
    requires |states| == |events| + 1
  {
    && 0 <= j < |events| && events[j].StopReads? && CanRead(states[j], events[j].k)
    && states[j].stops[events[j].k].id == id
    && read == FileRead(states[j], events[j].k, events[j].current, events[j].language)
  }

  lemma {:induction false} KnownAre(found: seq<Option<FileChange>>, f: FileChange)
    ensures f in Known(found) <==> Some(f) in found
  {
    if found != [] {
      var front, last := found[..|found| - 1], found[|found| - 1];
      KnownAre(front, f);
      assert found == front + [last];
    }
  }

  /** A read of a session that is being stopped is a read of the active one, after its start. */
  lemma ReadIsOfActive(states: seq<State>, events: seq<Event>, a: nat, j: nat, id: string)
    requires SerialRun(states, events) && StartsAt(events, a, id) && j < |events|
    requires events[j].StopReads? && CanRead(states[j], events[j].k) && states[j].stops[events[j].k].id == id
    ensures a < j && states[j].active == Some(id)
  {
    SerialRunsAreOrderly(states, events, j);
    assert AdvancesAt(states, events, a);
    if j <= a {
      ChangesStay(states, events, j, a, id);
      assert false;
    }
  }

  lemma {:induction false} ChangesStay(states: seq<State>, events: seq<Event>, m: nat, n: nat, id: string)
    requires IsRun(states, events) && m <= n <= |events| && id in states[m].changes
    ensures id in states[n].changes
    decreases n - m
  {
    if m < n {
      assert AdvancesAt(states, events, m);
      ChangesStay(states, events, m + 1, n, id);
    }
  }

  /** Where a stop ends in a serial run, the session holds a file exactly for every read that knew both texts: the text
      of the snapshot or at the first edit, and the text when it was read. */
  lemma StoppedFilesAre(states: seq<State>, events: seq<Event>, a: nat, n: nat, id: string, f: FileChange)
    requires SerialRun(states, events) && StartsAt(events, a, id) && n < |events|
    requires EndsStopOf(states[n], events[n], id)
    ensures id in states[n].changes
    ensures f in states[n].changes[id].files <==> exists j :: j < n && ReadAs(states, events, a, j, id, f)
  {
    EndedStopReadsAll(states, events, n, id);
    ActiveHoldsReads(states, events, n, id);
    KnownAre(SessionReads(states, events, n, id), f);
    ReadIsEvent(states, events, 0, n, id, Some(f));
    if j :| 0 <= j < n && ReadAt(states, events, j, id, Some(f)) {
      ReadIsOfActive(states, events, a, j, id);
      ReadFinds(states, events, a, j, id, f);
      assert ReadAs(states, events, a, j, id, f);
    }
    if j :| j < n && ReadAs(states, events, a, j, id, f) {
      ReadIsOfActive(states, events, a, j, id);
      ReadFinds(states, events, a, j, id, f);
      assert ReadAt(states, events, j, id, Some(f));
    }
  }

  lemma EditStarts(states: seq<State>, events: seq<Event>, i: nat, id: string, path: string) returns (r: nat)
    requires SerialRun(states, events) && i < |events| && TouchesSession(states[i], events[i], id, path)
    ensures ReadCount(states[i]) <= |states[i].changes[id].dirty|
    ensures DirtyAt(states[i + 1], id, r, path) && ReadCount(states[i + 1]) == ReadCount(states[i])
    ensures path in states[i].changes[id].dirty[..ReadCount(states[i])] <==> r < ReadCount(states[i])
  {
    assert AdvancesAt(states, events, i);
    ActiveHoldsReads(states, events, i, id);
    r := EditIsDirty(states[i], events[i], id, path);
  }

  /** In every serial run, an edit that goes to a session is read before the stop of the session ends exactly when its
      path is not among those that the stop has read by then. */
  lemma EditIsReadExactlyWhen(states: seq<State>, events: seq<Event>, i: nat, n: nat, id: string, path: string)
    requires SerialRun(states, events) && i < n < |events| && TouchesSession(states[i], events[i], id, path)
    requires EndsStopOf(states[n], events[n], id)
    ensures ReadCount(states[i]) <= |states[i].changes[id].dirty|
    ensures ReadBetween(states, events, i + 1, n, id, path)
       <==> path !in states[i].changes[id].dirty[..ReadCount(states[i])]
  {
    var r := EditStarts(states, events, i, id, path);
    EndedStopReadsAll(states, events, n, id);
    ReadExactlyWhenPassed(states, events, i + 1, n, id, r, path);
  }

  function LateDocument(): Document { Document("p", "l", true, true, Some("w"), true) }

  function LateEvent(i: nat): Event {
    if i == 0 then Remembered("u", "0")
    else if i == 1 then SessionStarts("a", "w", map["p" := "0"], 0)
    else if i == 2 then Changed("u", "1", LateDocument(), "x", 0)
    else if i == 3 then StopBegins
    else if i == 4 then StopReads(0, Some("1"), "l")
    else if i == 5 then Changed("u", "2", LateDocument(), "x", 0)
    else StopEnds(0, AwaitReview)
  }

  function LateState(i: nat): State {
    var c := NewChange("w", 0, map["p" := "0"]);
    var touched := c.(dirty := ["p"]);
    var read := touched.(files := [FileChange("p", "l", "0", "1", 0)]);
    if i == 0 then Init(map[])
    else if i == 1 then Init(map["u" := "0"])
    else if i == 2 then Opened(map["a" := c], Some("a"), [], {}).(baselines := map["u" := "0"])
    else if i == 3 then Opened(map["a" := touched], Some("a"), [], {}).(baselines := map["u" := "1"])
    else if i == 4 then Opened(map["a" := touched], Some("a"), [Stop("a", 0)], {}).(baselines := map["u" := "1"])
    else if i == 5 then Opened(map["a" := read], Some("a"), [Stop("a", 1)], {}).(baselines := map["u" := "1"])
    else if i == 6 then Opened(map["a" := read], Some("a"), [Stop("a", 1)], {}).(baselines := map["u" := "2"])
    else Opened(map["a" := read], None, [], {}).(baselines := map["u" := "2"], queue := ["a"])
  }

  /** An edit in the session touches the one path it has. */
  lemma TouchingOne(s: State, e: Event, c: Change)
    requires e.Changed? && Captured(s, e) && s.active == Some("a") && s.changes == map["a" := c]
    requires c.root == e.doc.root.value && e.doc.path in c.baselines && c.deleted == {} && c.updatedAt == e.now
    ensures OnChanged(s, e) == s.(baselines := s.baselines[e.uri := e.after],
                                  changes := map["a" := c.(dirty := Add(c.dirty, e.doc.path))])
  {
    assert TouchedInEditor(c, e.doc.path, s.baselines[e.uri], e.now) == c.(dirty := Add(c.dirty, e.doc.path));
  }

  lemma LateReadFinds()
    ensures OnStopReads(LateState(4), 0, Some("1"), "l") == LateState(5)
  {
    var c := StoppedChange(LateState(4), 0);
    assert FileRead(LateState(4), 0, Some("1"), "l") == Some(FileChange("p", "l", "0", "1", 0));
    assert Merge([], FileChange("p", "l", "0", "1", 0)) == [FileChange("p", "l", "0", "1", 0)];
    assert OnStopReads(LateState(4), 0, Some("1"), "l").changes == LateState(5).changes;
  }

  lemma LateEditTouches(i: nat)
    requires i == 2 || i == 5
    ensures Advances(LateState(i), LateEvent(i), LateState(i + 1))
  {
    TouchingOne(LateState(i), LateEvent(i), LateState(i).changes["a"]);
    assert LateState(i).baselines["u" := LateEvent(i).after] == LateState(i + 1).baselines;
    assert Add(LateState(i).changes["a"].dirty, "p") == ["p"];
  }

  lemma LateStopEnds()
    ensures Advances(LateState(6), LateEvent(6), LateState(7))
  {
    assert !Empty(LateState(6), 0);
  }

  lemma LateRunAdvances(i: nat)
    requires i < 7
    ensures Advances(LateState(i), LateEvent(i), LateState(i + 1))
  {
    if i == 2 || i == 5 {
      LateEditTouches(i);
    } else if i == 4 {
      LateReadFinds();
    } else if i == 6 {
      LateStopEnds();
    }
  }

  /** The last edit of the document is the text that later edits start from, and no change holds it. */
  ghost predicate EditIsLost(s: State, uri: string) {
    && s.active.None? && uri in s.baselines
    && forall id, f :: id in s.changes && f in s.changes[id].files ==> f.after != s.baselines[uri]
  }

  function LateStates(): (states: seq<State>)
    ensures |states| == 8 && forall i :: 0 <= i < 8 ==> states[i] == LateState(i)
  {
    seq(8, i requires 0 <= i < 8 => LateState(i))
  }

  function LateEvents(): (events: seq<Event>)
    ensures |events| == 7 && forall i :: 0 <= i < 7 ==> events[i] == LateEvent(i)
  {
    seq(7, i requires 0 <= i < 7 => LateEvent(i))
  }

  lemma LateRunIsSerial()
    ensures SerialRun(LateStates(), LateEvents())
  {
    var states, events := LateStates(), LateEvents();
    forall i | 0 <= i < 7
      ensures AdvancesAt(states, events, i)
    {
      LateRunAdvances(i);
    }
    assert states[0] == LateState(0);
  }

  lemma LateEnd()
    ensures EditIsLost(LateState(7), "u")
  {
  }

  /** An edit of a path that a stop has read already goes to the session, is not read again, and is in no change. */
  lemma LateEditIsLost()
    ensures exists states, events ::
              SerialRun(states, events) && LateEvent(5) in events && EditIsLost(states[|events|], "u")
  {
    LateRunIsSerial();
    LateEnd();
    assert LateEvents()[5] == LateEvent(5) && LateStates()[7] == LateState(7);
    assert SerialRun(LateStates(), LateEvents()) && EditIsLost(LateStates()[|LateEvents()|], "u");
  }

  // ---------------------------------------------------------------- the tracker

  class Tracker {
    var baselines: map<string, string>
    var changes: map<string, Change>
    var heuristic: seq<Held>
    var timers: set<string>
    var queue: seq<string>
    var active: Option<string>
    var stops: seq<Stop>
    var recordings: seq<Recording>
    ghost var picked: set<string>
    ghost var settled: set<string>

    constructor (baselines: map<string, string>)
      ensures Now() == Init(baselines)
    {
      this.baselines, changes, heuristic, timers, queue := baselines, map[], [], {}, [];
      active, stops, recordings, picked, settled := None, [], [], {}, {};
    }

    ghost function Now(): State
      reads this
    {
      State(baselines, changes, heuristic, timers, queue, active, stops, recordings, picked, settled)
    }

    /** `schedule`: a timer of the workspace starts anew. */
    method Schedule(root: string)
      modifies this`timers
      ensures timers == old(timers) + {root}
    {
      timers := timers + {root};
    }

    /** `changed`. */
    method OnChange(uri: string, after: string, doc: Document, id: string, now: int)
      requires id !in changes
      modifies this
      ensures Now() == OnChanged(old(Now()), Changed(uri, after, doc, id, now))
    {
      var before := if uri in baselines then Some(baselines[uri]) else None;
      baselines := baselines[uri := after];
      if before.None? || before.value == after || !doc.capture || !doc.fits || doc.root.None? {
        return;
      }
      if active.Some? && active.value in changes && changes[active.value].root == doc.root.value {
        changes := changes[active.value := TouchedInEditor(changes[active.value], doc.path, before.value, now)];
        return;
      }
      if !doc.detect {
        return;
      }
      Gather(doc.root.value, FileChange(doc.path, doc.language, before.value, after, now), id);
    }

    method Gather(root: string, next: FileChange, id: string)
      modifies this`changes, this`heuristic, this`timers
      ensures var i := HeldIndex(old(heuristic), root);
              var target := if i < |old(heuristic)| then old(heuristic)[i].id else id;
              var change := if target in old(changes) then old(changes)[target] else NewChange(root, next.at, map[]);
              && changes == old(changes)[target := change.(files := Merge(change.files, next), updatedAt := next.at)]
              && heuristic == (if i < |old(heuristic)| then old(heuristic) else old(heuristic) + [Held(root, target)])
              && timers == old(timers) + {root}
    {
      var i := HeldIndex(heuristic, root);
      var target := id;
      if i < |heuristic| {
        target := heuristic[i].id;
      } else {
        heuristic := heuristic + [Held(root, id)];
      }
      var change := if target in changes then changes[target] else NewChange(root, next.at, map[]);
      changes := changes[target := change.(files := Merge(change.files, next), updatedAt := next.at)];
      Schedule(root);
    }

    /** The timer of a workspace fires. */
    method OnTimerFires(root: string)
      requires root in timers
      modifies this
      ensures Now() == OnTimer(old(Now()), root)
    {
      timers := timers - {root};
      var i := HeldIndex(heuristic, root);
      if i == |heuristic| {
        return;
      }
      var id := heuristic[i].id;
      heuristic := RemoveAt(heuristic, i);
      queue := queue + [id];
    }

    /** `finalize_heuristics`, the start of a review. */
    method FinalizeHeuristics()
      modifies this
      ensures Now() == Step(old(Now()), ReviewOpens)
    {
      ghost var was := heuristic;
      ghost var n := 0;
      while heuristic != []
        modifies this`queue, this`heuristic, this`timers
        invariant n <= |was| && heuristic == was[n..]
        invariant queue == old(queue) + HeldIds(was)[..n]
        invariant timers == old(timers) - HeldRoots(was[..n])
        decreases |heuristic|
      {
        var held := heuristic[0];
        queue := queue + [held.id];
        heuristic := heuristic[1..];
        timers := timers - {held.root};
        assert was[..n + 1] == was[..n] + [held];
        n := n + 1;
      }
      assert was[..n] == was;
    }

    /** `remove`, of a change that a review has selected: found by its id, and cut out of the queue. */
    method Remove(id: string)
      modifies this`queue
      ensures queue == RemoveFirst(old(queue), id)
    {
      var index := 0;
      while index < |queue| && queue[index] != id
        invariant 0 <= index <= IndexOf(queue, id)
      {
        index := index + 1;
      }
      if index < |queue| {
        queue := queue[..index] + queue[index + 1..];
      }
    }

    method DiscardEverything()
      modifies this
      ensures Now() == Step(old(Now()), DiscardAll)
    {
      settled := settled + (set id | id in queue) + (set id | id in HeldIds(heuristic));
      queue, heuristic, timers := [], [], {};
    }

    /** `track_disk_change` of the session that watches. */
    method OnDiskChange(path: string, kind: DiskKind, now: int)
      requires Watches(Now())
      modifies this`changes
      ensures Now() == Step(old(Now()), DiskChanged(path, kind, now))
    {
      var c := changes[active.value];
      c := c.(dirty := Add(c.dirty, path));
      if kind == Create {
        c := c.(created := c.created + {path}, deleted := c.deleted - {path});
      } else if kind == Delete {
        c := c.(deleted := c.deleted + {path});
      }
      changes := changes[active.value := c.(updatedAt := now)];
    }

    /** One round of `materialize_session`: the next path of the session, whose text may be known. */
    method ReadPath(k: nat, current: Option<string>, language: string)
      requires CanRead(Now(), k)
      modifies this`changes, this`stops
      ensures Now() == OnStopReads(old(Now()), k, current, language)
    {
      var id := stops[k].id;
      var c := changes[id];
      var path := c.dirty[stops[k].read];
      stops := stops[k := Stop(id, stops[k].read + 1)];
      var before := None;
      if path in c.baselines {
        before := Some(c.baselines[path]);
      } else if path in c.created {
        before := Some("");
      }
      var after := if path in c.deleted then Some("") else current;
      if before.None? || after.None? {
        assert changes == changes[id := c];
        return;
      }
      var next := FileChange(path, language, before.value, after.value, c.updatedAt);
      changes := changes[id := c.(files := Merge(c.files, next))];
    }

    /** `materialize_session`, if nothing comes between its rounds. */
    method Materialize(k: nat, texts: string -> Option<string>, languages: string -> string)
      requires IsStop(Now(), k) && stops[k].read <= |StoppedChange(Now(), k).dirty|
      modifies this`changes, this`stops
      ensures Now() == ReadRest(old(Now()), k, texts, languages)
    {
      while stops[k].read < |changes[stops[k].id].dirty|
        invariant IsStop(Now(), k) && stops[k].read <= |StoppedChange(Now(), k).dirty|
        invariant ReadRest(Now(), k, texts, languages) == ReadRest(old(Now()), k, texts, languages)
        decreases |changes[stops[k].id].dirty| - stops[k].read
      {
        var path := changes[stops[k].id].dirty[stops[k].read];
        ReadPath(k, texts(path), languages(path));
      }
    }

    /** What `stop` does once the session has been read, up to the end of the recording it may begin. */
    method FinishStop(k: nat, ending: Ending)
      requires IsStop(Now(), k)
      modifies this
      ensures Now() == OnStopEnds(old(Now()), k, ending)
    {
      var id := stops[k].id;
      stops := RemoveAt(stops, k);
      active := None;
      if changes[id].files == [] {
        settled := settled + {id};
        return;
      }
      Dispatch(id, ending);
    }

    method Dispatch(id: string, ending: Ending)
      modifies this`queue, this`recordings, this`settled
      ensures recordings == if ending.RecordNow? then old(recordings) + [Recording(id, true)] else old(recordings)
      ensures ending.NothingRendered? ==> queue == RemoveFirst(old(queue), id) && settled == old(settled) + {id}
      ensures ending.AwaitReview? ==> queue == old(queue) + [id] && settled == old(settled)
      ensures ending.RecordNow? ==> queue == old(queue) && settled == old(settled)
    {
      match ending
      case RecordNow => recordings := recordings + [Recording(id, true)];
      case AwaitReview => queue := queue + [id];
      case NothingRendered =>
        Remove(id);
        settled := settled + {id};
    }

    /** The end of a recording: once it is done the change leaves the queue; a stop queues its session on any error. */
    method FinishRecord(k: nat, result: RecordResult)
      requires k < |recordings|
      modifies this
      ensures Now() == OnRecordEnds(old(Now()), k, result)
    {
      var r := recordings[k];
      recordings := RemoveAt(recordings, k);
      if !result.RecordFails? {
        Remove(r.id);
        settled := settled + {r.id};
      }
      if !result.Recorded? && r.fromStop {
        queue := queue + [r.id];
      }
    }
  }
}
