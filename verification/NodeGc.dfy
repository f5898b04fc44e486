/** Background compaction of node files, as a protocol between readers, writers and workers.

    Readers hold the tree lock shared, capture a file's regions, and may register that capture as a
    compaction snapshot before they let the lock go. Writers hold the tree lock exclusively and wait
    until the file has no compaction in flight. Workers hold neither: they rewrite the file from the
    snapshot. A snapshot can be older than the file: a second reader may register what it captured
    before a first compaction finished.

    Stripe locks are left out, so the machine allows every real interleaving and more. */
module NodeGc {
  import opened Bytes
  import opened NodeFile
  import opened NodeLookup

  type FileId = seq<byte>
  type Tid = nat

  /** The two regions of a node file, as stored, cached or captured. */
  datatype File = File(sorted: seq<Raw>, unsorted: seq<Raw>)

  const EMPTY_FILE := File([], [])

  function Meaning(f: File): NodeMap {
    Fold(f.sorted, f.unsorted)
  }

  datatype Pc =
    | Idle
    // reading: tree lock held shared
    | ReadLocked(file: FileId)                            // about to look for a compaction in flight
    | ReadFile(file: FileId)                              // none seen: cache, then disk
    | ReadHave(file: FileId, view: File, fromGc: bool)    // regions captured
    | ReadDone
    // writing: tree lock held exclusively
    | WriteLocked(file: FileId, add: seq<Raw>)            // may have to wait for a compaction
    | WriteBlocked(file: FileId, add: seq<Raw>)           // registration of snapshots blocked
    | WriteReady(file: FileId, add: seq<Raw>)             // cache entry invalidated
    | WriteWritten(file: FileId)
    | WriteDone
    // full sweep: tree lock held exclusively
    | Sweeping

  predicate Reading(pc: Pc) {
    pc.ReadLocked? || pc.ReadFile? || pc.ReadHave? || pc.ReadDone?
  }

  predicate Exclusive(pc: Pc) {
    pc.WriteLocked? || pc.WriteBlocked? || pc.WriteReady? || pc.WriteWritten? || pc.WriteDone? || pc.Sweeping?
  }

  /** A compaction job, from the queue to the finish. */
  datatype Phase = Queued | Blocked | Invalidated | Written(file: File) | Cached | Released

  datatype Job = Job(snapshot: File, phase: Phase)

  datatype State = State(
    disk: map<FileId, File>,
    cache: map<FileId, File>,
    inFlight: map<FileId, File>,       // gcInFlight: the snapshot readers are served from
    jobs: map<FileId, Job>,            // queued or running workers
    writeBlocks: map<FileId, nat>,     // gcWriteBlocks
    pcs: map<Tid, Pc>,
    history: map<FileId, seq<Raw>>)    // every entry ever appended, in order; not part of the program

  function OnDisk(s: State, f: FileId): File {
    if f in s.disk then s.disk[f] else EMPTY_FILE
  }

  function Appended(s: State, f: FileId): seq<Raw> {
    if f in s.history then s.history[f] else []
  }

  function PcOf(s: State, t: Tid): Pc {
    if t in s.pcs then s.pcs[t] else Idle
  }

  predicate ReadersFree(s: State) {
    forall t :: t in s.pcs ==> !Exclusive(s.pcs[t])
  }

  predicate AllFree(s: State) {
    forall t :: t in s.pcs ==> !Exclusive(s.pcs[t]) && !Reading(s.pcs[t])
  }

  function Goto(s: State, t: Tid, pc: Pc): State {
    s.(pcs := s.pcs[t := pc])
  }

  function Block(s: State, f: FileId): (r: State)
    ensures r == s.(writeBlocks := r.writeBlocks)
  {
    s.(writeBlocks := s.writeBlocks[f := (if f in s.writeBlocks then s.writeBlocks[f] else 0) + 1])
  }

  function Unblock(s: State, f: FileId): (r: State)
    ensures r == s.(writeBlocks := r.writeBlocks)
  {
    if f in s.writeBlocks && s.writeBlocks[f] > 1 then s.(writeBlocks := s.writeBlocks[f := s.writeBlocks[f] - 1])
    else s.(writeBlocks := s.writeBlocks - {f})
  }

  function Register(s: State, f: FileId, snapshot: File): State {
    s.(inFlight := s.inFlight[f := snapshot], jobs := s.jobs[f := Job(snapshot, Queued)])
  }

  function SetPhase(s: State, f: FileId, phase: Phase): State
    requires f in s.jobs
  {
    s.(jobs := s.jobs[f := s.jobs[f].(phase := phase)])
  }

  datatype Step =
    | ReadBegin(t: Tid, f: FileId) | ReadCheck(t: Tid) | ReadLoad(t: Tid, keep: bool) | ReadSchedule(t: Tid, wanted: bool) | ReadEnd(t: Tid)
    | Evict(f: FileId)
    | WriteBegin(t: Tid, f: FileId, add: seq<Raw>) | WriteNext(t: Tid, f: FileId, add: seq<Raw>)
    | WriteWait(t: Tid) | WriteInvalidate(t: Tid) | WriteAppend(t: Tid) | WriteFail(t: Tid) | WriteRelease(t: Tid) | WriteEnd(t: Tid)
    | JobBlock(f: FileId) | JobInvalidate(f: FileId) | JobWrite(f: FileId, es: seq<NodeInfo>) | JobFail(f: FileId)
    | JobCache(f: FileId) | JobRelease(f: FileId) | JobFinish(f: FileId)
    | SweepBegin(t: Tid) | SweepRegister(t: Tid, f: FileId) | SweepEnd(t: Tid)

  /** Steps of threads that hold the tree lock shared. */
  ghost predicate ReaderNext(s: State, step: Step, s': State) {
    match step
    case ReadBegin(t, f) =>
      PcOf(s, t).Idle? && ReadersFree(s) && s' == Goto(s, t, ReadLocked(f))
    case ReadCheck(t) =>
      var pc := PcOf(s, t);
      pc.ReadLocked? && s' == Goto(s, t, if pc.file in s.inFlight then ReadHave(pc.file, s.inFlight[pc.file], true) else ReadFile(pc.file))
    case ReadLoad(t, keep) =>
      var pc := PcOf(s, t);
      pc.ReadFile? &&
      var view := if pc.file in s.cache then s.cache[pc.file] else OnDisk(s, pc.file);
      var s1 := if keep then s.(cache := s.cache[pc.file := view]) else s;
      s' == Goto(s1, t, ReadHave(pc.file, view, false))
    case ReadSchedule(t, wanted) =>
      var pc := PcOf(s, t);
      pc.ReadHave? &&
      var free := pc.file !in s.inFlight && (pc.file in s.writeBlocks ==> s.writeBlocks[pc.file] == 0);
      s' == Goto(if wanted && !pc.fromGc && pc.view.unsorted != [] && free then Register(s, pc.file, pc.view) else s, t, ReadDone)
    case ReadEnd(t) =>
      PcOf(s, t).ReadDone? && s' == Goto(s, t, Idle)
    case _ => false
  }

  /** Steps of threads that hold the tree lock exclusively. */
  ghost predicate WriterNext(s: State, step: Step, s': State) {
    match step
    case WriteBegin(t, f, add) =>
      PcOf(s, t).Idle? && AllFree(s) && s' == Goto(s, t, WriteLocked(f, add))
    case WriteNext(t, f, add) =>
      PcOf(s, t).WriteDone? && s' == Goto(s, t, WriteLocked(f, add))
    case WriteWait(t) =>
      var pc := PcOf(s, t);
      pc.WriteLocked? && pc.file !in s.inFlight && s' == Goto(Block(s, pc.file), t, WriteBlocked(pc.file, pc.add))
    case WriteInvalidate(t) =>
      var pc := PcOf(s, t);
      pc.WriteBlocked? && s' == Goto(s.(cache := s.cache - {pc.file}), t, WriteReady(pc.file, pc.add))
    case WriteAppend(t) =>
      var pc := PcOf(s, t);
      pc.WriteReady? &&
      var file := OnDisk(s, pc.file);
      var s1 := s.(disk := s.disk[pc.file := file.(unsorted := file.unsorted + pc.add)],
                   history := s.history[pc.file := Appended(s, pc.file) + pc.add]);
      s' == Goto(s1, t, WriteWritten(pc.file))
    case WriteFail(t) =>
      var pc := PcOf(s, t);
      pc.WriteReady? && s' == Goto(s, t, WriteWritten(pc.file))
    case WriteRelease(t) =>
      var pc := PcOf(s, t);
      pc.WriteWritten? && s' == Goto(Unblock(s, pc.file), t, WriteDone)
    case WriteEnd(t) =>
      PcOf(s, t).WriteDone? && s' == Goto(s, t, Idle)
    case SweepBegin(t) =>
      PcOf(s, t).Idle? && AllFree(s) && s' == Goto(s, t, Sweeping)
    case SweepRegister(t, f) =>
      PcOf(s, t).Sweeping? && f !in s.inFlight && OnDisk(s, f).unsorted != [] && s' == Register(s, f, OnDisk(s, f))
    case SweepEnd(t) =>
      PcOf(s, t).Sweeping? && s.inFlight == map[] && s' == Goto(s, t, Idle)
    case _ => false
  }

  /** Steps of compaction workers, and of the shared cache. */
  ghost predicate WorkerNext(s: State, step: Step, s': State) {
    match step
    case Evict(f) =>
      s' == s.(cache := s.cache - {f})
    case JobBlock(f) =>
      f in s.jobs && s.jobs[f].phase.Queued? && (f in s.inFlight ==> s.inFlight[f] == s.jobs[f].snapshot)
      && s' == SetPhase(Block(s, f), f, Blocked)
    case JobInvalidate(f) =>
      f in s.jobs && s.jobs[f].phase.Blocked? && s' == SetPhase(s.(cache := s.cache - {f}), f, Invalidated)
    case JobWrite(f, es) =>
      f in s.jobs && s.jobs[f].phase.Invalidated? && Lists(es, Meaning(s.jobs[f].snapshot)) &&
      var file := File(EncodeEntries(es), []);
      s' == SetPhase(s.(disk := s.disk[f := file]), f, Written(file))
    case JobFail(f) =>
      f in s.jobs && s.jobs[f].phase.Invalidated? && s' == SetPhase(s, f, Cached)
    case JobCache(f) =>
      f in s.jobs && s.jobs[f].phase.Written? && s' == SetPhase(s.(cache := s.cache[f := s.jobs[f].phase.file]), f, Cached)
    case JobRelease(f) =>
      f in s.jobs && s.jobs[f].phase.Cached? && s' == SetPhase(Unblock(s, f), f, Released)
    case JobFinish(f) =>
      f in s.jobs && s.jobs[f].phase.Released? && s' == s.(inFlight := s.inFlight - {f}, jobs := s.jobs - {f})
    case _ => false
  }

  ghost predicate Next(s: State, s': State) {
    exists step :: ReaderNext(s, step, s') || WriterNext(s, step, s') || WorkerNext(s, step, s')
  }

  ghost predicate Init(s: State) {
    s == State(map[], map[], map[], map[], map[], map[], map[])
  }

  // ----- the invariant

  /** The file means what its history means, and its sorted region is fit for binary search. */
  ghost predicate Means(file: File, hist: seq<Raw>) {
    Meaning(file) == FoldUnsorted(map[], hist) && SortedRegion(file.sorted)
  }

  ghost predicate FileInv(s: State, f: FileId) {
    var h := Appended(s, f);
    && Means(OnDisk(s, f), h)
    && (f in s.cache ==> Means(s.cache[f], h))
    && (f in s.inFlight <==> f in s.jobs)
    && (f in s.inFlight ==> Means(s.inFlight[f], h) && s.jobs[f].snapshot == s.inFlight[f])
    && (f in s.jobs && s.jobs[f].phase.Written? ==> Means(s.jobs[f].phase.file, h))
  }

  ghost predicate ThreadInv(s: State, t: Tid) {
    var pc := PcOf(s, t);
    && (pc.ReadHave? ==> Means(pc.view, Appended(s, pc.file)))
    && (pc.WriteBlocked? || pc.WriteReady? || pc.WriteWritten? ==> pc.file !in s.inFlight)
    && (pc.WriteReady? ==> pc.file !in s.cache)
  }

  ghost predicate LockInv(s: State) {
    forall t, u :: t != u && Exclusive(PcOf(s, t)) ==> !Exclusive(PcOf(s, u)) && !Reading(PcOf(s, u))
  }

  ghost predicate Inv(s: State) {
    && LockInv(s)
    && (forall f :: FileInv(s, f))
    && (forall t :: ThreadInv(s, t))
  }

  lemma AppendMeans(file: File, hist: seq<Raw>, add: seq<Raw>)
    requires Means(file, hist)
    ensures Means(file.(unsorted := file.unsorted + add), hist + add)
  {
    hide FoldSorted, FoldUnsorted, SortedRegion;
    FoldUnsortedConcat(FoldSorted(map[], file.sorted), file.unsorted, add);
    FoldUnsortedConcat(map[], hist, add);
  }

  lemma CompactMeans(file: File, hist: seq<Raw>, es: seq<NodeInfo>)
    requires Means(file, hist) && Lists(es, Meaning(file))
    ensures Means(File(EncodeEntries(es), []), hist)
  {
    hide FoldSorted, FoldUnsorted, SortedRegion, EncodeEntries, Stored;
    CompactionPreservesFold(file.sorted, file.unsorted, es);
    FoldSortedStored(map[], file.sorted) by { EmptyStored(); }
    FoldUnsortedStored(FoldSorted(map[], file.sorted), file.unsorted);
    ListingIsSortedRegion(es, Meaning(file));
  }

  lemma EmptyStored()
    ensures Stored(map[])
  {
  }

  lemma InitInv(s: State)
    requires Init(s)
    ensures Inv(s)
  {
    FoldEmpty(map[]);
  }

  /** A thread changes sides only when the tree lock allows it. */
  lemma LocksKept(s: State, s': State, t: Tid)
    requires LockInv(s)
    requires forall u :: u != t ==> PcOf(s', u) == PcOf(s, u)
    requires Exclusive(PcOf(s', t)) ==> Exclusive(PcOf(s, t)) || AllFree(s)
    requires Reading(PcOf(s', t)) ==> Reading(PcOf(s, t)) || ReadersFree(s)
    ensures LockInv(s')
  {
    forall a, b | a != b && Exclusive(PcOf(s', a)) ensures !Exclusive(PcOf(s', b)) && !Reading(PcOf(s', b)) {
      if a != t && b != t {
        assert Exclusive(PcOf(s, a));
      }
    }
  }

  lemma ReaderKeepsFiles(s: State, step: Step, s': State, f: FileId, t: Tid)
    requires ReaderNext(s, step, s') && t == step.t && FileInv(s, f) && ThreadInv(s, t)
    ensures FileInv(s', f) && Appended(s', f) == Appended(s, f)
  {
    hide Means, FileInv, ReaderNext;
    var pc, s1 := PcOf(s, t), s'.(pcs := s.pcs);
    ReaderStores(s, step, s', t);
    CachedView(s, f, if pc.ReadFile? then pc.file else f);
    if pc.ReadHave? {
      RegisteredView(s, f, pc.file, pc.view);
    }
    SameFiles(s1, s', f);
  }

  /** What a reader's step changes besides where the reader is. */
  lemma ReaderStores(s: State, step: Step, s': State, t: Tid)
    requires ReaderNext(s, step, s') && t == step.t
    ensures var pc, s1 := PcOf(s, t), s'.(pcs := s.pcs);
            || s1 == s
            || (pc.ReadFile? && s1 == s.(cache := s.cache[pc.file := if pc.file in s.cache then s.cache[pc.file] else OnDisk(s, pc.file)]))
            || (pc.ReadHave? && s1 == Register(s, pc.file, pc.view))
  {
    hide Exclusive, Reading;
  }

  /** Which thread does what next does not matter to the files. */
  lemma SameFiles(s: State, s': State, f: FileId)
    requires s'.disk == s.disk && s'.cache == s.cache && s'.inFlight == s.inFlight && s'.jobs == s.jobs && s'.history == s.history
    ensures FileInv(s, f) ==> FileInv(s', f)
    ensures Appended(s', f) == Appended(s, f)
  {
    hide Means;
  }

  /** Caching what a reader loaded. */
  lemma CachedView(s: State, f: FileId, g: FileId)
    requires FileInv(s, f)
    ensures FileInv(s.(cache := s.cache[g := if g in s.cache then s.cache[g] else OnDisk(s, g)]), f)
  {
    hide Means;
  }

  /** Registering a captured view as a snapshot. */
  lemma RegisteredView(s: State, f: FileId, g: FileId, view: File)
    requires FileInv(s, f) && (f == g ==> Means(view, Appended(s, f)))
    ensures FileInv(Register(s, g, view), f)
  {
    hide Means;
  }

  lemma ReaderKeepsInv(s: State, step: Step, s': State)
    requires Inv(s) && ReaderNext(s, step, s')
    ensures Inv(s')
  {
    hide Means, FileInv, ThreadInv;
    assert step.ReadBegin? || step.ReadCheck? || step.ReadLoad? || step.ReadSchedule? || step.ReadEnd?;
    var t := step.t;
    forall f ensures FileInv(s', f) && Appended(s', f) == Appended(s, f) { ReaderKeepsFiles(s, step, s', f, t); }
    LocksKept(s, s', t);
    forall u ensures ThreadInv(s', u) {
      assert u != t && Reading(PcOf(s, t)) ==> !Exclusive(PcOf(s, u));
      if PcOf(s, t).ReadLocked? || PcOf(s, t).ReadFile? {
        assert FileInv(s, PcOf(s, t).file);
      }
      ReaderKeepsThreads(s, step, s', u, t);
    }
  }

  lemma ReaderKeepsThreads(s: State, step: Step, s': State, u: Tid, t: Tid)
    requires ReaderNext(s, step, s') && t == step.t && ThreadInv(s, u)
    requires u != t && Reading(PcOf(s, t)) ==> !Exclusive(PcOf(s, u))
    requires PcOf(s, t).ReadLocked? || PcOf(s, t).ReadFile? ==> FileInv(s, PcOf(s, t).file)
    ensures ThreadInv(s', u)
  {
    hide Means, ReaderNext, FileInv, ThreadInv;
    if u == t {
      ReaderKeepsItself(s, step, s', t);
    } else {
      ReaderKeepsOther(s, step, s', u, t);
    }
  }

  lemma ReaderKeepsItself(s: State, step: Step, s': State, t: Tid)
    requires ReaderNext(s, step, s') && t == step.t && ThreadInv(s, t)
    requires PcOf(s, t).ReadLocked? || PcOf(s, t).ReadFile? ==> FileInv(s, PcOf(s, t).file)
    ensures ThreadInv(s', t)
  {
    hide Means, Exclusive, Reading;
  }

  lemma ReaderKeepsOther(s: State, step: Step, s': State, u: Tid, t: Tid)
    requires ReaderNext(s, step, s') && t == step.t && u != t && ThreadInv(s, u)
    requires Reading(PcOf(s, t)) ==> !Exclusive(PcOf(s, u))
    ensures ThreadInv(s', u)
  {
    hide Means, ReadersFree, OnDisk;
  }

  lemma WriterKeepsInv(s: State, step: Step, s': State)
    requires Inv(s) && WriterNext(s, step, s')
    ensures Inv(s')
  {
    forall f ensures FileInv(s', f) { WriterKeepsFiles(s, step, s', f); }
    forall u ensures ThreadInv(s', u) { WriterKeepsThreads(s, step, s', u); }
    hide FileInv, ThreadInv, LockInv, WriterNext;
    WriterKeepsLocks(s, step, s');
  }

  lemma WriterKeepsLocks(s: State, step: Step, s': State)
    requires LockInv(s) && WriterNext(s, step, s')
    ensures LockInv(s')
  {
    hide LockInv, WriterNext, AllFree, ReadersFree;
    WriterIsThread(s, step, s');
    forall u | u != step.t ensures PcOf(s', u) == PcOf(s, u) {
      WriterMovesAlone(s, step, s', u, step.t);
    }
    WriterTakesLock(s, step, s', step.t);
    LocksKept(s, s', step.t);
  }

  lemma WriterMovesAlone(s: State, step: Step, s': State, u: Tid, t: Tid)
    requires WriterNext(s, step, s') && t == step.t && u != t
    ensures PcOf(s', u) == PcOf(s, u)
  {
    hide AllFree, OnDisk, Appended, Block, Unblock;
  }

  lemma WriterTakesLock(s: State, step: Step, s': State, t: Tid)
    requires WriterNext(s, step, s') && t == step.t
    ensures Exclusive(PcOf(s', t)) ==> Exclusive(PcOf(s, t)) || AllFree(s)
    ensures !Reading(PcOf(s', t))
  {
    hide AllFree, OnDisk, Appended, Block, Unblock;
  }

  lemma WriterKeepsFiles(s: State, step: Step, s': State, f: FileId)
    requires Inv(s) && WriterNext(s, step, s')
    ensures FileInv(s', f)
  {
    hide Means, LockInv;
    var pc := PcOf(s, step.t);
    assert ThreadInv(s, step.t) && FileInv(s, f);
    if step.WriteAppend? && f == pc.file {
      AppendMeans(OnDisk(s, f), Appended(s, f), pc.add);
    }
  }

  lemma WriterKeepsThreads(s: State, step: Step, s': State, u: Tid)
    requires Inv(s) && WriterNext(s, step, s')
    ensures ThreadInv(s', u)
  {
    hide Means, FileInv, ThreadInv, WriterNext;
    WriterIsThread(s, step, s');
    WriterKeepsThread(s, step, s', u, step.t);
  }

  lemma WriterIsThread(s: State, step: Step, s': State)
    requires WriterNext(s, step, s')
    ensures step.WriteBegin? || step.WriteNext? || step.WriteWait? || step.WriteInvalidate? || step.WriteAppend? || step.WriteFail?
         || step.WriteRelease? || step.WriteEnd? || step.SweepBegin? || step.SweepRegister? || step.SweepEnd?
  {
  }

  lemma WriterKeepsThread(s: State, step: Step, s': State, u: Tid, t: Tid)
    requires WriterNext(s, step, s') && t == step.t && ThreadInv(s, t) && ThreadInv(s, u)
    requires u != t && Exclusive(PcOf(s, t)) ==> !Exclusive(PcOf(s, u)) && !Reading(PcOf(s, u))
    ensures ThreadInv(s', u)
  {
    hide Means;
  }

  predicate SameAt<T(==)>(a: map<FileId, T>, b: map<FileId, T>, g: FileId) {
    (g in a <==> g in b) && (g in a ==> a[g] == b[g])
  }

  /** A worker step touches one file and no thread. */
  lemma WorkerFrame(s: State, step: Step, s': State, g: FileId)
    requires WorkerNext(s, step, s')
    ensures s'.pcs == s.pcs && s'.history == s.history
    ensures g in s'.inFlight ==> g in s.inFlight
    ensures g in s'.cache ==> g in s.cache || g in s.jobs
  {
    hide EncodeEntries, Lists, Meaning, Block, Unblock;
  }

  lemma WorkerOthers(s: State, step: Step, s': State, g: FileId)
    requires WorkerNext(s, step, s')
    ensures g != step.f ==> SameAt(s.disk, s'.disk, g) && SameAt(s.cache, s'.cache, g)
  {
    hide EncodeEntries, Lists, Meaning, Block, Unblock;
  }

  lemma WorkerOtherJobs(s: State, step: Step, s': State, g: FileId)
    requires WorkerNext(s, step, s')
    ensures g != step.f ==> SameAt(s.inFlight, s'.inFlight, g) && SameAt(s.jobs, s'.jobs, g)
  {
    hide EncodeEntries, Lists, Meaning, Block, Unblock;
  }

  lemma WorkerKeepsInv(s: State, step: Step, s': State)
    requires Inv(s) && WorkerNext(s, step, s')
    ensures Inv(s')
  {
    forall g ensures FileInv(s', g) {
      if g == step.f { WorkerKeepsFile(s, step, s'); } else { WorkerKeepsOthers(s, step, s', g); }
    }
    hide Means, WorkerNext, FileInv, ThreadInv, LockInv;
    WorkerFrame(s, step, s', []);
    SameLocks(s, s');
    forall u ensures ThreadInv(s', u) {
      var pc := PcOf(s, u);
      if pc.WriteBlocked? || pc.WriteReady? || pc.WriteWritten? {
        assert FileInv(s, pc.file);
      }
      WorkerKeepsThread(s, step, s', u);
    }
  }

  lemma SameLocks(s: State, s': State)
    requires s'.pcs == s.pcs
    ensures LockInv(s) ==> LockInv(s')
  {
    assert forall t :: PcOf(s', t) == PcOf(s, t);
  }

  lemma WorkerKeepsThread(s: State, step: Step, s': State, u: Tid)
    requires WorkerNext(s, step, s') && ThreadInv(s, u)
    requires var pc := PcOf(s, u); pc.WriteBlocked? || pc.WriteReady? || pc.WriteWritten? ==> FileInv(s, pc.file)
    ensures ThreadInv(s', u)
  {
    hide Means, WorkerNext;
    var pc := PcOf(s, u);
    WorkerFrame(s, step, s', []);
    if pc.WriteBlocked? || pc.WriteReady? || pc.WriteWritten? {
      WorkerFrame(s, step, s', pc.file);
    }
  }

  lemma WorkerKeepsOthers(s: State, step: Step, s': State, g: FileId)
    requires Inv(s) && WorkerNext(s, step, s') && g != step.f
    ensures FileInv(s', g)
  {
    hide Means, LockInv, ThreadInv, WorkerNext;
    assert FileInv(s, g);
    WorkerFrame(s, step, s', g);
    WorkerOthers(s, step, s', g);
    WorkerOtherJobs(s, step, s', g);
  }

  lemma WorkerKeepsFile(s: State, step: Step, s': State)
    requires Inv(s) && WorkerNext(s, step, s')
    ensures FileInv(s', step.f)
  {
    hide Means, EncodeEntries, Lists, Block, Unblock, ThreadInv, LockInv;
    assert FileInv(s, step.f);
    hide Inv;
    match step
    case JobWrite(f, es) => CompactMeans(s.jobs[f].snapshot, Appended(s, f), es);
    case _ =>
  }

  /** A run: any number of steps of any threads, in any order. */
  ghost predicate Run(states: seq<State>) {
    && states != []
    && Init(states[0])
    && forall i :: 0 <= i < |states| - 1 ==> Next(states[i], states[i + 1])
  }

  lemma {:induction false} RunKeepsInv(states: seq<State>, i: nat)
    requires Run(states) && i < |states|
    ensures Inv(states[i])
  {
    hide Inv, Init, ReaderNext, WriterNext, WorkerNext;
    if i == 0 {
      InitInv(states[0]);
    } else {
      RunKeepsInv(states, i - 1);
      var s, s' := states[i - 1], states[i];
      assert Next(states[i - 1], states[i - 1 + 1]);
      var step :| ReaderNext(s, step, s') || WriterNext(s, step, s') || WorkerNext(s, step, s');
      if ReaderNext(s, step, s') {
        ReaderKeepsInv(s, step, s');
      } else if WriterNext(s, step, s') {
        WriterKeepsInv(s, step, s');
      } else {
        WorkerKeepsInv(s, step, s');
      }
    }
  }

  /** No interleaving loses or resurrects an append: at every moment each file on disk, each cached
      copy, each snapshot in flight and each reader's capture folds to everything ever appended. */
  lemma NothingLostOrResurrected(states: seq<State>, i: nat, f: FileId, t: Tid)
    requires Run(states) && i < |states|
    ensures var s := states[i];
            var all := FoldUnsorted(map[], Appended(s, f));
            && Meaning(OnDisk(s, f)) == all
            && (f in s.cache ==> Meaning(s.cache[f]) == all)
            && (f in s.inFlight ==> Meaning(s.inFlight[f]) == all)
            && (PcOf(s, t).ReadHave? && PcOf(s, t).file == f ==> Meaning(PcOf(s, t).view) == all)
  {
    hide FoldUnsorted, FoldSorted, SortedRegion;
    RunKeepsInv(states, i);
    assert FileInv(states[i], f) && ThreadInv(states[i], t);
  }

  // ----- what was asked is what is done

  /** A run together with the steps it took. */
  ghost predicate Trace(states: seq<State>, steps: seq<Step>) {
    && |states| == |steps| + 1 && Init(states[0])
    && forall i :: 0 <= i < |steps| ==> Took(states[i], steps[i], states[i + 1])
  }

  ghost predicate Took(s: State, step: Step, s': State) {
    ReaderNext(s, step, s') || WriterNext(s, step, s') || WorkerNext(s, step, s')
  }

  lemma TraceIsRun(states: seq<State>, steps: seq<Step>)
    requires Trace(states, steps)
    ensures Run(states)
  {
    hide ReaderNext, WriterNext, WorkerNext, Init;
    forall i | 0 <= i < |states| - 1 ensures Next(states[i], states[i + 1]) {
      assert Took(states[i], steps[i], states[i + 1]);
    }
  }

  /** The history of a file grows by appends to it and by nothing else. */
  lemma OnlyAppendsGrow(s: State, step: Step, s': State, f: FileId)
    requires Took(s, step, s')
    ensures !step.WriteAppend? ==> Appended(s', f) == Appended(s, f)
    ensures step.WriteAppend? ==>
              var pc := PcOf(s, step.t);
              pc.WriteReady? && Appended(s', f) == Appended(s, f) + (if pc.file == f then pc.add else [])
  {
    hide ReaderNext, WriterNext, WorkerNext;
    if ReaderNext(s, step, s') {
      ReadersKeepHistory(s, step, s');
    } else if WriterNext(s, step, s') {
      WriterGrowsHistory(s, step, s', f);
    } else {
      WorkerFrame(s, step, s', []);
      WorkersDoNotAppend(s, step, s');
    }
  }

  lemma ReadersKeepHistory(s: State, step: Step, s': State)
    requires ReaderNext(s, step, s')
    ensures s'.history == s.history && !step.WriteAppend?
  {
    hide ReadersFree, OnDisk;
  }

  lemma WorkersDoNotAppend(s: State, step: Step, s': State)
    requires WorkerNext(s, step, s')
    ensures !step.WriteAppend?
  {
  }

  lemma WriterGrowsHistory(s: State, step: Step, s': State, f: FileId)
    requires WriterNext(s, step, s')
    ensures !step.WriteAppend? ==> Appended(s', f) == Appended(s, f)
    ensures step.WriteAppend? ==>
              var pc := PcOf(s, step.t);
              pc.WriteReady? && Appended(s', f) == Appended(s, f) + (if pc.file == f then pc.add else [])
  {
    hide AllFree, OnDisk, Block, Unblock;
  }

  /** A thread on its way to an append of `add` to `f`. */
  predicate Bringing(pc: Pc, f: FileId, add: seq<Raw>) {
    (pc.WriteLocked? || pc.WriteBlocked? || pc.WriteReady?) && pc.file == f && pc.add == add
  }

  lemma StillBringing(s: State, step: Step, s': State, t: Tid, f: FileId, add: seq<Raw>)
    requires Took(s, step, s') && Bringing(PcOf(s, t), f, add) && step != WriteAppend(t) && step != WriteFail(t)
    ensures Bringing(PcOf(s', t), f, add)
  {
    hide ReaderNext, WriterNext, WorkerNext;
    if ReaderNext(s, step, s') {
      ReadersLeaveWriters(s, step, s', t);
    } else if WriterNext(s, step, s') {
      WriterStillBrings(s, step, s', t, f, add);
    } else {
      WorkerFrame(s, step, s', []);
    }
  }

  lemma ReadersLeaveWriters(s: State, step: Step, s': State, u: Tid)
    requires ReaderNext(s, step, s') && Exclusive(PcOf(s, u))
    ensures PcOf(s', u) == PcOf(s, u)
  {
    hide ReadersFree, OnDisk, Appended;
  }

  lemma WritersLeaveReaders(s: State, step: Step, s': State, u: Tid)
    requires WriterNext(s, step, s') && Reading(PcOf(s, u))
    ensures PcOf(s', u) == PcOf(s, u)
  {
    hide AllFree, Block, Unblock, OnDisk, Appended;
  }

  lemma WriterStillBrings(s: State, step: Step, s': State, t: Tid, f: FileId, add: seq<Raw>)
    requires WriterNext(s, step, s') && Bringing(PcOf(s, t), f, add) && step != WriteAppend(t) && step != WriteFail(t)
    ensures Bringing(PcOf(s', t), f, add)
  {
    hide AllFree, Block, Unblock, OnDisk, Appended;
  }

  /** While a writer holds the tree lock no other thread appends. */
  lemma OthersWait(s: State, step: Step, s': State, t: Tid, f: FileId)
    requires LockInv(s) && Took(s, step, s') && Exclusive(PcOf(s, t)) && step != WriteAppend(t)
    ensures Appended(s', f) == Appended(s, f)
  {
    hide ReaderNext, WriterNext, WorkerNext;
    OnlyAppendsGrow(s, step, s', f);
    if step.WriteAppend? {
      assert step.t != t && Exclusive(PcOf(s, step.t));
    }
  }

  lemma BeginsToBring(s: State, step: Step, s': State, t: Tid, f: FileId, add: seq<Raw>)
    requires Took(s, step, s') && (step == WriteBegin(t, f, add) || step == WriteNext(t, f, add))
    ensures Bringing(PcOf(s', t), f, add)
  {
    hide AllFree, ReaderNext, WorkerNext;
    assert WriterNext(s, step, s') by { OnlyWriters(s, step, s'); }
  }

  lemma OnlyWriters(s: State, step: Step, s': State)
    requires step.WriteBegin? || step.WriteNext?
    ensures !ReaderNext(s, step, s') && !WorkerNext(s, step, s')
  {
  }

  /** From the begin of a write to its append, or its failure, the thread brings what it was given
      and the histories stand still. */
  lemma {:induction false} BringsUntil(states: seq<State>, steps: seq<Step>, i: nat, m: nat, t: Tid, f: FileId, add: seq<Raw>, g: FileId)
    requires Trace(states, steps) && i < m < |states|
    requires steps[i] == WriteBegin(t, f, add) || steps[i] == WriteNext(t, f, add)
    requires forall j :: i < j < m ==> steps[j] != WriteAppend(t) && steps[j] != WriteFail(t)
    ensures Bringing(PcOf(states[m], t), f, add) && Appended(states[m], g) == Appended(states[i], g)
    decreases m
  {
    hide ReaderNext, WriterNext, WorkerNext, Init, Inv;
    var s, step, s' := states[m - 1], steps[m - 1], states[m - 1 + 1];
    assert Took(s, step, s');
    OnlyAppendsGrow(s, step, s', g);
    if m - 1 == i {
      BeginsToBring(s, step, s', t, f, add);
    } else {
      BringsUntil(states, steps, i, m - 1, t, f, add, g);
      StillBringing(s, step, s', t, f, add);
      TraceIsRun(states, steps);
      RunKeepsInv(states, m - 1);
      assert LockInv(s) by { InvLocks(s); }
      OthersWait(s, step, s', t, g);
    }
  }

  lemma InvLocks(s: State)
    requires Inv(s)
    ensures LockInv(s)
  {
  }

  /** What a write was given is what its append adds to the history of its file, and only to that. */
  lemma WriteReachesHistory(states: seq<State>, steps: seq<Step>, i: nat, m: nat, t: Tid, f: FileId, add: seq<Raw>, g: FileId)
    requires Trace(states, steps) && i < m < |steps|
    requires steps[i] == WriteBegin(t, f, add) || steps[i] == WriteNext(t, f, add)
    requires steps[m] == WriteAppend(t)
    requires forall j :: i < j < m ==> steps[j] != WriteAppend(t) && steps[j] != WriteFail(t)
    ensures Appended(states[m + 1], g) == Appended(states[i], g) + (if g == f then add else [])
  {
    hide ReaderNext, WriterNext, WorkerNext, Init;
    BringsUntil(states, steps, i, m, t, f, add, g);
    assert Took(states[m], steps[m], states[m + 1]);
    OnlyAppendsGrow(states[m], steps[m], states[m + 1], g);
  }

  /** A reader that has regions has those of the file it asked for. */
  lemma {:induction false} ReaderHasItsFile(states: seq<State>, steps: seq<Step>, i: nat, m: nat, t: Tid, f: FileId)
    requires Trace(states, steps) && i < m < |states| && steps[i] == ReadBegin(t, f)
    requires forall j :: i < j < m ==> steps[j] != ReadEnd(t)
    ensures var pc := PcOf(states[m], t);
            Reading(pc) && (pc.ReadDone? || pc.file == f)
    decreases m
  {
    hide ReaderNext, WriterNext, WorkerNext, Init;
    assert Took(states[m - 1], steps[m - 1], states[m - 1 + 1]);
    if m - 1 == i {
      BeginsToRead(states[i], steps[i], states[i + 1], t, f);
    } else {
      ReaderHasItsFile(states, steps, i, m - 1, t, f);
      StillReading(states[m - 1], steps[m - 1], states[m], t, f);
    }
  }

  lemma BeginsToRead(s: State, step: Step, s': State, t: Tid, f: FileId)
    requires Took(s, step, s') && step == ReadBegin(t, f)
    ensures PcOf(s', t) == ReadLocked(f)
  {
    hide AllFree, ReadersFree;
  }

  lemma StillReading(s: State, step: Step, s': State, t: Tid, f: FileId)
    requires Took(s, step, s') && step != ReadEnd(t) && Reading(PcOf(s, t)) && (PcOf(s, t).ReadDone? || PcOf(s, t).file == f)
    ensures Reading(PcOf(s', t)) && (PcOf(s', t).ReadDone? || PcOf(s', t).file == f)
  {
    hide ReaderNext, WriterNext, WorkerNext;
    if ReaderNext(s, step, s') {
      ReaderStillReads(s, step, s', t, f);
    } else if WriterNext(s, step, s') {
      WritersLeaveReaders(s, step, s', t);
    } else {
      WorkerFrame(s, step, s', []);
    }
  }

  lemma ReaderStillReads(s: State, step: Step, s': State, t: Tid, f: FileId)
    requires ReaderNext(s, step, s') && step != ReadEnd(t) && Reading(PcOf(s, t)) && (PcOf(s, t).ReadDone? || PcOf(s, t).file == f)
    ensures Reading(PcOf(s', t)) && (PcOf(s', t).ReadDone? || PcOf(s', t).file == f)
  {
    hide ReadersFree, OnDisk, Appended;
  }

  /** A compaction leaves one sorted region. */
  lemma CompactionCompacts(s: State, step: Step, s': State)
    requires Took(s, step, s') && step.JobWrite?
    ensures var file := OnDisk(s', step.f);
            file.unsorted == [] && |file.sorted| == |step.es| && step.f in s.jobs && Lists(step.es, Meaning(s.jobs[step.f].snapshot))
  {
    hide Lists, Meaning;
  }

  // ----- snapshots and write blocks

  /** A snapshot in flight stays as it is until its job finishes. */
  lemma SnapshotStays(s: State, step: Step, s': State, f: FileId)
    requires Took(s, step, s') && f in s.inFlight
    ensures if step == JobFinish(f) then f !in s'.inFlight else f in s'.inFlight && s'.inFlight[f] == s.inFlight[f]
  {
    hide ReaderNext, WriterNext, WorkerNext;
    if ReaderNext(s, step, s') {
      ReaderRegisters(s, step, s', f);
    } else if WriterNext(s, step, s') {
      WriterRegisters(s, step, s', f);
    } else {
      WorkerFinishes(s, step, s', f);
    }
  }

  /** Only a reader that has seen an append region, or a sweep that finds one on disk, starts a compaction. */
  lemma CompactionStarts(s: State, step: Step, s': State, f: FileId)
    requires Took(s, step, s') && f !in s.inFlight && f in s'.inFlight
    ensures s'.inFlight[f].unsorted != [] && f in s'.jobs && s'.jobs[f] == Job(s'.inFlight[f], Queued)
    ensures || (step.SweepRegister? && s'.inFlight[f] == OnDisk(s, f))
            || (step.ReadSchedule? && step.wanted && PcOf(s, step.t) == ReadHave(f, s'.inFlight[f], false))
  {
    hide ReaderNext, WriterNext, WorkerNext;
    if ReaderNext(s, step, s') {
      ReaderRegisters(s, step, s', f);
    } else if WriterNext(s, step, s') {
      WriterRegisters(s, step, s', f);
    } else {
      WorkerFinishes(s, step, s', f);
    }
  }

  lemma ReaderRegisters(s: State, step: Step, s': State, f: FileId)
    requires ReaderNext(s, step, s')
    ensures f in s.inFlight ==> f in s'.inFlight && s'.inFlight[f] == s.inFlight[f]
    ensures f !in s.inFlight && f in s'.inFlight ==>
              && s'.inFlight[f].unsorted != [] && f in s'.jobs && s'.jobs[f] == Job(s'.inFlight[f], Queued)
              && step.ReadSchedule? && step.wanted && PcOf(s, step.t) == ReadHave(f, s'.inFlight[f], false)
    ensures step != JobFinish(f)
  {
    hide ReadersFree, OnDisk;
  }

  lemma WriterRegisters(s: State, step: Step, s': State, f: FileId)
    requires WriterNext(s, step, s')
    ensures f in s.inFlight ==> f in s'.inFlight && s'.inFlight[f] == s.inFlight[f]
    ensures f !in s.inFlight && f in s'.inFlight ==>
              && s'.inFlight[f].unsorted != [] && f in s'.jobs && s'.jobs[f] == Job(s'.inFlight[f], Queued)
              && step.SweepRegister? && s'.inFlight[f] == OnDisk(s, f)
    ensures step != JobFinish(f)
  {
    hide AllFree, Block, Unblock, Appended, OnDisk;
  }

  lemma WorkerFinishes(s: State, step: Step, s': State, f: FileId)
    requires WorkerNext(s, step, s')
    ensures f in s'.inFlight ==> f in s.inFlight && s'.inFlight[f] == s.inFlight[f]
    ensures f in s.inFlight ==> (f !in s'.inFlight <==> step == JobFinish(f))
  {
    hide EncodeEntries, Lists, Meaning, Block, Unblock;
  }

  /** A sweep ends with no compaction left in flight. */
  lemma SweepWaits(s: State, step: Step, s': State)
    requires Took(s, step, s') && step.SweepEnd?
    ensures s'.inFlight == map[]
  {
    hide AllFree, ReadersFree;
  }

  predicate Raised(was: map<FileId, nat>, now: map<FileId, nat>, f: FileId) {
    now == was[f := if f in was then was[f] + 1 else 1]
  }

  predicate Lowered(was: map<FileId, nat>, now: map<FileId, nat>, f: FileId) {
    f in was && was[f] == 1 ==> f !in now
  }

  predicate Mutating(pc: Pc, f: FileId) {
    (pc.WriteBlocked? || pc.WriteReady? || pc.WriteWritten?) && pc.file == f
  }

  predicate Working(s: State, f: FileId) {
    f in s.jobs && !s.jobs[f].phase.Queued? && !s.jobs[f].phase.Released?
  }

  ghost predicate Held(s: State, f: FileId) {
    Working(s, f) || exists t :: Mutating(PcOf(s, t), f)
  }

  /** A file's write block is set, once, exactly while a writer or a compaction is at work on it. */
  ghost predicate BlockInv(s: State, f: FileId) {
    (f in s.writeBlocks <==> Held(s, f)) && (f in s.writeBlocks ==> s.writeBlocks[f] == 1)
  }

  lemma {:induction false} WriteBlocksExact(states: seq<State>, steps: seq<Step>, i: nat, f: FileId)
    requires Trace(states, steps) && i < |states|
    ensures BlockInv(states[i], f)
    decreases i
  {
    hide ReaderNext, WriterNext, WorkerNext, Inv;
    if i > 0 {
      WriteBlocksExact(states, steps, i - 1, f);
      TraceIsRun(states, steps);
      RunKeepsInv(states, i - 1);
      var s, step, s' := states[i - 1], steps[i - 1], states[i - 1 + 1];
      assert Took(s, step, s');
      if ReaderNext(s, step, s') {
        ReaderKeepsBlocks(s, step, s', f);
      } else if WriterNext(s, step, s') {
        WriterKeepsBlocks(s, step, s', f);
      } else {
        WorkerKeepsBlocks(s, step, s', f);
      }
    }
  }

  lemma SameHeld(s: State, s': State, f: FileId)
    requires BlockInv(s, f) && (forall u :: Mutating(PcOf(s', u), f) <==> Mutating(PcOf(s, u), f)) && (Working(s', f) <==> Working(s, f))
    requires SameAt(s.writeBlocks, s'.writeBlocks, f)
    ensures BlockInv(s', f)
  {
    hide Mutating, Working, PcOf;
  }

  lemma ReaderKeepsBlocks(s: State, step: Step, s': State, f: FileId)
    requires Inv(s) && ReaderNext(s, step, s') && BlockInv(s, f)
    ensures BlockInv(s', f)
  {
    hide Means, LockInv, ThreadInv, BlockInv, ReadersFree;
    assert FileInv(s, f);
    hide Inv, FileInv;
    forall u ensures Mutating(PcOf(s', u), f) <==> Mutating(PcOf(s, u), f) {
      ReaderNotMutating(s, step, s', f, u);
    }
    ReaderNotWorking(s, step, s', f);
    SameHeld(s, s', f);
  }

  lemma ReaderNotMutating(s: State, step: Step, s': State, f: FileId, u: Tid)
    requires ReaderNext(s, step, s')
    ensures Mutating(PcOf(s', u), f) <==> Mutating(PcOf(s, u), f)
  {
    hide ReadersFree, OnDisk;
  }

  lemma ReaderNotWorking(s: State, step: Step, s': State, f: FileId)
    requires ReaderNext(s, step, s') && FileInv(s, f)
    ensures (Working(s', f) <==> Working(s, f)) && SameAt(s.writeBlocks, s'.writeBlocks, f)
  {
    hide ReadersFree, OnDisk, Means, Appended;
  }

  /** Only its own writer changes whether a file is being written to. */
  lemma WriterKeepsBlocks(s: State, step: Step, s': State, f: FileId)
    requires Inv(s) && WriterNext(s, step, s') && BlockInv(s, f)
    ensures BlockInv(s', f)
  {
    hide Means, BlockInv, WriterNext, ThreadInv, FileInv, Mutating, Working;
    WriterIsThread(s, step, s');
    var t := step.t;
    assert FileInv(s, f) && ThreadInv(s, t) && LockInv(s);
    hide Inv;
    forall u | u != t ensures PcOf(s', u) == PcOf(s, u) {
      WriterMovesAlone(s, step, s', u, t);
    }
    WriterBlockStep(s, step, s', f, t);
    if Mutating(PcOf(s, t), f) <==> Mutating(PcOf(s', t), f) {
      SameHeld(s, s', f);
    } else {
      ThreadHeld(s, s', f, t);
    }
  }

  /** What a writer's step does to the write block and the job of a file. */
  lemma WriterBlockStep(s: State, step: Step, s': State, f: FileId, t: Tid)
    requires WriterNext(s, step, s') && t == step.t && FileInv(s, f) && ThreadInv(s, t)
    ensures Exclusive(PcOf(s, t)) || PcOf(s, t).Idle?
    ensures Working(s', f) <==> Working(s, f)
    ensures (Mutating(PcOf(s, t), f) <==> Mutating(PcOf(s', t), f)) ==> SameAt(s.writeBlocks, s'.writeBlocks, f)
    ensures !Mutating(PcOf(s, t), f) && Mutating(PcOf(s', t), f) ==>
              !Working(s, f) && Raised(s.writeBlocks, s'.writeBlocks, f) && Exclusive(PcOf(s, t))
    ensures Mutating(PcOf(s, t), f) && !Mutating(PcOf(s', t), f) ==>
              !Working(s, f) && Lowered(s.writeBlocks, s'.writeBlocks, f) && Exclusive(PcOf(s, t))
  {
    hide Means, AllFree, Appended, OnDisk;
  }

  /** The one thread that holds the lock took or gave back the file. */
  lemma ThreadHeld(s: State, s': State, f: FileId, t: Tid)
    requires LockInv(s) && BlockInv(s, f) && (forall u :: u != t ==> PcOf(s', u) == PcOf(s, u)) && Exclusive(PcOf(s, t))
    requires !Working(s, f) && !Working(s', f) && (Mutating(PcOf(s, t), f) <==> !Mutating(PcOf(s', t), f))
    requires !Mutating(PcOf(s, t), f) ==> Raised(s.writeBlocks, s'.writeBlocks, f)
    requires Mutating(PcOf(s, t), f) ==> Lowered(s.writeBlocks, s'.writeBlocks, f)
    ensures BlockInv(s', f)
  {
    hide Working;
    assert forall u :: u != t ==> !Exclusive(PcOf(s, u));
    if !Mutating(PcOf(s, t), f) {
      assert Mutating(PcOf(s', t), f);
    }
  }

  lemma WorkerKeepsBlocks(s: State, step: Step, s': State, f: FileId)
    requires Inv(s) && WorkerNext(s, step, s') && BlockInv(s, f)
    ensures BlockInv(s', f)
  {
    hide Means, BlockInv, WorkerNext, ThreadInv, FileInv, Mutating, Working;
    WorkerFrame(s, step, s', f);
    WorkerBlockStep(s, step, s', f);
    if Working(s, f) <==> Working(s', f) {
      SameHeld(s, s', f);
    } else {
      assert FileInv(s, f);
      forall u ensures !Mutating(PcOf(s, u), f) {
        assert ThreadInv(s, u);
        NotBoth(s, f, u);
      }
      JobHeld(s, s', f);
    }
  }

  lemma NotBoth(s: State, f: FileId, u: Tid)
    requires FileInv(s, f) && ThreadInv(s, u) && f in s.jobs
    ensures !Mutating(PcOf(s, u), f)
  {
    hide Means;
  }

  lemma WorkerBlockStep(s: State, step: Step, s': State, f: FileId)
    requires WorkerNext(s, step, s')
    ensures (Working(s, f) <==> Working(s', f)) ==> SameAt(s.writeBlocks, s'.writeBlocks, f)
    ensures !Working(s, f) && Working(s', f) ==> f in s.jobs && Raised(s.writeBlocks, s'.writeBlocks, f)
    ensures Working(s, f) && !Working(s', f) ==> f in s.jobs && Lowered(s.writeBlocks, s'.writeBlocks, f)
  {
    hide EncodeEntries, Lists, Meaning;
  }

  lemma JobHeld(s: State, s': State, f: FileId)
    requires BlockInv(s, f) && s'.pcs == s.pcs && (forall u :: !Mutating(PcOf(s, u), f)) && (Working(s, f) <==> !Working(s', f))
    requires !Working(s, f) ==> Raised(s.writeBlocks, s'.writeBlocks, f)
    requires Working(s, f) ==> Lowered(s.writeBlocks, s'.writeBlocks, f)
    ensures BlockInv(s', f)
  {
    hide Working, Mutating;
    assert forall u :: PcOf(s', u) == PcOf(s, u);
  }

  /** What a reader answers for a key it captured: the fold of the whole history, exactly when the
      captured append region meets the lookup condition. */
  lemma ReaderAnswersHistory(states: seq<State>, i: nat, t: Tid, key: seq<byte>)
    requires Run(states) && i < |states| && PcOf(states[i], t).ReadHave? && key != []
    requires var view := PcOf(states[i], t).view;
             && (At(FoldSorted(map[], view.sorted), key).Some? ==> Sound(At(FoldSorted(map[], view.sorted), key).value))
             && AllSound(Hits(view.unsorted, key))
    ensures var pc := PcOf(states[i], t);
            var s, hs := At(FoldSorted(map[], pc.view.sorted), key), Hits(pc.view.unsorted, key);
            ReadAnswer(s, hs) == At(FoldUnsorted(map[], Appended(states[i], pc.file)), key) <==> ReadsLikeFold(s, hs)
  {
    hide FoldUnsorted, FoldSorted, SortedRegion, ReadAnswer, ReadsLikeFold, Hits, Stored;
    var view := PcOf(states[i], t).view;
    NothingLostOrResurrected(states, i, PcOf(states[i], t).file, t);
    FoldUnsortedAt(FoldSorted(map[], view.sorted), view.unsorted, key);
    EmptyStored();
    FoldSortedStored(map[], view.sorted);
    StoredAt(FoldSorted(map[], view.sorted), key);
    ReadMatchesFoldIff(At(FoldSorted(map[], view.sorted), key), Hits(view.unsorted, key), key);
  }

  lemma StoredAt(m: NodeMap, key: seq<byte>)
    requires Stored(m)
    ensures At(m, key).Some? ==> At(m, key).value.key == key && !IsTombstone(At(m, key).value)
  {
  }
}
