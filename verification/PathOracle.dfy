/** The shared directory-listing cache as a step machine: any number of threads call `listing`,
    and every lock operation, cache read, scan and store is one step. */
module PathOracle {
  import opened Wrappers

  type Dir = string
  type Listing = map<string, string>  // entry name -> kind
  type Tid = nat
  type LockId = nat

  /** Where a thread stands inside `listing`.  `l` is the directory's lock object. */
  datatype Pc =
    | Idle
    | ReadWait(d: Dir)                          // about to take the global lock for the first lookup
    | ReadIn(d: Dir)                            // holds the global lock
    | ReadHeld(d: Dir, got: Option<Listing>)    // has read the cache, still holds it
    | LockWait(d: Dir)                          // a miss: about to fetch the directory's lock
    | LockIn(d: Dir)
    | LockHeld(d: Dir, l: LockId)
    | DirWait(d: Dir, l: LockId)                // about to take the directory's lock
    | RecheckWait(d: Dir, l: LockId)            // holds the directory's lock from here on
    | RecheckIn(d: Dir, l: LockId)
    | RecheckHeld(d: Dir, l: LockId, got: Option<Listing>)
    | Scan(d: Dir, l: LockId)
    | StoreWait(d: Dir, l: LockId, r: Listing)
    | StoreIn(d: Dir, l: LockId, r: Listing)
    | StoreHeld(d: Dir, l: LockId, r: Listing)
    | Leave(d: Dir, l: LockId, r: Listing)      // about to release the directory's lock and return

  datatype Thread = Thread(pc: Pc, todo: seq<Dir>, done: seq<(Dir, Listing)>)

  /** `scans` is the history of completed directory scans; locks are created eagerly by every
      `setdefault`, so `nextLock` counts objects, not directories. */
  datatype State = State(
    global: Option<Tid>,
    held: map<LockId, Tid>,
    locks: map<Dir, LockId>,
    nextLock: LockId,
    listings: map<Dir, Listing>,
    threads: seq<Thread>,
    scans: seq<(Dir, Listing)>)

  function Lookup(s: State, d: Dir): Option<Listing> {
    if d in s.listings then Some(s.listings[d]) else None
  }

  predicate Enabled(s: State, t: Tid) {
    t < |s.threads| &&
    match s.threads[t].pc
    case Idle => s.threads[t].todo != []
    case ReadWait(_) => s.global == None
    case LockWait(_) => s.global == None
    case RecheckWait(_, _) => s.global == None
    case StoreWait(_, _, _) => s.global == None
    case DirWait(_, l) => l !in s.held
    case _ => true
  }

  /** Where the thread goes: `got` is the cached listing of its directory, `lock` the lock object
      `setdefault` answers with, `seen` what the filesystem shows. */
  function NextPc(pc: Pc, first: Dir, got: Option<Listing>, lock: LockId, seen: Listing): Pc {
    match pc
    case Idle => ReadWait(first)
    case ReadWait(d) => ReadIn(d)
    case ReadIn(d) => ReadHeld(d, got)
    case ReadHeld(d, hit) => if hit.Some? then Idle else LockWait(d)
    case LockWait(d) => LockIn(d)
    case LockIn(d) => LockHeld(d, lock)
    case LockHeld(d, l) => DirWait(d, l)
    case DirWait(d, l) => RecheckWait(d, l)
    case RecheckWait(d, l) => RecheckIn(d, l)
    case RecheckIn(d, l) => RecheckHeld(d, l, got)
    case RecheckHeld(d, l, hit) => if hit.Some? then Leave(d, l, hit.value) else Scan(d, l)
    case Scan(d, l) => StoreWait(d, l, seen)
    case StoreWait(d, l, r) => StoreIn(d, l, r)
    case StoreIn(d, l, r) => StoreHeld(d, l, r)
    case StoreHeld(d, l, r) => Leave(d, l, r)
    case Leave(_, _, _) => Idle
  }

  predicate TakesGlobal(pc: Pc) { pc.ReadWait? || pc.LockWait? || pc.RecheckWait? || pc.StoreWait? }

  predicate DropsGlobal(pc: Pc) { pc.ReadHeld? || pc.LockHeld? || pc.RecheckHeld? || pc.StoreHeld? }

  function Returns(pc: Pc): Option<(Dir, Listing)> {
    match pc
    case ReadHeld(d, Some(r)) => Some((d, r))
    case Leave(d, _, r) => Some((d, r))
    case _ => None
  }

  function LockOf(s: State, d: Dir): LockId {
    if d in s.locks then s.locks[d] else s.nextLock
  }

  function NextThread(s: State, th: Thread, seen: Listing): Thread
    requires th.pc.Idle? ==> th.todo != []
  {
    if th.pc.Idle? then th.(pc := NextPc(th.pc, th.todo[0], None, 0, seen), todo := th.todo[1..])
    else
      var pc := NextPc(th.pc, th.pc.d, Lookup(s, th.pc.d), LockOf(s, th.pc.d), seen);
      var ret := Returns(th.pc);
      Thread(pc, th.todo, if ret.Some? then th.done + [ret.value] else th.done)
  }

  /** The next step of thread `t`. */
  function Step(s: State, t: Tid, seen: Listing): State
    requires Enabled(s, t)
  {
    var pc := s.threads[t].pc;
    State(
      if TakesGlobal(pc) then Some(t) else if DropsGlobal(pc) then None else s.global,
      if pc.DirWait? then s.held[pc.l := t] else if pc.Leave? then s.held - {pc.l} else s.held,
      if pc.LockIn? then s.locks[pc.d := LockOf(s, pc.d)] else s.locks,
      if pc.LockIn? then s.nextLock + 1 else s.nextLock,
      if pc.StoreIn? then s.listings[pc.d := pc.r] else s.listings,
      s.threads[t := NextThread(s, s.threads[t], seen)],
      if pc.Scan? then s.scans + [(pc.d, seen)] else s.scans)
  }

  ghost predicate Initial(s: State, programs: seq<seq<Dir>>) {
    && s.global == None && s.held == map[] && s.locks == map[] && s.listings == map[] && s.scans == []
    && |s.threads| == |programs|
    && forall t :: 0 <= t < |programs| ==> s.threads[t] == Thread(Idle, programs[t], [])
  }

  /** What the filesystem shows at one moment. */
  type View = Dir -> Listing

  /** What the view shows of the directory the thread is about. */
  function Shown(s: State, t: Tid, view: View): Listing
    requires t < |s.threads|
  {
    if s.threads[t].pc.Idle? then map[] else view(s.threads[t].pc.d)
  }

  ghost predicate Follows(s: State, u: State, view: View) {
    exists t :: Enabled(s, t) && u == Step(s, t, Shown(s, t, view))
  }

  /** Any interleaving of the threads, while the filesystem shows an arbitrary view at every step. */
  ghost predicate Run(states: seq<State>, views: seq<View>, programs: seq<seq<Dir>>) {
    && states != [] && Initial(states[0], programs) && |views| == |states| - 1
    && forall i :: 0 <= i < |views| ==> Follows(states[i], states[i + 1], views[i])
  }

  // ----- The inductive invariant --------------------------------------------------------

  predicate InGlobal(pc: Pc) {
    pc.ReadIn? || pc.ReadHeld? || pc.LockIn? || pc.LockHeld? || pc.RecheckIn? || pc.RecheckHeld? || pc.StoreIn?
        || pc.StoreHeld?
  }

  predicate InDir(pc: Pc) {
    pc.RecheckWait? || pc.RecheckIn? || pc.RecheckHeld? || pc.Scan? || pc.StoreWait? || pc.StoreIn? || pc.StoreHeld?
        || pc.Leave?
  }

  predicate HasLock(pc: Pc) { pc.LockHeld? || pc.DirWait? || InDir(pc) }

  /** The global lock is held by exactly the thread inside one of its sections. */
  ghost predicate GlobalOwned(s: State) {
    && (forall t :: 0 <= t < |s.threads| ==> (InGlobal(s.threads[t].pc) <==> s.global == Some(t)))
    && (s.global.Some? ==> s.global.value < |s.threads|)
  }

  /** Lock objects identify directories, and a thread's lock is its directory's. */
  ghost predicate LocksMatch(s: State) {
    && (forall d :: d in s.locks ==> s.locks[d] < s.nextLock)
    && (forall d, e :: d in s.locks && e in s.locks && s.locks[d] == s.locks[e] ==> d == e)
    && (forall t :: 0 <= t < |s.threads| && HasLock(s.threads[t].pc) ==>
          s.threads[t].pc.d in s.locks && s.locks[s.threads[t].pc.d] == s.threads[t].pc.l)
  }

  predicate HolderInside(s: State, l: LockId)
    requires l in s.held
  {
    var t := s.held[l];
    t < |s.threads| && InDir(s.threads[t].pc) && s.threads[t].pc.l == l
  }

  /** A directory's lock is held by exactly the thread inside its section. */
  ghost predicate DirOwned(s: State) {
    && (forall t :: 0 <= t < |s.threads| && InDir(s.threads[t].pc) ==>
          s.threads[t].pc.l in s.held && s.held[s.threads[t].pc.l] == t)
    && (forall l :: l in s.held ==> HolderInside(s, l))
  }

  ghost predicate Scanned(s: State, d: Dir) {
    exists i :: 0 <= i < |s.scans| && s.scans[i].0 == d
  }

  predicate Storing(pc: Pc) { pc.StoreWait? || pc.StoreIn? }

  /** A directory still to be scanned as far as the thread inside its section can tell. */
  predicate Unscanned(pc: Pc) {
    pc.Scan? || (pc.RecheckHeld? && pc.got.None?)
  }

  /** The history names each directory once. */
  predicate ScansDistinct(s: State) {
    forall i, j :: 0 <= i < j < |s.scans| ==> s.scans[i].0 != s.scans[j].0
  }

  /** The cache holds scanned results only. */
  predicate CacheScanned(s: State) {
    forall d :: d in s.listings ==> (d, s.listings[d]) in s.scans
  }

  /** What is about to be stored has been scanned, and is not cached yet. */
  predicate StoringScanned(s: State) {
    forall t :: 0 <= t < |s.threads| && Storing(s.threads[t].pc) ==>
      (s.threads[t].pc.d, s.threads[t].pc.r) in s.scans && s.threads[t].pc.d !in s.listings
  }

  /** A scanned directory missing from the cache is being stored. */
  ghost predicate PendingStored(s: State) {
    forall i :: 0 <= i < |s.scans| && s.scans[i].0 !in s.listings ==> BeingStored(s, s.scans[i].0)
  }

  ghost predicate UnscannedTrue(s: State) {
    forall t :: 0 <= t < |s.threads| && Unscanned(s.threads[t].pc) ==> !Scanned(s, s.threads[t].pc.d)
  }

  ghost predicate HistoryOk(s: State) {
    ScansDistinct(s) && CacheScanned(s) && StoringScanned(s) && PendingStored(s) && UnscannedTrue(s)
  }

  ghost predicate BeingStored(s: State, d: Dir) {
    exists t :: 0 <= t < |s.threads| && Storing(s.threads[t].pc) && s.threads[t].pc.d == d
  }

  /** Whatever a thread has been given for a directory is what the cache now holds. */
  predicate Gives(pc: Pc, d: Dir, r: Listing) {
    match pc
    case ReadHeld(e, Some(q)) => e == d && q == r
    case RecheckHeld(e, _, Some(q)) => e == d && q == r
    case StoreHeld(e, _, q) => e == d && q == r
    case Leave(e, _, q) => e == d && q == r
    case _ => false
  }

  ghost predicate ResultsOk(s: State) {
    && (forall t, d, r :: 0 <= t < |s.threads| && Gives(s.threads[t].pc, d, r) ==> Lookup(s, d) == Some(r))
    && (forall t, k :: 0 <= t < |s.threads| && 0 <= k < |s.threads[t].done| ==>
          Lookup(s, s.threads[t].done[k].0) == Some(s.threads[t].done[k].1))
  }

  function Current(pc: Pc): seq<Dir> { if pc.Idle? then [] else [pc.d] }

  function Asked(done: seq<(Dir, Listing)>): seq<Dir> {
    seq(|done|, i requires 0 <= i < |done| => done[i].0)
  }

  /** No call is lost, repeated or reordered. */
  ghost predicate CallsOk(s: State, programs: seq<seq<Dir>>) {
    && |s.threads| == |programs|
    && forall t :: 0 <= t < |programs| ==>
         programs[t] == Asked(s.threads[t].done) + Current(s.threads[t].pc) + s.threads[t].todo
  }

  ghost predicate Inv(s: State, programs: seq<seq<Dir>>) {
    GlobalOwned(s) && LocksMatch(s) && DirOwned(s) && HistoryOk(s) && ResultsOk(s) && CallsOk(s, programs)
  }

  lemma InitialInv(s: State, programs: seq<seq<Dir>>)
    requires Initial(s, programs)
    ensures Inv(s, programs)
  {
  }

  // ----- Runs ------------------------------------------------------------------------------

  lemma StepOfRun(states: seq<State>, views: seq<View>, programs: seq<seq<Dir>>, n: nat) returns (t: Tid, seen: Listing)
    requires Run(states, views, programs) && 0 < n < |states|
    ensures Enabled(states[n - 1], t) && states[n] == Step(states[n - 1], t, seen)
    ensures seen == Shown(states[n - 1], t, views[n - 1])
  {
    assert Follows(states[n - 1], states[n - 1 + 1], views[n - 1]);
    t :| Enabled(states[n - 1], t) && states[n] == Step(states[n - 1], t, Shown(states[n - 1], t, views[n - 1]));
    seen := Shown(states[n - 1], t, views[n - 1]);
  }

  lemma {:induction false} RunInv(states: seq<State>, views: seq<View>, programs: seq<seq<Dir>>, n: nat)
    requires Run(states, views, programs) && n < |states|
    ensures Inv(states[n], programs)
  {
    if n == 0 {
      InitialInv(states[0], programs);
    } else {
      RunInv(states, views, programs, n - 1);
      var t, seen := StepOfRun(states, views, programs, n);
      StepInv(states[n - 1], t, seen, programs);
    }
  }

  // ----- Safety -------------------------------------------------------------------------

  /** In the i-th step the thread completes its scan. */
  predicate ScanStep(states: seq<State>, i: nat, t: Tid) {
    && i + 1 < |states| && t < |states[i].threads| && t < |states[i + 1].threads|
    && states[i].threads[t].pc.Scan? && !states[i + 1].threads[t].pc.Scan?
  }

  /** The entry is what some thread's scan of that directory was shown. */
  predicate Saw(states: seq<State>, views: seq<View>, i: nat, t: Tid, entry: (Dir, Listing)) {
    && i < |views| && ScanStep(states, i, t) && states[i].threads[t].pc.d == entry.0
    && entry.1 == views[i](entry.0)
  }

  ghost predicate SawBefore(states: seq<State>, views: seq<View>, n: nat, entry: (Dir, Listing)) {
    exists i: nat, t: Tid :: i < n && Saw(states, views, i, t, entry)
  }

  /** A completed scan is recorded, with what was shown. */
  lemma ScanRecorded(states: seq<State>, views: seq<View>, programs: seq<seq<Dir>>, i: nat, t: Tid)
    requires Run(states, views, programs) && ScanStep(states, i, t)
    ensures Scanned(states[i + 1], states[i].threads[t].pc.d)
  {
    var k, seen := StepOfRun(states, views, programs, i + 1);
    var s, u := states[i], states[i + 1];
    assert u.scans[|s.scans|] == (s.threads[t].pc.d, seen);
  }

  lemma NewScansSeen(states: seq<State>, views: seq<View>, programs: seq<seq<Dir>>, n: nat)
    requires Run(states, views, programs) && 0 < n < |states|
    ensures states[n - 1].scans <= states[n].scans
    ensures forall k :: |states[n - 1].scans| <= k < |states[n].scans| ==>
      SawBefore(states, views, n, states[n].scans[k])
  {
    var t, seen := StepOfRun(states, views, programs, n);
    var s, u := states[n - 1], states[n];
    if s.threads[t].pc.Scan? {
      assert u.scans == s.scans + [(s.threads[t].pc.d, seen)];
      assert Saw(states, views, n - 1, t, u.scans[|s.scans|]);
    }
  }

  /** The history only grows, and holds nothing but what scans were shown. */
  lemma {:induction false} HistorySeen(states: seq<State>, views: seq<View>, programs: seq<seq<Dir>>, n: nat)
    requires Run(states, views, programs) && n < |states|
    ensures forall k :: 0 <= k < |states[n].scans| ==> SawBefore(states, views, n, states[n].scans[k])
  {
    if n > 0 {
      HistorySeen(states, views, programs, n - 1);
      NewScansSeen(states, views, programs, n);
      forall k | 0 <= k < |states[n - 1].scans| ensures SawBefore(states, views, n, states[n].scans[k]) {
        var entry := states[n].scans[k];
        assert entry == states[n - 1].scans[k];
        var i: nat, t: Tid :| i < n - 1 && Saw(states, views, i, t, entry);
        assert i < n && Saw(states, views, i, t, entry);
      }
    }
  }

  lemma {:induction false} ScannedStays(states: seq<State>, views: seq<View>, programs: seq<seq<Dir>>, m: nat, n: nat,
                                        d: Dir)
    requires Run(states, views, programs) && m <= n < |states| && Scanned(states[m], d)
    ensures Scanned(states[n], d)
    decreases n
  {
    if m < n {
      ScannedStays(states, views, programs, m, n - 1, d);
      NewScansSeen(states, views, programs, n);
      var k :| 0 <= k < |states[n - 1].scans| && states[n - 1].scans[k].0 == d;
      assert states[n].scans[k] == states[n - 1].scans[k];
    }
  }

  /** No directory is scanned in two steps of a run. */
  lemma ScannedOnce(states: seq<State>, views: seq<View>, programs: seq<seq<Dir>>, i: nat, t: Tid, j: nat, u: Tid)
    requires Run(states, views, programs) && i < j && ScanStep(states, i, t) && ScanStep(states, j, u)
    ensures states[i].threads[t].pc.d != states[j].threads[u].pc.d
  {
    ScanRecorded(states, views, programs, i, t);
    ScannedStays(states, views, programs, i + 1, j, states[i].threads[t].pc.d);
    StillUnscanned(states, views, programs, j, u);
  }

  lemma StillUnscanned(states: seq<State>, views: seq<View>, programs: seq<seq<Dir>>, j: nat, u: Tid)
    requires Run(states, views, programs) && ScanStep(states, j, u)
    ensures !Scanned(states[j], states[j].threads[u].pc.d)
  {
    RunHistory(states, views, programs, j);
    assert Unscanned(states[j].threads[u].pc);
  }

  /** In every interleaving every completed call returned what the filesystem showed of its directory
      at the step of some scan of it, whatever it showed at any other step; by `ScannedOnce` that is
      the directory's only scan. */
  lemma ScannedOnceAndAgreed(states: seq<State>, views: seq<View>, programs: seq<seq<Dir>>, n: nat)
    requires Run(states, views, programs) && n < |states|
    ensures forall i: nat, t: Tid, j: nat, u: Tid :: i < j < n && ScanStep(states, i, t) && ScanStep(states, j, u)
              ==> states[i].threads[t].pc.d != states[j].threads[u].pc.d
    ensures forall t, k :: 0 <= t < |states[n].threads| && 0 <= k < |states[n].threads[t].done|
              ==> SawBefore(states, views, n, states[n].threads[t].done[k])
  {
    RunInv(states, views, programs, n);
    HistorySeen(states, views, programs, n);
    var s := states[n];
    forall t, k | 0 <= t < |s.threads| && 0 <= k < |s.threads[t].done|
      ensures SawBefore(states, views, n, s.threads[t].done[k])
    {
      assert Lookup(s, s.threads[t].done[k].0) == Some(s.threads[t].done[k].1);
      assert s.threads[t].done[k] in s.scans;
    }
    forall i: nat, t: Tid, j: nat, u: Tid | i < j < n && ScanStep(states, i, t) && ScanStep(states, j, u)
      ensures states[i].threads[t].pc.d != states[j].threads[u].pc.d
    {
      ScannedOnce(states, views, programs, i, t, j, u);
    }
  }

  /** Two completed calls for one directory, by any threads, at any two moments of a run. */
  lemma CallsAgree(states: seq<State>, views: seq<View>, programs: seq<seq<Dir>>, m: nat, n: nat, t: Tid, j: nat,
                   u: Tid, k: nat)
    requires Run(states, views, programs) && m <= n < |states|
    requires t < |states[m].threads| && j < |states[m].threads[t].done|
    requires u < |states[n].threads| && k < |states[n].threads[u].done|
    requires states[m].threads[t].done[j].0 == states[n].threads[u].done[k].0
    ensures states[m].threads[t].done[j].1 == states[n].threads[u].done[k].1
  {
    RunInv(states, views, programs, m);
    RunInv(states, views, programs, n);
    CacheStableOver(states, views, programs, m, n, states[m].threads[t].done[j].0);
    assert Lookup(states[m], states[m].threads[t].done[j].0) == Some(states[m].threads[t].done[j].1);
    assert Lookup(states[n], states[n].threads[u].done[k].0) == Some(states[n].threads[u].done[k].1);
  }

  lemma {:induction false} CacheStableOver(states: seq<State>, views: seq<View>, programs: seq<seq<Dir>>, m: nat,
                                           n: nat, d: Dir)
    requires Run(states, views, programs) && m <= n < |states| && d in states[m].listings
    ensures Lookup(states[n], d) == Lookup(states[m], d)
    decreases n
  {
    if m < n {
      CacheStableOver(states, views, programs, m, n - 1, d);
      RunKeepsCache(states, views, programs, n, d);
    }
  }

  lemma RunHistory(states: seq<State>, views: seq<View>, programs: seq<seq<Dir>>, n: nat)
    requires Run(states, views, programs) && n < |states|
    ensures HistoryOk(states[n])
  {
    RunInv(states, views, programs, n);
  }

  lemma RunKeepsCache(states: seq<State>, views: seq<View>, programs: seq<seq<Dir>>, n: nat, d: Dir)
    requires Run(states, views, programs) && 0 < n < |states| && d in states[n - 1].listings
    ensures Lookup(states[n], d) == Lookup(states[n - 1], d)
  {
    RunHistory(states, views, programs, n - 1);
    var t, seen := StepOfRun(states, views, programs, n);
    CacheKept(states[n - 1], t, seen, states[n], d);
  }

  // ----- Progress -----------------------------------------------------------------------

  predicate Finished(th: Thread) { th.pc.Idle? && th.todo == [] }

  /** The protocol never deadlocks: as long as some thread is unfinished, some thread can step. */
  lemma NoDeadlock(s: State, programs: seq<seq<Dir>>, t: Tid)
    requires Inv(s, programs) && t < |s.threads| && !Finished(s.threads[t])
    ensures exists k :: Enabled(s, k)
  {
    if s.global.Some? {
      assert InGlobal(s.threads[s.global.value].pc);
      assert Enabled(s, s.global.value);
    } else {
      var pc := s.threads[t].pc;
      if pc.DirWait? && pc.l in s.held {
        assert HolderInside(s, pc.l);
        assert Enabled(s, s.held[pc.l]);
      } else {
        assert Enabled(s, t);
      }
    }
  }

  /** Steps left before a call returns, at most. */
  function Rank(pc: Pc): nat {
    match pc
    case Idle => 0
    case ReadWait(_) => 15
    case ReadIn(_) => 14
    case ReadHeld(_, _) => 13
    case LockWait(_) => 12
    case LockIn(_) => 11
    case LockHeld(_, _) => 10
    case DirWait(_, _) => 9
    case RecheckWait(_, _) => 8
    case RecheckIn(_, _) => 7
    case RecheckHeld(_, _, _) => 6
    case Scan(_, _) => 5
    case StoreWait(_, _, _) => 4
    case StoreIn(_, _, _) => 3
    case StoreHeld(_, _, _) => 2
    case Leave(_, _, _) => 1
  }

  function Work(th: Thread): nat { Rank(th.pc) + 16 * |th.todo| }

  function TotalWork(threads: seq<Thread>): nat {
    if threads == [] then 0 else Work(threads[0]) + TotalWork(threads[1..])
  }

  lemma {:induction false} TotalWorkUpdate(threads: seq<Thread>, t: nat, th: Thread)
    requires t < |threads|
    ensures TotalWork(threads[t := th]) + Work(threads[t]) == TotalWork(threads) + Work(th)
  {
    if t > 0 {
      assert threads[t := th][1..] == threads[1..][t - 1 := th];
      TotalWorkUpdate(threads[1..], t - 1, th);
    }
  }

  lemma StepWorks(s: State, t: Tid, seen: Listing)
    requires Enabled(s, t)
    ensures TotalWork(Step(s, t, seen).threads) < TotalWork(s.threads)
  {
    var th := Step(s, t, seen).threads[t];
    assert Step(s, t, seen).threads == s.threads[t := th];
    TotalWorkUpdate(s.threads, t, th);
  }

  function Calls(programs: seq<seq<Dir>>): nat {
    if programs == [] then 0 else |programs[0]| + Calls(programs[1..])
  }

  lemma {:induction false} InitialWork(threads: seq<Thread>, programs: seq<seq<Dir>>)
    requires |threads| == |programs|
    requires forall t :: 0 <= t < |programs| ==> threads[t] == Thread(Idle, programs[t], [])
    ensures TotalWork(threads) == 16 * Calls(programs)
  {
    if threads != [] {
      forall t | 0 <= t < |programs| - 1
        ensures threads[1..][t] == threads[t + 1] && programs[1..][t] == programs[t + 1]
      {
      }
      InitialWork(threads[1..], programs[1..]);
    }
  }

  lemma {:induction false} RunWorks(states: seq<State>, views: seq<View>, programs: seq<seq<Dir>>, n: nat)
    requires Run(states, views, programs) && n < |states|
    ensures n + TotalWork(states[n].threads) <= TotalWork(states[0].threads)
  {
    if n > 0 {
      RunWorks(states, views, programs, n - 1);
      var t, seen := StepOfRun(states, views, programs, n);
      StepWorks(states[n - 1], t, seen);
    }
  }

  /** Every run is finite: it makes at most sixteen steps per requested call. */
  lemma RunIsShort(states: seq<State>, views: seq<View>, programs: seq<seq<Dir>>)
    requires Run(states, views, programs)
    ensures |states| - 1 <= 16 * Calls(programs)
  {
    RunWorks(states, views, programs, |states| - 1);
    InitialWork(states[0].threads, programs);
  }

  ghost predicate Stuck(s: State) {
    forall k :: !Enabled(s, k)
  }

  /** A run that cannot be continued has answered every call, in order. */
  lemma StuckMeansDone(states: seq<State>, views: seq<View>, programs: seq<seq<Dir>>, t: Tid)
    requires Run(states, views, programs) && t < |programs| == |states[|states| - 1].threads|
    requires Stuck(states[|states| - 1])
    ensures Asked(states[|states| - 1].threads[t].done) == programs[t]
  {
    var s := states[|states| - 1];
    RunInv(states, views, programs, |states| - 1);
    if !Finished(s.threads[t]) { NoDeadlock(s, programs, t); }
    assert Asked(s.threads[t].done) + [] + [] == Asked(s.threads[t].done);
  }

  // ----- Concurrency --------------------------------------------------------------------

  lemma Extend(states: seq<State>, views: seq<View>, view: View, programs: seq<seq<Dir>>, t: Tid)
    returns (longer: seq<State>, more: seq<View>)
    requires Run(states, views, programs) && Enabled(states[|states| - 1], t)
    ensures Run(longer, more, programs)
    ensures var s := states[|states| - 1]; longer[|longer| - 1] == Step(s, t, Shown(s, t, view))
  {
    var s := states[|states| - 1];
    longer, more := states + [Step(s, t, Shown(s, t, view))], views + [view];
    forall i | 0 <= i < |more| ensures Follows(longer[i], longer[i + 1], more[i]) {
      if i < |views| { assert Follows(states[i], states[i + 1], views[i]); }
    }
  }

  function At(s: State, t: Tid, pc: Pc): State
    requires t < |s.threads|
  {
    s.(threads := s.threads[t := s.threads[t].(pc := pc)])
  }

  /** A thread that finds nothing cached gets as far as fetching the directory's lock. */
  lemma WalkToMiss(states: seq<State>, views: seq<View>, view: View, programs: seq<seq<Dir>>, t: Tid, d: Dir)
    returns (longer: seq<State>, more: seq<View>)
    requires Run(states, views, programs)
    requires var s := states[|states| - 1];
      t < |s.threads| && s.threads[t].pc == ReadWait(d) && s.global == None && d !in s.listings
    ensures Run(longer, more, programs) && longer[|longer| - 1] == At(states[|states| - 1], t, LockWait(d))
  {
    var s := states[|states| - 1];
    longer, more := Extend(states, views, view, programs, t);
    assert longer[|longer| - 1] == At(s, t, ReadIn(d)).(global := Some(t));
    longer, more := Extend(longer, more, view, programs, t);
    assert longer[|longer| - 1] == At(s, t, ReadHeld(d, None)).(global := Some(t));
    longer, more := Extend(longer, more, view, programs, t);
  }

  lemma WalkToLock(states: seq<State>, views: seq<View>, view: View, programs: seq<seq<Dir>>, t: Tid, d: Dir)
    returns (longer: seq<State>, more: seq<View>)
    requires Run(states, views, programs)
    requires var s := states[|states| - 1];
      && t < |s.threads| && s.threads[t].pc == LockWait(d) && s.global == None
      && d !in s.locks && s.nextLock !in s.held
    ensures Run(longer, more, programs)
    ensures var s := states[|states| - 1]; var l := s.nextLock;
      longer[|longer| - 1]
      == At(s, t, RecheckWait(d, l)).(locks := s.locks[d := l], nextLock := l + 1, held := s.held[l := t])
  {
    var s := states[|states| - 1];
    var l := s.nextLock;
    longer, more := Extend(states, views, view, programs, t);
    assert longer[|longer| - 1] == At(s, t, LockIn(d)).(global := Some(t));
    longer, more := Extend(longer, more, view, programs, t);
    assert longer[|longer| - 1]
        == At(s, t, LockHeld(d, l)).(global := Some(t), locks := s.locks[d := l], nextLock := l + 1);
    longer, more := Extend(longer, more, view, programs, t);
    assert longer[|longer| - 1] == At(s, t, DirWait(d, l)).(locks := s.locks[d := l], nextLock := l + 1);
    longer, more := Extend(longer, more, view, programs, t);
  }

  lemma WalkToRecheck(states: seq<State>, views: seq<View>, view: View, programs: seq<seq<Dir>>, t: Tid, d: Dir,
                      l: LockId)
    returns (longer: seq<State>, more: seq<View>)
    requires Run(states, views, programs)
    requires var s := states[|states| - 1];
      t < |s.threads| && s.threads[t].pc == RecheckWait(d, l) && s.global == None && d !in s.listings
    ensures Run(longer, more, programs) && longer[|longer| - 1] == At(states[|states| - 1], t, Scan(d, l))
  {
    var s := states[|states| - 1];
    longer, more := Extend(states, views, view, programs, t);
    assert longer[|longer| - 1] == At(s, t, RecheckIn(d, l)).(global := Some(t));
    longer, more := Extend(longer, more, view, programs, t);
    assert longer[|longer| - 1] == At(s, t, RecheckHeld(d, l, None)).(global := Some(t));
    longer, more := Extend(longer, more, view, programs, t);
  }

  /** From a state with the global lock free, a thread asking for a fresh directory can walk
      alone to its scan. */
  lemma WalkToScan(states: seq<State>, views: seq<View>, view: View, programs: seq<seq<Dir>>, t: Tid, d: Dir)
    returns (longer: seq<State>, more: seq<View>)
    requires Run(states, views, programs)
    requires var s := states[|states| - 1];
      && t < |s.threads| && s.threads[t].pc.Idle? && s.threads[t].todo == [d]
      && s.global == None && d !in s.listings && d !in s.locks && s.nextLock !in s.held
    ensures Run(longer, more, programs)
    ensures var s := states[|states| - 1]; var l := s.nextLock;
      longer[|longer| - 1] == s.(threads := s.threads[t := Thread(Scan(d, l), [], s.threads[t].done)],
                                 locks := s.locks[d := l], nextLock := l + 1, held := s.held[l := t])
  {
    var s := states[|states| - 1];
    longer, more := Extend(states, views, view, programs, t);
    assert s.threads[t].todo[1..] == [];
    assert longer[|longer| - 1] == s.(threads := s.threads[t := Thread(ReadWait(d), [], s.threads[t].done)]);
    longer, more := WalkToMiss(longer, more, view, programs, t, d);
    longer, more := WalkToLock(longer, more, view, programs, t, d);
    longer, more := WalkToRecheck(longer, more, view, programs, t, d, s.nextLock);
  }

  predicate Overlapping(s: State, d: Dir, e: Dir) {
    && |s.threads| == 2
    && s.threads[0].pc.Scan? && s.threads[0].pc.d == d
    && s.threads[1].pc.Scan? && s.threads[1].pc.d == e
  }

  /** The per-directory locks do not serialize different directories: whatever the filesystem
      shows, two threads can be scanning two of them at the same moment. */
  lemma ScansOverlap(d: Dir, e: Dir, view: View) returns (states: seq<State>, views: seq<View>)
    requires d != e
    ensures Run(states, views, [[d], [e]])
    ensures Overlapping(states[|states| - 1], d, e)
  {
    var programs := [[d], [e]];
    var start := State(None, map[], map[], 0, map[], [Thread(Idle, [d], []), Thread(Idle, [e], [])], []);
    states, views := WalkToScan([start], [], view, programs, 0, d);
    states, views := WalkToScan(states, views, view, programs, 1, e);
  }

  // ----- Every step keeps the invariant ----------------------------------------------------

  lemma StepGlobal(s: State, t: Tid, seen: Listing)
    requires GlobalOwned(s) && Enabled(s, t)
    ensures GlobalOwned(Step(s, t, seen))
  {
  }

  lemma StepLocks(s: State, t: Tid, seen: Listing)
    requires LocksMatch(s) && Enabled(s, t)
    ensures LocksMatch(Step(s, t, seen))
  {
    var u := Step(s, t, seen);
    forall k | 0 <= k < |u.threads| && HasLock(u.threads[k].pc)
      ensures u.threads[k].pc.d in u.locks && u.locks[u.threads[k].pc.d] == u.threads[k].pc.l
    {
      assert k != t ==> u.threads[k] == s.threads[k];
    }
  }

  lemma NextInDir(s: State, t: Tid, seen: Listing)
    requires Enabled(s, t)
    ensures var pc, next := s.threads[t].pc, Step(s, t, seen).threads[t].pc;
      && (InDir(next) <==> (pc.DirWait? || (InDir(pc) && !pc.Leave?)))
      && (InDir(next) ==> next.l == pc.l)
  {
  }

  lemma StepDir(s: State, t: Tid, seen: Listing)
    requires LocksMatch(s) && DirOwned(s) && Enabled(s, t)
    ensures DirOwned(Step(s, t, seen))
  {
    var u := Step(s, t, seen);
    NextInDir(s, t, seen);
    forall k | 0 <= k < |u.threads| && InDir(u.threads[k].pc)
      ensures u.threads[k].pc.l in u.held && u.held[u.threads[k].pc.l] == k
    {
      OwnerKept(s, t, seen, k);
    }
    forall l | l in u.held
      ensures HolderInside(u, l)
    {
      HolderKept(s, t, seen, l);
    }
  }

  lemma OwnerKept(s: State, t: Tid, seen: Listing, k: Tid)
    requires DirOwned(s) && Enabled(s, t) && k < |s.threads| && InDir(Step(s, t, seen).threads[k].pc)
    ensures var u := Step(s, t, seen); u.threads[k].pc.l in u.held && u.held[u.threads[k].pc.l] == k
  {
    NextInDir(s, t, seen);
    if k != t { assert Step(s, t, seen).threads[k] == s.threads[k]; }
  }

  lemma HolderKept(s: State, t: Tid, seen: Listing, l: LockId)
    requires DirOwned(s) && Enabled(s, t) && l in Step(s, t, seen).held
    ensures HolderInside(Step(s, t, seen), l)
  {
    NextInDir(s, t, seen);
    var pc := s.threads[t].pc;
    if !(pc.DirWait? && pc.l == l) {
      assert HolderInside(s, l);
      if s.held[l] != t { assert Step(s, t, seen).threads[s.held[l]] == s.threads[s.held[l]]; }
    }
  }

  /** Two threads cannot both be inside one directory's section. */
  lemma OneInside(s: State, t: Tid, k: Tid)
    requires LocksMatch(s) && DirOwned(s) && t < |s.threads| && k < |s.threads|
    requires InDir(s.threads[t].pc) && InDir(s.threads[k].pc) && s.threads[t].pc.d == s.threads[k].pc.d
    ensures t == k
  {
  }

  /** Inside the section, an uncached directory has not been scanned by anybody else. */
  lemma InsideUncached(s: State, t: Tid)
    requires LocksMatch(s) && DirOwned(s) && HistoryOk(s) && t < |s.threads|
    requires InDir(s.threads[t].pc) && !Storing(s.threads[t].pc) && s.threads[t].pc.d !in s.listings
    ensures !Scanned(s, s.threads[t].pc.d)
  {
    var d := s.threads[t].pc.d;
    if Scanned(s, d) {
      assert BeingStored(s, d);
      var k :| 0 <= k < |s.threads| && Storing(s.threads[k].pc) && s.threads[k].pc.d == d;
      OneInside(s, t, k);
    }
  }

  lemma StepHistory(s: State, t: Tid, seen: Listing)
    requires LocksMatch(s) && DirOwned(s) && HistoryOk(s) && Enabled(s, t)
    ensures HistoryOk(Step(s, t, seen))
  {
    var u := Step(s, t, seen);
    StepScans(s, t, seen);
    forall k | 0 <= k < |u.threads| && Storing(u.threads[k].pc)
      ensures (u.threads[k].pc.d, u.threads[k].pc.r) in u.scans && u.threads[k].pc.d !in u.listings
    {
      StoringKept(s, t, seen, k);
    }
    forall i | 0 <= i < |u.scans| && u.scans[i].0 !in u.listings
      ensures BeingStored(u, u.scans[i].0)
    {
      StillStored(s, t, seen, i);
    }
    StepUnscanned(s, t, seen);
  }

  lemma StepScans(s: State, t: Tid, seen: Listing)
    requires HistoryOk(s) && Enabled(s, t)
    ensures ScansDistinct(Step(s, t, seen)) && CacheScanned(Step(s, t, seen))
  {
    var u := Step(s, t, seen);
    var pc := s.threads[t].pc;
    if pc.Scan? {
      assert Unscanned(pc) && !Scanned(s, pc.d);
      assert forall i :: 0 <= i < |s.scans| ==> u.scans[i] == s.scans[i];
    }
  }

  lemma StepUnscanned(s: State, t: Tid, seen: Listing)
    requires LocksMatch(s) && DirOwned(s) && HistoryOk(s) && Enabled(s, t)
    ensures UnscannedTrue(Step(s, t, seen))
  {
    var u := Step(s, t, seen);
    forall k | 0 <= k < |u.threads| && Unscanned(u.threads[k].pc)
      ensures !Scanned(u, u.threads[k].pc.d)
    {
      UnscannedKept(s, t, seen, k);
    }
  }

  lemma UnscannedKept(s: State, t: Tid, seen: Listing, k: Tid)
    requires LocksMatch(s) && DirOwned(s) && HistoryOk(s) && Enabled(s, t)
    requires k < |s.threads| && Unscanned(Step(s, t, seen).threads[k].pc)
    ensures !Scanned(Step(s, t, seen), Step(s, t, seen).threads[k].pc.d)
  {
    var pc := s.threads[t].pc;
    ScannedMore(s, t, seen);
    if k != t {
      assert Step(s, t, seen).threads[k] == s.threads[k];
      if pc.Scan? && s.threads[k].pc.d == pc.d { OneInside(s, t, k); }
    } else if pc.RecheckIn? {
      InsideUncached(s, t);
    } else {
      assert Unscanned(pc);
    }
  }

  lemma ScannedMore(s: State, t: Tid, seen: Listing)
    requires Enabled(s, t)
    ensures forall d ::
      Scanned(Step(s, t, seen), d) <==> (Scanned(s, d) || (s.threads[t].pc.Scan? && s.threads[t].pc.d == d))
  {
    var u := Step(s, t, seen);
    forall d | Scanned(s, d) ensures Scanned(u, d) {
      var i :| 0 <= i < |s.scans| && s.scans[i].0 == d;
      assert u.scans[i] == s.scans[i];
    }
    if s.threads[t].pc.Scan? { assert u.scans[|s.scans|].0 == s.threads[t].pc.d; }
  }

  lemma StoringKept(s: State, t: Tid, seen: Listing, k: Tid)
    requires LocksMatch(s) && DirOwned(s) && HistoryOk(s) && Enabled(s, t)
    requires k < |s.threads| && Storing(Step(s, t, seen).threads[k].pc)
    ensures var u := Step(s, t, seen);
      (u.threads[k].pc.d, u.threads[k].pc.r) in u.scans && u.threads[k].pc.d !in u.listings
  {
    var u := Step(s, t, seen);
    var pc := s.threads[t].pc;
    if k != t {
      assert u.threads[k] == s.threads[k];
      if pc.StoreIn? && pc.d == s.threads[k].pc.d { OneInside(s, t, k); }
    } else if pc.Scan? {
      assert u.scans[|s.scans|] == (pc.d, seen);
      if pc.d in s.listings { assert Scanned(s, pc.d); }
    }
  }

  lemma StillStored(s: State, t: Tid, seen: Listing, i: nat)
    requires HistoryOk(s) && Enabled(s, t)
    requires var u := Step(s, t, seen); i < |u.scans| && u.scans[i].0 !in u.listings
    ensures BeingStored(Step(s, t, seen), Step(s, t, seen).scans[i].0)
  {
    var u := Step(s, t, seen);
    var d := u.scans[i].0;
    if i < |s.scans| {
      assert u.scans[i] == s.scans[i] && BeingStored(s, d);
      var k :| 0 <= k < |s.threads| && Storing(s.threads[k].pc) && s.threads[k].pc.d == d;
      assert Storing(u.threads[k].pc) && u.threads[k].pc.d == d;
    } else {
      assert Storing(u.threads[t].pc) && u.threads[t].pc.d == d;
    }
  }

  /** The cache never changes an answer once it has one. */
  lemma CacheStable(s: State, t: Tid, seen: Listing)
    requires HistoryOk(s) && Enabled(s, t)
    ensures forall d :: d in s.listings ==> Lookup(Step(s, t, seen), d) == Lookup(s, d)
  {
  }

  lemma CacheKept(s: State, t: Tid, seen: Listing, u: State, d: Dir)
    requires HistoryOk(s) && Enabled(s, t) && u == Step(s, t, seen) && d in s.listings
    ensures Lookup(u, d) == Lookup(s, d)
  {
    CacheStable(s, t, seen);
  }

  lemma NextGives(s: State, t: Tid, seen: Listing, d: Dir, r: Listing)
    requires Enabled(s, t) && Gives(Step(s, t, seen).threads[t].pc, d, r)
    ensures Gives(s.threads[t].pc, d, r) || Lookup(Step(s, t, seen), d) == Some(r)
  {
    match s.threads[t].pc
    case ReadIn(e) =>
    case RecheckIn(e, _) =>
    case StoreIn(e, _, q) =>
    case RecheckHeld(e, _, got) =>
    case _ =>
  }

  lemma GivesKept(s: State, t: Tid, seen: Listing, k: Tid, d: Dir, r: Listing)
    requires HistoryOk(s) && ResultsOk(s) && Enabled(s, t)
    requires k < |s.threads| && Gives(Step(s, t, seen).threads[k].pc, d, r)
    ensures Lookup(Step(s, t, seen), d) == Some(r)
  {
    if k != t {
      assert Step(s, t, seen).threads[k] == s.threads[k];
    } else {
      NextGives(s, t, seen, d, r);
    }
    if Gives(s.threads[k].pc, d, r) {
      assert Lookup(s, d) == Some(r);
      CacheKept(s, t, seen, Step(s, t, seen), d);
    }
  }

  lemma StepResults(s: State, t: Tid, seen: Listing)
    requires HistoryOk(s) && ResultsOk(s) && Enabled(s, t)
    ensures ResultsOk(Step(s, t, seen))
  {
    var u := Step(s, t, seen);
    var pc := s.threads[t].pc;
    CacheStable(s, t, seen);
    forall k, d, r | 0 <= k < |u.threads| && Gives(u.threads[k].pc, d, r)
      ensures Lookup(u, d) == Some(r)
    {
      GivesKept(s, t, seen, k, d, r);
    }
    forall k, n | 0 <= k < |u.threads| && 0 <= n < |u.threads[k].done|
      ensures Lookup(u, u.threads[k].done[n].0) == Some(u.threads[k].done[n].1)
    {
      if k != t || n < |s.threads[k].done| {
        assert u.threads[k].done[n] == s.threads[k].done[n];
      } else {
        assert Gives(pc, u.threads[k].done[n].0, u.threads[k].done[n].1);
      }
    }
  }

  lemma StepCalls(s: State, t: Tid, seen: Listing, programs: seq<seq<Dir>>)
    requires CallsOk(s, programs) && Enabled(s, t)
    ensures CallsOk(Step(s, t, seen), programs)
  {
    var u := Step(s, t, seen);
    var th, next := s.threads[t], u.threads[t];
    assert programs[t] == Asked(next.done) + Current(next.pc) + next.todo by {
      if th.pc.Idle? {
        assert th.todo == [th.todo[0]] + th.todo[1..];
      } else if next.pc.Idle? {
        assert Asked(next.done) == Asked(th.done) + [th.pc.d];
      }
    }
    forall k | 0 <= k < |programs| && k != t
      ensures programs[k] == Asked(u.threads[k].done) + Current(u.threads[k].pc) + u.threads[k].todo
    {
      assert u.threads[k] == s.threads[k];
    }
  }

  lemma StepInv(s: State, t: Tid, seen: Listing, programs: seq<seq<Dir>>)
    requires Inv(s, programs) && Enabled(s, t)
    ensures Inv(Step(s, t, seen), programs)
  {
    StepGlobal(s, t, seen);
    StepLocks(s, t, seen);
    StepDir(s, t, seen);
    StepHistory(s, t, seen);
    StepResults(s, t, seen);
    StepCalls(s, t, seen, programs);
  }
}
