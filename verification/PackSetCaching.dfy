/** cachePackSet (arq/backup_set.go) as a transition system: a closed channel of listed
    objects, workers that validate, delete and retry, a buffered done channel and the
    main goroutine. The schedule and the remote are arbitrary. */
module PackSetCaching {
  import opened Buffers
  import opened Crypto
  import opened Cache

  // ---------- States and steps ----------

  /** `workers` is the capacity of the done channel and the number of goroutines;
      `remote(k, t)` is what the download of object k meets in its t-th CachedGet. */
  datatype Config = Config(
    listing: seq<Bytes>, workers: nat, sha1: Hash, backend: Backend,
    remote: (nat, nat) -> Fetch, initial: map<Bytes, Bytes>)

  /** Where a worker stands: an object's index, and which of its two CachedGets. A worker
      that panics first runs its deferred send, and then ends the process. */
  datatype Worker =
    | Receiving
    | Statting(k: nat, t: nat)
    | Creating(k: nat, t: nat)
    | Downloading(k: nat, t: nat)
    | Checking(k: nat, t: nat)
    | Removing(k: nat)
    | Panicking(k: nat)
    | Dying(k: nat)
    | Signalling
    | Finished

  /** listing[next..] is the channel of inputs. `downloads` and `checks` record how often
      each object was fetched and checked; `takenBy` which worker received it. */
  datatype State = State(
    next: nat, workers: seq<Worker>, sent: nat, received: nat, files: map<Bytes, Bytes>,
    processed: set<nat>, crashed: bool, takenBy: seq<nat>, downloads: seq<nat>, checks: seq<nat>)

  datatype Actor = Main | Goroutine(id: nat)

  function IndexSuffix(): Bytes {
    Ascii(".index")
  }

  predicate IsIndex(key: Bytes) {
    HasSuffix(key, IndexSuffix())
  }

  /** The objects to cache are those whose key ends in ".index". */
  lemma IndexKeysExactly(key: Bytes)
    ensures IsIndex(key) <==> exists name: Bytes :: key == name + [46, 105, 110, 100, 101, 120]
  {
    assert IndexSuffix() == [46, 105, 110, 100, 101, 120];
    if IsIndex(key) {
      var n := |key| - 6;
      assert key == key[..n] + key[n..];
    }
    if exists name: Bytes :: key == name + [46, 105, 110, 100, 101, 120] {
      var name: Bytes :| key == name + [46, 105, 110, 100, 101, 120];
      assert key[|name|..] == [46, 105, 110, 100, 101, 120];
    }
  }

  function Init(c: Config): State {
    State(0, seq(c.workers, _ => Receiving), 0, 0, c.initial, {}, false, [],
          seq(|c.listing|, _ => 0), seq(|c.listing|, _ => 0))
  }

  /** The object a worker has taken and not finished. */
  function Item(w: Worker): Option<nat> {
    match w
    case Statting(k, _) => Some(k)
    case Creating(k, _) => Some(k)
    case Downloading(k, _) => Some(k)
    case Checking(k, _) => Some(k)
    case Removing(k) => Some(k)
    case Panicking(k) => Some(k)
    case Dying(k) => Some(k)
    case _ => None
  }

  /** The worker has sent its signal. */
  predicate Sent(w: Worker) {
    w.Finished? || w.Dying?
  }

  predicate InRange(c: Config, s: State) {
    && |s.workers| == c.workers
    && s.next <= |c.listing| && |s.downloads| == |s.checks| == |c.listing| && |s.takenBy| == s.next
    && forall i :: 0 <= i < |s.workers| ==> Item(s.workers[i]).Some? ==> Item(s.workers[i]).value < s.next
  }

  /** A send blocks on a full channel, a receive on an empty one; the end of a panic ends
      all. */
  predicate Enabled(c: Config, s: State, a: Actor) {
    && !s.crashed
    && match a
       case Main => s.received < c.workers && s.received < s.sent
       case Goroutine(i) =>
         && i < |s.workers| && s.workers[i] != Finished
         && (s.workers[i].Signalling? || s.workers[i].Panicking? ==> s.sent - s.received < c.workers)
  }

  function Become(s: State, i: nat, w: Worker): State
    requires i < |s.workers|
  {
    s.(workers := s.workers[i := w])
  }

  function Process(s: State, i: nat, k: nat): State
    requires i < |s.workers|
  {
    Become(s, i, Receiving).(processed := s.processed + {k})
  }

  function Receive(c: Config, s: State, i: nat): State
    requires InRange(c, s) && i < |s.workers|
  {
    if s.next == |c.listing| then Become(s, i, Signalling)
    else
      var taken := s.(next := s.next + 1, takenBy := s.takenBy + [i]);
      if IsIndex(c.listing[s.next]) then Become(taken, i, Statting(s.next, 0)) else Process(taken, i, s.next)
  }

  function Check(c: Config, s: State, i: nat, k: nat, t: nat): State
    requires InRange(c, s) && i < |s.workers| && k < |c.listing|
  {
    var counted := s.(checks := s.checks[k := s.checks[k] + 1]);
    if ValidFile(c.sha1, Entry(s.files, c.listing[k])) then Process(counted, i, k)
    else if t == 0 then Become(counted, i, Removing(k))
    else Become(counted, i, Panicking(k))
  }

  function WorkerStep(c: Config, s: State, i: nat): State
    requires InRange(c, s) && i < |s.workers|
  {
    match s.workers[i]
    case Receiving => Receive(c, s, i)
    case Statting(k, t) =>
      if NeedsDownload(Entry(s.files, c.listing[k])) then Become(s, i, Creating(k, t))
      else Become(s, i, Checking(k, t))
    case Creating(k, t) =>
      var counted := s.(downloads := s.downloads[k := s.downloads[k] + 1]);
      if c.remote(k, t).Blocked? then Become(counted, i, Checking(k, t))
      else Become(counted, i, Downloading(k, t)).(files := s.files[c.listing[k] := []])
    case Downloading(k, t) =>
      Become(s, i, Checking(k, t)).(
        files := SetEntry(s.files, c.listing[k], AfterGet(c.backend, Some([]), c.remote(k, t))))
    case Checking(k, t) => Check(c, s, i, k, t)
    case Removing(k) =>
      if c.listing[k] in s.files then Become(s, i, Statting(k, 1)).(files := s.files - {c.listing[k]})
      else Become(s, i, Panicking(k))
    case Panicking(k) => Become(s, i, Dying(k)).(sent := s.sent + 1)
    case Dying(_) => s.(crashed := true)
    case Signalling => Become(s, i, Finished).(sent := s.sent + 1)
    case Finished => s
  }

  function Step(c: Config, s: State, a: Actor): State
    requires InRange(c, s) && Enabled(c, s, a)
  {
    match a
    case Main => s.(received := s.received + 1)
    case Goroutine(i) => WorkerStep(c, s, i)
  }

  /** A schedule is any sequence of actors; one that cannot move leaves the state. */
  function Run(c: Config, s: State, schedule: seq<Actor>): State
    requires InRange(c, s)
    decreases |schedule|
  {
    if schedule == [] then s
    else if Enabled(c, s, schedule[0]) then
      StepInRange(c, s, schedule[0]);
      Run(c, Step(c, s, schedule[0]), schedule[1..])
    else Run(c, s, schedule[1..])
  }

  lemma StepInRange(c: Config, s: State, a: Actor)
    requires InRange(c, s) && Enabled(c, s, a)
    ensures InRange(c, Step(c, s, a))
  {
    hide IsIndex, AfterGet, ValidFile, SetEntry, Entry, NeedsDownload;
  }

  predicate Returned(c: Config, s: State) {
    !s.crashed && s.received == c.workers
  }

  /** No worker has panicked. */
  predicate Calm(s: State) {
    forall i :: 0 <= i < |s.workers| ==> !s.workers[i].Panicking? && !s.workers[i].Dying?
  }

  /** What one goroutine's step means for the objects: it takes the next one, skips it,
      goes on with the one it holds, completes that after a successful check, or holds
      none before and after. */
  predicate Shape(c: Config, s: State, i: nat, s': State)
    requires i < |s.workers|
  {
    && |s'.workers| == |s.workers| && s'.workers == s.workers[i := s'.workers[i]]
    && s'.received == s.received
    && var before, after := Item(s.workers[i]), Item(s'.workers[i]);
       || (&& s.next < |c.listing| && s'.next == s.next + 1 && s'.takenBy == s.takenBy + [i] && before == None
           && s'.files == s.files && s'.sent == s.sent && !Sent(s.workers[i]) && !Sent(s'.workers[i])
           && !s'.workers[i].Signalling?
           && if IsIndex(c.listing[s.next]) then after == Some(s.next) && s'.processed == s.processed
              else after == None && s'.processed == s.processed + {s.next})
       || (&& s'.next == s.next && s'.takenBy == s.takenBy && s'.processed == s.processed && before == after
           && (before == None ==>
                 s'.files == s.files && s.next == |c.listing| && s'.workers[i] in {Signalling, Finished})
           && (before.Some? ==> !s'.workers[i].Finished? && !s'.workers[i].Signalling?)
           && (Sent(s.workers[i]) ==> Sent(s'.workers[i]))
           && s'.sent == s.sent + if Sent(s'.workers[i]) && !Sent(s.workers[i]) then 1 else 0)
       || (&& s'.next == s.next && s'.takenBy == s.takenBy && before.Some? && s'.workers[i] == Receiving
           && before.value < |c.listing| && s'.processed == s.processed + {before.value} && s'.files == s.files
           && s'.sent == s.sent && !Sent(s.workers[i])
           && ValidFile(c.sha1, Entry(s.files, c.listing[before.value])))
  }

  lemma ReceiveShape(c: Config, s: State, i: nat)
    requires InRange(c, s) && i < |s.workers| && s.workers[i].Receiving?
    ensures Shape(c, s, i, Receive(c, s, i))
  {
    hide IsIndex, ValidFile, Entry;
  }

  lemma CheckShape(c: Config, s: State, i: nat, k: nat, t: nat)
    requires InRange(c, s) && i < |s.workers| && s.workers[i] == Checking(k, t)
    ensures Shape(c, s, i, Check(c, s, i, k, t))
  {
    hide IsIndex, ValidFile, Entry;
  }

  lemma StepShape(c: Config, s: State, a: Actor)
    requires Channels(c, s) && Enabled(c, s, a) && a.Goroutine?
    ensures Shape(c, s, a.id, Step(c, s, a))
  {
    hide IsIndex, AfterGet, ValidFile, SetEntry, Entry, NeedsDownload, CountSent, Receive, Check;
    match s.workers[a.id]
    case Receiving => ReceiveShape(c, s, a.id);
    case Checking(k, t) => CheckShape(c, s, a.id, k, t);
    case _ =>
  }

  // ---------- The done channel ----------

  function CountSent(ws: seq<Worker>): (n: nat)
    ensures n <= |ws|
    ensures n == |ws| <==> forall i :: 0 <= i < |ws| ==> Sent(ws[i])
  {
    if ws == [] then 0
    else
      var n := |ws| - 1;
      assert forall i :: 0 <= i < n ==> ws[..n][i] == ws[i];
      CountSent(ws[..n]) + if Sent(ws[n]) then 1 else 0
  }

  lemma {:induction false} CountAfterUpdate(ws: seq<Worker>, i: nat, w: Worker)
    requires i < |ws| && (Sent(ws[i]) ==> Sent(w))
    ensures CountSent(ws[i := w]) == CountSent(ws) + if Sent(w) && !Sent(ws[i]) then 1 else 0
    decreases |ws|
  {
    var n := |ws| - 1;
    if i < n {
      assert ws[i := w][..n] == ws[..n][i := w];
      CountAfterUpdate(ws[..n], i, w);
    } else {
      assert ws[i := w][..n] == ws[..n];
    }
  }

  ghost predicate Channels(c: Config, s: State) {
    && InRange(c, s)
    && s.received <= s.sent == CountSent(s.workers)
    && (forall i :: 0 <= i < |s.workers| && (s.workers[i].Signalling? || s.workers[i].Finished?) ==>
          s.next == |c.listing|)
  }

  lemma StepKeepsChannels(c: Config, s: State, a: Actor)
    requires Channels(c, s) && Enabled(c, s, a)
    ensures Channels(c, Step(c, s, a))
  {
    hide IsIndex, ValidFile, Entry, WorkerStep, CountSent;
    StepInRange(c, s, a);
    if a.Goroutine? {
      StepShape(c, s, a);
      CountAfterUpdate(s.workers, a.id, Step(c, s, a).workers[a.id]);
    }
  }

  // ---------- Every object is pending, in flight or processed, and only one of them ----------

  predicate Holding(s: State, i: nat, k: nat) {
    i < |s.workers| && Item(s.workers[i]) == Some(k)
  }

  ghost predicate Partition(c: Config, s: State) {
    && Channels(c, s)
    && (forall k :: k in s.processed ==> k < s.next)
    && (forall i: nat, k: nat :: Holding(s, i, k) ==> k !in s.processed && k < s.next && s.takenBy[k] == i)
    && (forall k: nat :: k < s.next && k !in s.processed ==> Holding(s, s.takenBy[k], k))
  }

  lemma StepKeepsPartition(c: Config, s: State, a: Actor)
    requires Partition(c, s) && Enabled(c, s, a)
    ensures Partition(c, Step(c, s, a))
  {
    hide IsIndex, ValidFile, Entry, WorkerStep, CountSent;
    StepKeepsChannels(c, s, a);
    var s' := Step(c, s, a);
    if a.Goroutine? {
      StepShape(c, s, a);
      OthersHold(c, s, a.id, s');
      if Item(s.workers[a.id]).Some? { assert Holding(s, a.id, Item(s.workers[a.id]).value); }
    } else {
      assert forall j: nat, k: nat :: Holding(s', j, k) <==> Holding(s, j, k);
    }
    forall k: nat | k < s'.next && k !in s'.processed
      ensures Holding(s', s'.takenBy[k], k)
    {
      if k < s.next {
        assert Holding(s, s.takenBy[k], k);
      }
    }
  }

  lemma OthersHold(c: Config, s: State, i: nat, s': State)
    requires i < |s.workers| && Shape(c, s, i, s')
    ensures forall j: nat, k: nat :: j != i ==> (Holding(s', j, k) <==> Holding(s, j, k))
  {
  }

  // ---------- Validity of what is cached ----------

  /** Some worker is busy with this key and will check its file again. */
  ghost predicate Busy(c: Config, s: State, key: Bytes) {
    exists i: nat, j: nat :: Holding(s, i, j) && j < |c.listing| && c.listing[j] == key
  }

  ghost predicate Checked(c: Config, s: State) {
    && Partition(c, s)
    && forall k :: k in s.processed && IsIndex(c.listing[k]) ==>
         ValidFile(c.sha1, Entry(s.files, c.listing[k])) || Busy(c, s, c.listing[k])
  }

  lemma StepKeepsChecked(c: Config, s: State, a: Actor)
    requires Checked(c, s) && Enabled(c, s, a)
    ensures Checked(c, Step(c, s, a))
  {
    hide IsIndex, ValidFile, Entry, WorkerStep, CountSent, Item;
    StepKeepsPartition(c, s, a);
    var s' := Step(c, s, a);
    forall k | k in s'.processed && IsIndex(c.listing[k])
      ensures ValidFile(c.sha1, Entry(s'.files, c.listing[k])) || Busy(c, s', c.listing[k])
    {
      if a.Goroutine? {
        StepShape(c, s, a);
        CheckedStep(c, s, a, k);
      } else if Busy(c, s, c.listing[k]) {
        var i: nat, j: nat :| Holding(s, i, j) && j < |c.listing| && c.listing[j] == c.listing[k];
        assert Holding(s', i, j);
      }
    }
  }

  /** After a goroutine's step: if it works on this key, it stays busy or has just
      found the file valid; if not, it has not touched the file. */
  lemma CheckedStep(c: Config, s: State, a: Actor, k: nat)
    requires Checked(c, s) && Enabled(c, s, a) && a.Goroutine? && Shape(c, s, a.id, Step(c, s, a))
    requires k < |c.listing| && k in Step(c, s, a).processed && IsIndex(c.listing[k])
    ensures ValidFile(c.sha1, Entry(Step(c, s, a).files, c.listing[k])) || Busy(c, Step(c, s, a), c.listing[k])
  {
    hide IsIndex, ValidFile, Entry, WorkerStep, CountSent;
    var s', key := Step(c, s, a), c.listing[k];
    var before, after := Item(s.workers[a.id]), Item(s'.workers[a.id]);
    OthersHold(c, s, a.id, s');
    if before.Some? && c.listing[before.value] == key {
      if after.Some? { assert Holding(s', a.id, after.value); }
    } else {
      SameEntry(c, s, a, key);
      if k in s.processed && !ValidFile(c.sha1, Entry(s.files, key)) {
        var i: nat, j: nat :| Holding(s, i, j) && j < |c.listing| && c.listing[j] == key;
        assert Holding(s', i, j);
      }
    }
  }

  /** A step changes at most the file of the object its worker holds. */
  lemma SameEntry(c: Config, s: State, a: Actor, key: Bytes)
    requires InRange(c, s) && Enabled(c, s, a)
    requires a.Goroutine? ==> Item(s.workers[a.id]).Some? ==> c.listing[Item(s.workers[a.id]).value] != key
    ensures Entry(Step(c, s, a).files, key) == Entry(s.files, key)
  {
    hide AfterGet, IsIndex, ValidFile;
  }

  // ---------- At most two fetches and two checks ----------

  /** Downloads and checks already made by a worker at this point. */
  function Made(w: Worker): (nat, nat) {
    match w
    case Statting(_, t) => (t, t)
    case Creating(_, t) => (t, t)
    case Downloading(_, t) => (t + 1, t)
    case Checking(_, t) => (t + 1, t)
    case Removing(_) => (1, 1)
    case Panicking(_) => (2, 2)
    case Dying(_) => (2, 2)
    case _ => (0, 0)
  }

  ghost predicate Counted(c: Config, s: State) {
    && Partition(c, s)
    && (forall k :: 0 <= k < |c.listing| ==> s.downloads[k] <= 2 && s.checks[k] <= 2)
    && (forall k :: s.next <= k < |c.listing| ==> s.downloads[k] == 0 && s.checks[k] == 0)
    && (forall i: nat, k: nat :: Holding(s, i, k) && !s.crashed ==>
          s.downloads[k] <= Made(s.workers[i]).0 && s.checks[k] <= Made(s.workers[i]).1)
    && (forall i :: 0 <= i < |s.workers| ==> Attempt(s.workers[i]) <= 1)
  }

  function Attempt(w: Worker): nat {
    match w
    case Statting(_, t) => t
    case Creating(_, t) => t
    case Downloading(_, t) => t
    case Checking(_, t) => t
    case _ => 0
  }

  /** The counts of a worker's object before its step are at most in line with where it
      stands. */
  predicate InLine(s: State, w: Worker, k: nat) {
    k < |s.downloads| && k < |s.checks| && s.downloads[k] <= Made(w).0 && s.checks[k] <= Made(w).1
  }

  /** A step counts only for the object its worker holds, and keeps the counts in line. */
  ghost predicate CountsInLine(s: State, s': State, i: nat)
    requires i < |s.workers|
  {
    && |s'.workers| == |s.workers| && Attempt(s'.workers[i]) <= 1
    && match Item(s.workers[i])
       case None => s'.downloads == s.downloads && s'.checks == s.checks &&
                    (Item(s'.workers[i]).Some? ==> Made(s'.workers[i]) == (0, 0))
       case Some(k) =>
         && k < |s.downloads| && |s'.downloads| == |s.downloads| && k < |s.checks| && |s'.checks| == |s.checks|
         && s'.downloads == s.downloads[k := s'.downloads[k]] && s'.downloads[k] <= 2
         && s'.checks == s.checks[k := s'.checks[k]] && s'.checks[k] <= 2
         && (Item(s'.workers[i]) == Some(k) && !s'.crashed ==> InLine(s', s'.workers[i], k))
  }

  lemma CountersOfReceive(c: Config, s: State, i: nat)
    requires InRange(c, s) && i < |s.workers| && s.workers[i].Receiving?
    ensures CountsInLine(s, Receive(c, s, i), i)
  {
    hide IsIndex;
  }

  lemma CountersStep(c: Config, s: State, i: nat)
    requires InRange(c, s) && Enabled(c, s, Goroutine(i)) && Attempt(s.workers[i]) <= 1
    requires Item(s.workers[i]).Some? ==> InLine(s, s.workers[i], Item(s.workers[i]).value)
    ensures CountsInLine(s, WorkerStep(c, s, i), i)
  {
    hide Receive, IsIndex, AfterGet, ValidFile, SetEntry, Entry, NeedsDownload;
    if s.workers[i].Receiving? { CountersOfReceive(c, s, i); }
  }

  lemma StepKeepsCounted(c: Config, s: State, a: Actor)
    requires Counted(c, s) && Enabled(c, s, a)
    ensures Counted(c, Step(c, s, a))
  {
    hide IsIndex, ValidFile, Entry, WorkerStep, CountSent, Made, Attempt;
    StepKeepsPartition(c, s, a);
    if a.Goroutine? {
      var s', i := Step(c, s, a), a.id;
      StepShape(c, s, a);
      OthersHold(c, s, i, s');
      if Item(s.workers[i]).Some? { assert Holding(s, i, Item(s.workers[i]).value); }
      CountersStep(c, s, i);
      forall j: nat, k: nat | Holding(s', j, k) && !s'.crashed
        ensures s'.downloads[k] <= Made(s'.workers[j]).0 && s'.checks[k] <= Made(s'.workers[j]).1
      {
        if j != i {
          assert Holding(s, j, k) && s'.workers[j] == s.workers[j];
          assert Item(s.workers[i]) != Some(k);
        }
      }
    }
  }

  // ---------- The cache does not depend on the schedule ----------

  predicate Distinct(c: Config) {
    forall i, j :: 0 <= i < j < |c.listing| ==> c.listing[i] != c.listing[j]
  }

  function Before(c: Config, k: nat): File
    requires k < |c.listing|
  {
    Entry(c.initial, c.listing[k])
  }

  function First(c: Config, k: nat): File
    requires k < |c.listing|
  {
    AfterCachedGet(c.backend, Before(c, k), c.remote(k, 0))
  }

  /** What object k comes to on its own: the sequential validate, delete, retry. */
  function Outcome(c: Config, k: nat): Obtained
    requires k < |c.listing|
  {
    Obtain(c.sha1, c.backend, Before(c, k), c.remote(k, 0), c.remote(k, 1))
  }

  predicate Retrying(c: Config, k: nat)
    requires k < |c.listing|
  {
    First(c, k).Some? && !ValidFile(c.sha1, First(c, k))
  }

  /** The file of a worker's object, determined by where the worker stands. */
  predicate FileAt(c: Config, w: Worker, f: File)
    requires Item(w).Some? ==> Item(w).value < |c.listing|
  {
    match w
    case Statting(k, t) => if t == 0 then f == Before(c, k) else Retrying(c, k) && f == None
    case Creating(k, t) =>
      if t == 0 then f == Before(c, k) && NeedsDownload(f) else Retrying(c, k) && f == None
    case Downloading(k, t) =>
      && !c.remote(k, t).Blocked? && f == Some([])
      && if t == 0 then NeedsDownload(Before(c, k)) else Retrying(c, k)
    case Checking(k, t) =>
      if t == 0 then f == First(c, k)
      else Retrying(c, k) && f == AfterCachedGet(c.backend, None, c.remote(k, 1))
    case Removing(k) => f == First(c, k) && !ValidFile(c.sha1, f)
    case Panicking(k) => Outcome(c, k) == Unusable(f)
    case Dying(k) => Outcome(c, k) == Unusable(f)
    case _ => true
  }

  /** The final entry of object k: its own outcome, or untouched if it is no index. */
  predicate Settled(c: Config, k: nat, f: File)
    requires k < |c.listing|
  {
    if IsIndex(c.listing[k]) then Outcome(c, k).Usable? && f == Some(Outcome(c, k).contents)
    else f == Before(c, k)
  }

  predicate Doomed(c: Config, k: nat) {
    k < |c.listing| && IsIndex(c.listing[k]) && Outcome(c, k).Unusable?
  }

  ghost predicate Determined(c: Config, s: State) {
    && Counted(c, s)
    && (s.crashed ==> exists k :: Doomed(c, k))
    && (!s.crashed ==> forall i: nat, k: nat :: Holding(s, i, k) ==>
          IsIndex(c.listing[k]) && FileAt(c, s.workers[i], Entry(s.files, c.listing[k])))
    && (forall k :: k in s.processed ==> Settled(c, k, Entry(s.files, c.listing[k])))
    && (forall k :: s.next <= k < |c.listing| ==> Entry(s.files, c.listing[k]) == Before(c, k))
    && (forall key :: key !in c.listing ==> Entry(s.files, key) == Entry(c.initial, key))
  }

  lemma OwnFileCheck(c: Config, s: State, i: nat, k: nat, t: nat)
    requires InRange(c, s) && i < |s.workers| && s.workers[i] == Checking(k, t) && t <= 1 && k < |c.listing|
    requires IsIndex(c.listing[k]) && FileAt(c, s.workers[i], Entry(s.files, c.listing[k]))
    ensures var s' := Check(c, s, i, k, t);
            && |s'.workers| == |s.workers| && s'.crashed == s.crashed && s'.files == s.files
            && (Item(s'.workers[i]) == Some(k) ==> FileAt(c, s'.workers[i], Entry(s'.files, c.listing[k])))
            && (Item(s'.workers[i]) == None ==> Settled(c, k, Entry(s'.files, c.listing[k])))
  {
    hide IsIndex, HasSuffix;
  }

  /** One goroutine's step, seen from the object it holds. */
  lemma OwnFileStep(c: Config, s: State, i: nat, k: nat)
    requires InRange(c, s) && Enabled(c, s, Goroutine(i)) && Holding(s, i, k) && Attempt(s.workers[i]) <= 1
    requires IsIndex(c.listing[k]) && FileAt(c, s.workers[i], Entry(s.files, c.listing[k]))
    ensures var s' := WorkerStep(c, s, i); var f := Entry(s'.files, c.listing[k]);
            && |s'.workers| == |s.workers|
            && (Item(s'.workers[i]) == Some(k) && !s'.crashed ==> FileAt(c, s'.workers[i], f))
            && (Item(s'.workers[i]) == None ==> Settled(c, k, f))
            && (s'.crashed ==> Doomed(c, k))
  {
    hide IsIndex, HasSuffix, Check;
    if s.workers[i].Checking? { OwnFileCheck(c, s, i, k, s.workers[i].t); }
  }

  /** With distinct keys, a step leaves the files of all other objects alone. */
  lemma OtherFiles(c: Config, s: State, a: Actor, k: nat)
    requires Distinct(c) && Partition(c, s) && Enabled(c, s, a) && k < |c.listing|
    requires a.Goroutine? ==> !Holding(s, a.id, k)
    ensures Entry(Step(c, s, a).files, c.listing[k]) == Entry(s.files, c.listing[k])
  {
    hide Entry, WorkerStep, CountSent;
    SameEntry(c, s, a, c.listing[k]);
  }

  lemma StepKeepsDetermined(c: Config, s: State, a: Actor)
    requires Distinct(c) && Determined(c, s) && Enabled(c, s, a)
    ensures Determined(c, Step(c, s, a))
  {
    hide IsIndex, ValidFile, Entry, WorkerStep, CountSent, FileAt, Outcome, Attempt, Counted, SetEntry;
    CountedPartition(c, s);
    StepKeepsCounted(c, s, a);
    var s' := Step(c, s, a);
    CountedPartition(c, s');
    HoldersStep(c, s, a);
    forall key | key !in c.listing
      ensures Entry(s'.files, key) == Entry(s.files, key)
    {
      SameEntry(c, s, a, key);
    }
    forall k | s'.next <= k < |c.listing|
      ensures Entry(s'.files, c.listing[k]) == Before(c, k)
    {
      NextMonotone(c, s, a);
      OtherFiles(c, s, a, k);
    }
    forall k | k in s'.processed
      ensures Settled(c, k, Entry(s'.files, c.listing[k]))
    {
      SettledStep(c, s, a, k);
    }
    if s'.crashed {
      CrashIsDoomed(c, s, a);
    }
  }

  lemma CountedPartition(c: Config, s: State)
    requires Counted(c, s)
    ensures Partition(c, s) && forall i :: 0 <= i < |s.workers| ==> Attempt(s.workers[i]) <= 1
  {
  }

  lemma NextMonotone(c: Config, s: State, a: Actor)
    requires Partition(c, s) && Enabled(c, s, a)
    ensures s.next <= Step(c, s, a).next
  {
    hide WorkerStep, Entry, CountSent;
    if a.Goroutine? { StepShape(c, s, a); }
  }

  lemma SettledStep(c: Config, s: State, a: Actor, k: nat)
    requires Distinct(c) && Determined(c, s) && Enabled(c, s, a)
    requires k in Step(c, s, a).processed && k < |c.listing|
    ensures Settled(c, k, Entry(Step(c, s, a).files, c.listing[k]))
  {
    hide IsIndex, ValidFile, Entry, WorkerStep, CountSent, FileAt, Outcome, Attempt, Counted, SetEntry;
    CountedPartition(c, s);
    if a.Goroutine? {
      StepShape(c, s, a);
      if Holding(s, a.id, k) {
        OwnFileStep(c, s, a.id, k);
      } else {
        OtherFiles(c, s, a, k);
      }
    }
  }

  lemma CrashIsDoomed(c: Config, s: State, a: Actor)
    requires Determined(c, s) && Enabled(c, s, a) && Step(c, s, a).crashed
    ensures exists k :: Doomed(c, k)
  {
    hide IsIndex, ValidFile, Entry, WorkerStep, CountSent, FileAt, Counted, SetEntry, Doomed;
    CountedPartition(c, s);
    CrashOnlyHolding(c, s, a);
    var k := Item(s.workers[a.id]).value;
    assert Holding(s, a.id, k);
    OwnFileStep(c, s, a.id, k);
    assert Doomed(c, k);
  }

  lemma CrashOnlyHolding(c: Config, s: State, a: Actor)
    requires InRange(c, s) && Enabled(c, s, a)
    ensures Step(c, s, a).crashed ==> a.Goroutine? && Item(s.workers[a.id]).Some?
  {
    hide IsIndex, ValidFile, SetEntry, AfterGet;
  }

  lemma HoldersStep(c: Config, s: State, a: Actor)
    requires Distinct(c) && Determined(c, s) && Enabled(c, s, a) && Partition(c, Step(c, s, a))
    ensures var s' := Step(c, s, a);
            !s'.crashed ==> forall i: nat, k: nat :: Holding(s', i, k) ==>
              IsIndex(c.listing[k]) && FileAt(c, s'.workers[i], Entry(s'.files, c.listing[k]))
  {
    hide IsIndex, ValidFile, Entry, WorkerStep, CountSent, Settled, Counted, Before, FileAt, Attempt;
    CountedPartition(c, s);
    var s' := Step(c, s, a);
    forall i: nat, k: nat | Holding(s', i, k) && !s'.crashed
      ensures IsIndex(c.listing[k]) && FileAt(c, s'.workers[i], Entry(s'.files, c.listing[k]))
    {
      if a.Goroutine? {
        StepShape(c, s, a);
        OthersHold(c, s, a.id, s');
      }
      if a != Goroutine(i) {
        assert Holding(s, i, k) && s'.workers[i] == s.workers[i];
        OtherFiles(c, s, a, k);
      } else if Holding(s, i, k) {
        OwnFileStep(c, s, i, k);
      } else {
        TakenFile(c, s, i);
      }
    }
  }

  lemma TakenFile(c: Config, s: State, i: nat)
    requires Determined(c, s) && Enabled(c, s, Goroutine(i)) && Item(s.workers[i]).None?
    ensures var s' := WorkerStep(c, s, i);
            |s'.workers| == |s.workers| && (Item(s'.workers[i]).Some? ==>
              && Item(s'.workers[i]) == Some(s.next) && s.next < |c.listing| && IsIndex(c.listing[s.next])
              && FileAt(c, s'.workers[i], Entry(s'.files, c.listing[s.next])))
  {
    hide IsIndex, Entry, ValidFile, CountSent;
  }

  // ---------- No deadlock, and termination ----------

  /** A worker that has to send never blocks, when it has drained the channel or when it
      panics: there is room for every worker. */
  lemma SendNeverBlocks(c: Config, s: State, i: nat)
    requires Channels(c, s) && !s.crashed && i < |s.workers|
    requires s.workers[i].Signalling? || s.workers[i].Panicking?
    ensures Enabled(c, s, Goroutine(i))
  {
  }

  /** As long as the call has neither returned nor panicked, something can move. */
  lemma NoDeadlock(c: Config, s: State)
    requires Channels(c, s) && !s.crashed && !Returned(c, s)
    ensures exists a :: Enabled(c, s, a)
  {
    if forall i :: 0 <= i < |s.workers| ==> s.workers[i].Finished? {
      assert Enabled(c, s, Main);
    } else {
      var i: nat :| i < |s.workers| && !s.workers[i].Finished?;
      if s.workers[i].Signalling? || s.workers[i].Panicking? { SendNeverBlocks(c, s, i); }
      assert Enabled(c, s, Goroutine(i));
    }
  }

  /** Steps a worker may still make before it receives again, and after. */
  function Rank(w: Worker): nat {
    match w
    case Finished => 0
    case Dying(_) => 0
    case Signalling => 1
    case Panicking(_) => 1
    case Receiving => 2
    case Checking(_, t) => if t == 0 then 8 else 3
    case Downloading(_, t) => if t == 0 then 9 else 4
    case Creating(_, t) => if t == 0 then 10 else 5
    case Statting(_, t) => if t == 0 then 11 else 6
    case Removing(_) => 7
  }

  function SumRanks(ws: seq<Worker>): nat {
    if ws == [] then 0 else SumRanks(ws[..|ws| - 1]) + Rank(ws[|ws| - 1])
  }

  lemma {:induction false} SumAfterUpdate(ws: seq<Worker>, i: nat, w: Worker)
    requires i < |ws|
    ensures SumRanks(ws[i := w]) == SumRanks(ws) - Rank(ws[i]) + Rank(w)
    decreases |ws|
  {
    hide Rank;
    var n := |ws| - 1;
    if i < n {
      assert ws[i := w][..n] == ws[..n][i := w];
      SumAfterUpdate(ws[..n], i, w);
    } else {
      assert ws[i := w][..n] == ws[..n];
    }
  }

  /** A bound on the steps still possible. */
  function Measure(c: Config, s: State): nat
    requires InRange(c, s) && s.received <= c.workers
  {
    10 * (|c.listing| - s.next) + SumRanks(s.workers) + (c.workers - s.received) + if s.crashed then 0 else 1
  }

  lemma RankDecreases(c: Config, s: State, i: nat)
    requires InRange(c, s) && Enabled(c, s, Goroutine(i))
    ensures var s' := WorkerStep(c, s, i);
            && |s'.workers| == |s.workers| && s'.workers == s.workers[i := s'.workers[i]]
            && s'.received == s.received && s.next <= s'.next <= |c.listing|
            && 10 * (|c.listing| - s'.next) + Rank(s'.workers[i]) + (if s'.crashed then 0 else 1)
               < 10 * (|c.listing| - s.next) + Rank(s.workers[i]) + 1
  {
    hide IsIndex, ValidFile, Entry, SetEntry, AfterGet, NeedsDownload;
  }

  lemma StepDecreases(c: Config, s: State, a: Actor)
    requires Channels(c, s) && Enabled(c, s, a)
    ensures Channels(c, Step(c, s, a)) && Step(c, s, a).received <= c.workers
    ensures Measure(c, Step(c, s, a)) < Measure(c, s)
  {
    hide WorkerStep, SumRanks, CountSent, Rank;
    StepKeepsChannels(c, s, a);
    if a.Goroutine? {
      RankDecreases(c, s, a.id);
      SumAfterUpdate(s.workers, a.id, Step(c, s, a).workers[a.id]);
    }
  }

  /** How many of the scheduled actors could move. */
  function Moves(c: Config, s: State, schedule: seq<Actor>): nat
    requires InRange(c, s)
    decreases |schedule|
  {
    if schedule == [] then 0
    else if Enabled(c, s, schedule[0]) then
      StepInRange(c, s, schedule[0]);
      1 + Moves(c, Step(c, s, schedule[0]), schedule[1..])
    else Moves(c, s, schedule[1..])
  }

  lemma {:induction false} MovesBounded(c: Config, s: State, schedule: seq<Actor>)
    requires Channels(c, s) && s.received <= c.workers
    ensures Moves(c, s, schedule) <= Measure(c, s)
    decreases |schedule|
  {
    hide Step, Channels, Measure, Enabled;
    if schedule != [] {
      assert InRange(c, s) by { ChannelsInRange(c, s); }
      if Enabled(c, s, schedule[0]) {
        StepDecreases(c, s, schedule[0]);
        MovesBounded(c, Step(c, s, schedule[0]), schedule[1..]);
      } else {
        MovesBounded(c, s, schedule[1..]);
      }
    }
  }

  lemma ChannelsInRange(c: Config, s: State)
    requires Channels(c, s)
    ensures InRange(c, s)
  {
  }

  // ---------- Whole runs ----------

  lemma InitInvariants(c: Config)
    ensures Checked(c, Init(c)) && Determined(c, Init(c))
    ensures SumRanks(Init(c).workers) == 2 * c.workers
  {
    NoneFinished(c.workers);
  }

  lemma {:induction false} NoneFinished(n: nat)
    ensures CountSent(seq(n, _ => Receiving)) == 0
    ensures SumRanks(seq(n, _ => Receiving)) == 2 * n
  {
    if n > 0 {
      assert seq(n, _ => Receiving)[..n - 1] == seq(n - 1, _ => Receiving);
      NoneFinished(n - 1);
    }
  }

  lemma {:induction false} RunKeeps(c: Config, s: State, schedule: seq<Actor>)
    requires Checked(c, s) && Counted(c, s)
    ensures Checked(c, Run(c, s, schedule)) && Counted(c, Run(c, s, schedule))
    ensures Distinct(c) && Determined(c, s) ==> Determined(c, Run(c, s, schedule))
    decreases |schedule|
  {
    hide Step, Enabled, Partition, Distinct;
    if schedule != [] {
      assert InRange(c, s) by { CheckedInRange(c, s); }
      if Enabled(c, s, schedule[0]) {
        StepKeepsChecked(c, s, schedule[0]);
        StepKeepsCounted(c, s, schedule[0]);
        if Distinct(c) && Determined(c, s) { StepKeepsDetermined(c, s, schedule[0]); }
        StepInRange(c, s, schedule[0]);
        RunKeeps(c, Step(c, s, schedule[0]), schedule[1..]);
      } else {
        RunKeeps(c, s, schedule[1..]);
      }
    }
  }

  lemma CheckedInRange(c: Config, s: State)
    requires Checked(c, s)
    ensures InRange(c, s)
  {
  }

  function Final(c: Config, schedule: seq<Actor>): State {
    Run(c, Init(c), schedule)
  }

  /** In every interleaving, pending, in-flight and processed objects make up the
      listing: an object was received, by one recorded worker, and is either processed
      or held by that worker and no other, or it is still in the channel. None was
      fetched or checked more than twice. */
  lemma ObjectsConserved(c: Config, schedule: seq<Actor>, k: nat)
    requires k < |c.listing|
    ensures var s := Final(c, schedule);
            && s.next <= |c.listing| == |s.downloads| == |s.checks| && |s.takenBy| == s.next
            && (k in s.processed ==> k < s.next && forall i: nat :: !Holding(s, i, k))
            && (k < s.next && k !in s.processed ==> forall i: nat :: Holding(s, i, k) <==> i == s.takenBy[k])
            && (k >= s.next ==> forall i: nat :: !Holding(s, i, k))
            && s.downloads[k] <= 2 && s.checks[k] <= 2
  {
    hide Step, Run, CountSent;
    InitInvariants(c);
    RunKeeps(c, Init(c), schedule);
  }

  /** If the call returns and no worker has panicked, every listed object was processed
      and every listed key that ends in ".index" has a cache file that passes the checksum
      test. */
  lemma ReturnedMeansValid(c: Config, schedule: seq<Actor>)
    requires c.workers > 0 && Returned(c, Final(c, schedule)) && Calm(Final(c, schedule))
    ensures var s := Final(c, schedule); forall k: nat :: k < |c.listing| ==> k in s.processed
    ensures forall name: Bytes :: name + [46, 105, 110, 100, 101, 120] in c.listing ==>
              ValidFile(c.sha1, Entry(Final(c, schedule).files, name + [46, 105, 110, 100, 101, 120]))
  {
    hide Step, Run, IsIndex, ValidFile, Entry;
    InitInvariants(c);
    RunKeeps(c, Init(c), schedule);
    var s := Final(c, schedule);
    assert CountSent(s.workers) == |s.workers|;
    assert s.workers[0].Finished?;
    assert forall i: nat, k: nat :: !Holding(s, i, k);
    forall name: Bytes | name + [46, 105, 110, 100, 101, 120] in c.listing
      ensures ValidFile(c.sha1, Entry(s.files, name + [46, 105, 110, 100, 101, 120]))
    {
      IndexKeysExactly(name + [46, 105, 110, 100, 101, 120]);
    }
  }

  /** From every reachable state the call can go on until it returns or the process ends,
      and it does so within a number of steps fixed by the listing and the workers. */
  lemma AlwaysEnds(c: Config, schedule: seq<Actor>)
    ensures Moves(c, Init(c), schedule) <= 10 * |c.listing| + 3 * c.workers + 1
    ensures var s := Final(c, schedule);
            InRange(c, s) && (s.crashed || Returned(c, s) || exists a :: Enabled(c, s, a))
  {
    hide Step, Run, Moves, CountSent;
    InitInvariants(c);
    RunKeeps(c, Init(c), schedule);
    MovesBounded(c, Init(c), schedule);
    var s := Final(c, schedule);
    if !s.crashed && !Returned(c, s) { NoDeadlock(c, s); }
  }

  /** With distinct keys the result depends on the objects' own fetches, never on the
      schedule: a worker panics only over an object that fails on its own; if none has
      panicked when the call returns, none fails, and every cache entry is its object's
      own outcome; all other entries are untouched. */
  lemma ScheduleIndependent(c: Config, schedule: seq<Actor>)
    requires c.workers > 0 && Distinct(c)
    ensures var s := Final(c, schedule);
            && (s.crashed || !Calm(s) ==> exists k :: Doomed(c, k))
            && (Returned(c, s) && Calm(s) ==> forall k :: !Doomed(c, k))
            && (Returned(c, s) && Calm(s) ==> forall k: nat :: k < |c.listing| ==>
                  Settled(c, k, Entry(s.files, c.listing[k])))
            && (forall key :: key !in c.listing ==> Entry(s.files, key) == Entry(c.initial, key))
  {
    hide Step, Run, ValidFile, Entry, Outcome, Counted, FileAt, Doomed, Returned, Calm;
    InitInvariants(c);
    RunKeeps(c, Init(c), schedule);
    var s := Final(c, schedule);
    if Returned(c, s) && Calm(s) {
      ReturnedMeansValid(c, schedule);
      NoneDoomed(c, s);
    }
    if !s.crashed && !Calm(s) { var _ := PanicIsDoomed(c, s); }
  }

  lemma NoneDoomed(c: Config, s: State)
    requires Determined(c, s) && forall k: nat :: k < |c.listing| ==> k in s.processed
    ensures forall k :: !Doomed(c, k)
    ensures forall k: nat :: k < |c.listing| ==> Settled(c, k, Entry(s.files, c.listing[k]))
  {
    hide Entry, Counted, FileAt, Outcome;
  }

  lemma PanicIsDoomed(c: Config, s: State) returns (k: nat)
    requires Determined(c, s) && !s.crashed && !Calm(s)
    ensures Doomed(c, k) && k < |c.listing| && Outcome(c, k) == Unusable(Entry(s.files, c.listing[k]))
  {
    hide Entry, Outcome, Counted;
    CountedPartition(c, s);
    var i: nat :| i < |s.workers| && (s.workers[i].Panicking? || s.workers[i].Dying?);
    k := Item(s.workers[i]).value;
    assert Holding(s, i, k);
  }

  /** A worker that panics signals before the process ends, so that the call can return all
      the same. With distinct keys, what it then leaves is valid exactly if no worker has
      panicked. */
  lemma ReturnedValidExactly(c: Config, schedule: seq<Actor>)
    requires c.workers > 0 && Distinct(c) && Returned(c, Final(c, schedule))
    ensures (forall name: Bytes :: name + [46, 105, 110, 100, 101, 120] in c.listing ==>
               ValidFile(c.sha1, Entry(Final(c, schedule).files, name + [46, 105, 110, 100, 101, 120]))) <==>
            Calm(Final(c, schedule))
  {
    hide Step, Run, Entry, Outcome, Counted, FileAt, Final, IsIndex, Calm, HasSuffix;
    var s := Final(c, schedule);
    if Calm(s) {
      ReturnedMeansValid(c, schedule);
    } else {
      DeterminedFinally(c, schedule);
      var k := PanicIsDoomed(c, s);
      UsableIsChecksummed(c.sha1, c.backend, Before(c, k), c.remote(k, 0), c.remote(k, 1));
      UnusableIsInvalid(c, k, Entry(s.files, c.listing[k]));
      IndexKeysExactly(c.listing[k]);
      var name: Bytes :| c.listing[k] == name + [46, 105, 110, 100, 101, 120];
    }
  }

  lemma DeterminedFinally(c: Config, schedule: seq<Actor>)
    requires Distinct(c)
    ensures Determined(c, Final(c, schedule))
  {
    hide Step, Run, Entry, Outcome, Counted, FileAt;
    InitInvariants(c);
    RunKeeps(c, Init(c), schedule);
  }

  lemma UnusableIsInvalid(c: Config, k: nat, f: File)
    requires k < |c.listing| && Outcome(c, k) == Unusable(f)
    ensures !ValidFile(c.sha1, f)
  {
  }

  lemma FirstTryBlocked(c: Config, key: Bytes)
    requires c.listing == [key] && IsIndex(key) && c.workers == 1 && key !in c.initial && c.remote(0, 0) == Blocked
    ensures var w := Goroutine(0);
            Final(c, [w, w, w]) == State(1, [Checking(0, 0)], 0, 0, c.initial, {}, false, [0], [1], [0])
  {
    hide IsIndex, HasSuffix;
    var w := Goroutine(0);
    var taken := State(1, [Statting(0, 0)], 0, 0, c.initial, {}, false, [0], [0], [0]);
    var creating := taken.(workers := [Creating(0, 0)]);
    assert Step(c, Init(c), w) == taken && Step(c, taken, w) == creating;
    assert Run(c, creating, [w]) == Step(c, creating, w);
    assert Run(c, taken, [w, w]) == Run(c, creating, [w]);
  }

  lemma RetryPanics(c: Config, key: Bytes, s: State)
    requires c.listing == [key] && c.workers == 1 && key !in c.initial
    requires s == State(1, [Checking(0, 0)], 0, 0, c.initial, {}, false, [0], [1], [0])
    ensures var w := Goroutine(0); var r := Run(c, s, [w, w, w, Main]);
            Returned(c, r) && Entry(r.files, key) == None
  {
    var w := Goroutine(0);
    var removing := State(1, [Removing(0)], 0, 0, c.initial, {}, false, [0], [1], [1]);
    var panicking := removing.(workers := [Panicking(0)]);
    var dying := State(1, [Dying(0)], 1, 0, c.initial, {}, false, [0], [1], [1]);
    assert Step(c, s, w) == removing && Step(c, removing, w) == panicking && Step(c, panicking, w) == dying;
    assert Run(c, dying, [Main]) == dying.(received := 1);
    assert Run(c, panicking, [w, Main]) == Run(c, dying, [Main]);
    assert Run(c, removing, [w, w, Main]) == Run(c, panicking, [w, Main]);
  }

  lemma {:induction false} RunInParts(c: Config, s: State, one: seq<Actor>, other: seq<Actor>)
    requires InRange(c, s)
    ensures InRange(c, Run(c, s, one)) && Run(c, s, one + other) == Run(c, Run(c, s, one), other)
    decreases |one|
  {
    hide Step, Enabled, InRange;
    if one == [] {
      assert one + other == other;
    } else {
      assert (one + other)[1..] == one[1..] + other;
      if Enabled(c, s, one[0]) {
        StepInRange(c, s, one[0]);
        RunInParts(c, Step(c, s, one[0]), one[1..], other);
      } else {
        RunInParts(c, s, one[1..], other);
      }
    }
  }

  /** It does happen: with one worker and a cache directory that cannot be written, the
      worker panics over the only index, signals, and the call returns. */
  lemma ReturnsDespitePanic(c: Config, key: Bytes)
    requires c.listing == [key] && IsIndex(key) && c.workers == 1 && key !in c.initial && c.remote(0, 0) == Blocked
    ensures var w := Goroutine(0); var s := Final(c, [w, w, w] + [w, w, w, Main]);
            Returned(c, s) && Entry(s.files, key) == None
  {
    hide Run, IsIndex, Step;
    var w := Goroutine(0);
    FirstTryBlocked(c, key);
    RunInParts(c, Init(c), [w, w, w], [w, w, w, Main]);
    RetryPanics(c, key, Final(c, [w, w, w]));
  }

  /** Of two schedules that return, one without a panic, both leave the same cache. */
  lemma SameCache(c: Config, one: seq<Actor>, other: seq<Actor>)
    requires c.workers > 0 && Distinct(c)
    requires Returned(c, Final(c, one)) && Returned(c, Final(c, other)) && Calm(Final(c, one))
    ensures Final(c, one).files == Final(c, other).files
  {
    hide Step, Run, Outcome, Final, Distinct, Returned, Doomed, Calm;
    ScheduleIndependent(c, one);
    ScheduleIndependent(c, other);
    var m, n := Final(c, one).files, Final(c, other).files;
    forall key
      ensures Entry(m, key) == Entry(n, key)
    {
      if key in c.listing {
        var k: nat :| k < |c.listing| && c.listing[k] == key;
        assert Settled(c, k, Entry(m, c.listing[k])) && Settled(c, k, Entry(n, c.listing[k]));
      }
    }
    assert forall key :: key in m <==> Entry(m, key).Some?;
    assert forall key :: key in n <==> Entry(n, key).Some?;
    forall key | key in m ensures key in n && m[key] == n[key] {
      assert Entry(m, key) == Entry(n, key);
    }
  }
}
