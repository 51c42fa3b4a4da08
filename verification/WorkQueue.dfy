/** One reader thread, a bounded queue with a single mutex and a single condition variable, and a
  pool of workers, as a transition system.

  A thread that enters `push`, `pop` or `close` first waits for the mutex, then acts while holding
  it: it either does its work, notifies everybody and leaves, or goes to sleep on the condition
  variable, which releases the mutex. A notified or spuriously woken thread has to take the mutex
  again and re-check its condition. */
module WorkQueue {
  import opened Common

  type Line = string

  datatype ReaderPc =
    | RNext        // about to read a line
    | RLock        // in push, waiting for the mutex
    | RHold        // in push, holding the mutex
    | RSleep       // in push, asleep
    | RCloseLock   // `done` is set; in close, waiting for the mutex
    | RCloseHold   // in close, holding the mutex
    | RExit

  datatype WorkerPc =
    | WLock              // in pop, waiting for the mutex
    | WHold              // in pop, holding the mutex
    | WSleep             // in pop, asleep
    | WGot(line: Line)   // pop gave a line, which is being processed
    | WEmpty             // pop gave nothing; about to test `done`
    | WExit

  datatype Tid = Reader | Worker(id: nat)

  datatype Sys = Sys(
    cap: nat,
    input: seq<Line>,
    next: nat,               // lines read so far
    queue: seq<Line>,
    owner: Option<Tid>,      // of the mutex
    done: bool,
    closed: bool,
    reader: ReaderPc,
    workers: seq<WorkerPc>,
    popped: seq<Line>,       // history: every line popped, in order
    processed: seq<Line>)    // history: every line processed, in order

  function Init(cap: nat, input: seq<Line>, n: nat): Sys {
    Sys(cap, input, 0, [], None, false, false, RNext, seq(n, _ => WLock), [], [])
  }

  // ------------------------------------------------------------------ steps

  function WokenReader(r: ReaderPc): ReaderPc {
    if r == RSleep then RLock else r
  }

  function WokenWorker(w: WorkerPc): WorkerPc {
    if w == WSleep then WLock else w
  }

  function WokenWorkers(ws: seq<WorkerPc>): (r: seq<WorkerPc>)
    ensures |r| == |ws| && forall i :: 0 <= i < |ws| ==> r[i] == WokenWorker(ws[i])
  {
    seq(|ws|, i requires 0 <= i < |ws| => WokenWorker(ws[i]))
  }

  /** notify_all. */
  function NotifyAll(s: Sys): Sys {
    s.(reader := WokenReader(s.reader), workers := WokenWorkers(s.workers))
  }

  predicate Enabled(s: Sys, t: Tid) {
    match t
    case Reader =>
      (match s.reader
       case RSleep | RExit => false
       case RLock | RCloseLock => s.owner == None
       case _ => true)
    case Worker(i) =>
      i < |s.workers| &&
      (match s.workers[i]
       case WSleep | WExit => false
       case WLock => s.owner == None
       case _ => true)
  }

  function ReaderStep(s: Sys): Sys
    requires Enabled(s, Reader)
    requires s.reader == RHold ==> s.next < |s.input|
  {
    match s.reader
    case RNext =>
      if s.next < |s.input| then s.(reader := RLock) else s.(done := true, reader := RCloseLock)
    case RLock => s.(owner := Some(Reader), reader := RHold)
    case RHold =>
      var free := s.(owner := None);
      if !(s.closed || |s.queue| < s.cap) then free.(reader := RSleep)
      else if s.closed then free.(next := s.next + 1, reader := RNext)  // push gives up, the line is lost
      else NotifyAll(free.(queue := s.queue + [s.input[s.next]], next := s.next + 1, reader := RNext))
    case RCloseLock => s.(owner := Some(Reader), reader := RCloseHold)
    case RCloseHold => NotifyAll(s.(owner := None, closed := true, reader := RExit))
  }

  function WithWorker(s: Sys, i: nat, w: WorkerPc): Sys
    requires i < |s.workers|
  {
    s.(workers := s.workers[i := w])
  }

  function WorkerStep(s: Sys, i: nat): Sys
    requires Enabled(s, Worker(i))
  {
    match s.workers[i]
    case WLock => WithWorker(s, i, WHold).(owner := Some(Worker(i)))
    case WHold =>
      var free := s.(owner := None);
      if !(s.closed || s.queue != []) then WithWorker(free, i, WSleep)
      else if s.queue == [] then WithWorker(free, i, WEmpty)
      else
        var line := s.queue[0];
        NotifyAll(WithWorker(free, i, WGot(line)).(queue := s.queue[1..], popped := s.popped + [line]))
    case WGot(line) => WithWorker(s, i, WLock).(processed := s.processed + [line])
    case WEmpty => WithWorker(s, i, if s.done then WExit else WLock)
  }

  /** `Go` is a step of the thread itself, `Wake` a spurious wakeup. */
  datatype Action = Go(t: Tid) | Wake(t: Tid)

  predicate Asleep(s: Sys, t: Tid) {
    match t
    case Reader => s.reader == RSleep
    case Worker(i) => i < |s.workers| && s.workers[i] == WSleep
  }

  predicate Possible(s: Sys, a: Action) {
    match a
    case Go(t) => Enabled(s, t)
    case Wake(t) => Asleep(s, t)
  }

  function Do(s: Sys, a: Action): Sys
    requires Possible(s, a)
    requires s.reader == RHold ==> s.next < |s.input|
  {
    match a
    case Go(Reader) => ReaderStep(s)
    case Go(Worker(i)) => WorkerStep(s, i)
    case Wake(Reader) => s.(reader := RLock)
    case Wake(Worker(i)) => WithWorker(s, i, WLock)
  }

  // -------------------------------------------------------------- invariant

  function HeldBy(w: WorkerPc, line: Line): nat {
    if w == WGot(line) then 1 else 0
  }

  /** How many workers are processing this line. */
  function InHand(ws: seq<WorkerPc>, line: Line): nat {
    if ws == [] then 0 else InHand(ws[..|ws| - 1], line) + HeldBy(ws[|ws| - 1], line)
  }

  /** A thread is inside its critical section exactly when it owns the mutex. */
  ghost predicate Exclusive(s: Sys) {
    && (s.owner == Some(Reader) <==> s.reader == RHold || s.reader == RCloseHold)
    && (forall i :: 0 <= i < |s.workers| ==> (s.owner == Some(Worker(i)) <==> s.workers[i] == WHold))
    && (s.owner.Some? && s.owner.value.Worker? ==> s.owner.value.id < |s.workers|)
  }

  /** What the reader's position says about the flags and about the lines still to come. */
  ghost predicate ReaderAgrees(s: Sys) {
    && (s.done <==> s.reader == RCloseLock || s.reader == RCloseHold || s.reader == RExit)
    && (s.closed <==> s.reader == RExit)
    && (s.done ==> s.next == |s.input|)
    && (s.reader == RLock || s.reader == RHold || s.reader == RSleep ==> s.next < |s.input|)
    && (s.reader == RSleep ==> |s.queue| >= s.cap)
  }

  /** What each worker's position says about the queue. */
  ghost predicate WorkerAgrees(s: Sys, w: WorkerPc) {
    && (w == WSleep ==> !s.closed && s.queue == [])
    && (w == WEmpty || w == WExit ==> s.closed && s.queue == [])
  }

  ghost predicate WorkersAgree(s: Sys) {
    forall i :: 0 <= i < |s.workers| ==> WorkerAgrees(s, s.workers[i])
  }

  /** First in, first out, within the bound. */
  ghost predicate InOrder(s: Sys) {
    && s.next <= |s.input|
    && s.popped + s.queue == s.input[..s.next]
    && |s.queue| <= s.cap
    && (s.cap == 0 ==> s.next == 0)
    && (s.workers == [] ==> s.popped == [])
  }

  ghost predicate ConservedAt(s: Sys, line: Line) {
    multiset(s.popped)[line] == multiset(s.processed)[line] + InHand(s.workers, line)
  }

  /** Every popped line is being processed or has been, once. */
  ghost predicate Conserved(s: Sys) {
    forall line :: ConservedAt(s, line)
  }

  ghost predicate Control(s: Sys) {
    Exclusive(s) && ReaderAgrees(s) && WorkersAgree(s) && InOrder(s)
  }

  ghost predicate Inv(s: Sys) {
    Control(s) && Conserved(s)
  }

  lemma {:induction false} InHandUpdate(ws: seq<WorkerPc>, i: nat, w: WorkerPc, line: Line)
    requires i < |ws|
    ensures InHand(ws[i := w], line) + HeldBy(ws[i], line) == InHand(ws, line) + HeldBy(w, line)
    decreases |ws|
  {
    var front, ws' := ws[..|ws| - 1], ws[i := w];
    if i < |front| {
      InHandUpdate(front, i, w, line);
      assert ws'[..|ws| - 1] == front[i := w];
    } else {
      assert ws'[..|ws| - 1] == front;
    }
  }

  lemma {:induction false} InHandWoken(ws: seq<WorkerPc>, line: Line)
    ensures InHand(WokenWorkers(ws), line) == InHand(ws, line)
    decreases |ws|
  {
    if ws != [] {
      InHandWoken(ws[..|ws| - 1], line);
      assert WokenWorkers(ws)[..|ws| - 1] == WokenWorkers(ws[..|ws| - 1]);
    }
  }

  lemma {:induction false} NothingInHand(n: nat, line: Line)
    ensures InHand(seq(n, _ => WLock), line) == 0
  {
    if n > 0 {
      NothingInHand(n - 1, line);
      var ws: seq<WorkerPc> := seq(n, _ => WLock);
      assert ws[..n - 1] == seq(n - 1, _ => WLock);
    }
  }

  lemma InitInv(cap: nat, input: seq<Line>, n: nat)
    ensures Inv(Init(cap, input, n))
  {
    forall line ensures ConservedAt(Init(cap, input, n), line) { NothingInHand(n, line); }
  }

  lemma ReaderAdvances(s: Sys)
    requires Control(s) && Enabled(s, Reader) && s.reader != RHold && s.reader != RCloseHold
    ensures Control(ReaderStep(s))
  {
    assert ReaderStep(s).workers == s.workers;
  }

  lemma PushKeepsControl(s: Sys)
    requires Control(s) && s.reader == RHold
    ensures Control(ReaderStep(s))
  {
    if |s.queue| < s.cap {
      assert s.input[..s.next + 1] == s.input[..s.next] + [s.input[s.next]];
    }
  }

  lemma CloseKeepsControl(s: Sys)
    requires Control(s) && s.reader == RCloseHold
    ensures Control(ReaderStep(s))
  {
  }

  lemma PopKeepsExclusive(s: Sys, i: nat)
    requires Exclusive(s) && i < |s.workers| && s.workers[i] == WHold && s.queue != []
    ensures Exclusive(WorkerStep(s, i))
  {
  }

  lemma PopKeepsWorkers(s: Sys, i: nat)
    requires WorkersAgree(s) && i < |s.workers| && s.workers[i] == WHold && s.queue != []
    ensures WorkersAgree(WorkerStep(s, i))
  {
    assert forall k :: 0 <= k < |s.workers| ==> WorkerAgrees(s, s.workers[k]);
  }

  lemma PopKeepsControl(s: Sys, i: nat)
    requires Control(s) && i < |s.workers| && s.workers[i] == WHold && s.queue != []
    ensures Control(WorkerStep(s, i))
  {
    hide Exclusive, WorkersAgree;
    assert s.queue == [s.queue[0]] + s.queue[1..];
    PopKeepsExclusive(s, i);
    PopKeepsWorkers(s, i);
  }

  lemma EmptyPopKeepsControl(s: Sys, i: nat)
    requires Control(s) && i < |s.workers| && s.workers[i] == WHold && s.queue == []
    ensures Control(WorkerStep(s, i))
  {
  }

  lemma WorkerAdvances(s: Sys, i: nat)
    requires Control(s) && Enabled(s, Worker(i)) && s.workers[i] != WHold
    ensures Control(WorkerStep(s, i))
  {
    assert WorkerAgrees(s, s.workers[i]);
  }

  lemma ReaderKeepsControl(s: Sys)
    requires Control(s) && Enabled(s, Reader)
    ensures Control(ReaderStep(s))
  {
    hide Control, ReaderStep;
    if s.reader == RHold { PushKeepsControl(s); }
    else if s.reader == RCloseHold { CloseKeepsControl(s); }
    else { ReaderAdvances(s); }
  }

  lemma WorkerKeepsControl(s: Sys, i: nat)
    requires Control(s) && Enabled(s, Worker(i))
    ensures Control(WorkerStep(s, i))
  {
    hide Control, WorkerStep;
    if s.workers[i] != WHold { WorkerAdvances(s, i); }
    else if s.queue == [] { EmptyPopKeepsControl(s, i); }
    else { PopKeepsControl(s, i); }
  }

  lemma WakeKeepsControl(s: Sys, t: Tid)
    requires Control(s) && Asleep(s, t)
    ensures Control(Do(s, Wake(t)))
  {
  }

  lemma StepKeepsControl(s: Sys, a: Action)
    requires Control(s) && Possible(s, a)
    ensures Control(Do(s, a))
  {
    hide Control;
    match a
    case Go(Reader) => ReaderKeepsControl(s);
    case Go(Worker(i)) => WorkerKeepsControl(s, i);
    case Wake(t) => WakeKeepsControl(s, t);
  }

  lemma PopKeepsConserved(s: Sys, i: nat, line: Line)
    requires ConservedAt(s, line) && i < |s.workers| && s.workers[i] == WHold && s.queue != []
    ensures ConservedAt(WorkerStep(s, i), line)
  {
    var front := s.queue[0];
    InHandUpdate(s.workers, i, WGot(front), line);
    InHandWoken(s.workers[i := WGot(front)], line);
    assert multiset(s.popped + [front])[line] == multiset(s.popped)[line] + HeldBy(WGot(front), line);
  }

  lemma WorkerKeepsConserved(s: Sys, i: nat, line: Line)
    requires ConservedAt(s, line) && Enabled(s, Worker(i))
    ensures ConservedAt(WorkerStep(s, i), line)
  {
    if s.workers[i] == WHold && s.queue != [] {
      PopKeepsConserved(s, i, line);
    } else {
      InHandUpdate(s.workers, i, WorkerStep(s, i).workers[i], line);
    }
  }

  lemma StepKeepsConserved(s: Sys, a: Action, line: Line)
    requires ReaderAgrees(s) && ConservedAt(s, line) && Possible(s, a)
    ensures ConservedAt(Do(s, a), line)
  {
    match a
    case Go(Reader) => InHandWoken(s.workers, line);
    case Go(Worker(i)) => WorkerKeepsConserved(s, i, line);
    case Wake(Reader) =>
    case Wake(Worker(i)) => InHandUpdate(s.workers, i, WLock, line);
  }

  /** Every step keeps the invariant. */
  lemma StepKeepsInv(s: Sys, a: Action)
    requires Inv(s) && Possible(s, a)
    ensures Inv(Do(s, a))
  {
    hide Exclusive, WorkersAgree, InOrder, ConservedAt;
    StepKeepsControl(s, a);
    forall line ensures ConservedAt(Do(s, a), line) { assert ConservedAt(s, line); StepKeepsConserved(s, a, line); }
  }

  // ------------------------------------------------------------------- runs

  /** `acts` is a possible interleaving from s. */
  ghost predicate IsRun(s: Sys, acts: seq<Action>)
    requires Inv(s)
    decreases |acts|
  {
    acts == [] || (Possible(s, acts[0]) && (StepKeepsInv(s, acts[0]); IsRun(Do(s, acts[0]), acts[1..])))
  }

  ghost function After(s: Sys, acts: seq<Action>): (r: Sys)
    requires Inv(s) && IsRun(s, acts)
    ensures Inv(r) && r.cap == s.cap && r.input == s.input && |r.workers| == |s.workers|
    decreases |acts|
  {
    if acts == [] then s else
      StepKeepsInv(s, acts[0]);
      After(Do(s, acts[0]), acts[1..])
  }

  ghost function Start(cap: nat, input: seq<Line>, n: nat): (s: Sys)
    ensures Inv(s)
  {
    InitInv(cap, input, n);
    Init(cap, input, n)
  }

  ghost predicate Reachable(cap: nat, input: seq<Line>, n: nat, s: Sys) {
    exists acts :: IsRun(Start(cap, input, n), acts) && After(Start(cap, input, n), acts) == s
  }

  /** In every interleaving the lines popped, followed by those queued, are the lines pushed, in order,
    within the bound, and every popped line is in one worker's hands or has been processed, once. */
  lemma FirstInFirstOut(cap: nat, input: seq<Line>, n: nat, s: Sys)
    requires Reachable(cap, input, n, s)
    ensures s.next <= |input| && s.popped + s.queue == input[..s.next] && |s.queue| <= cap
    ensures forall line :: multiset(s.popped)[line] == multiset(s.processed)[line] + InHand(s.workers, line)
  {
    var acts :| IsRun(Start(cap, input, n), acts) && After(Start(cap, input, n), acts) == s;
    forall line ensures multiset(s.popped)[line] == multiset(s.processed)[line] + InHand(s.workers, line) {
      assert ConservedAt(s, line);
    }
  }

  /** A worker whose pop gave nothing always finds `done` set, so it never retries. */
  lemma RetryBranchIsDead(cap: nat, input: seq<Line>, n: nat, s: Sys, i: nat)
    requires Reachable(cap, input, n, s)
    requires i < |s.workers| && s.workers[i] == WEmpty
    ensures s.done && WorkerStep(s, i).workers[i] == WExit
  {
    assert WorkerAgrees(s, s.workers[i]);
  }

  /** The reader never pushes into a closed queue, so no line is given up. */
  lemma NoLineGivenUp(cap: nat, input: seq<Line>, n: nat, s: Sys)
    requires Reachable(cap, input, n, s)
    ensures s.reader == RHold ==> !s.closed
    ensures s.closed ==> s.next == |input|
  {
  }

  /** No wakeup is lost: whoever sleeps has nothing to do, and with room in the queue the two kinds
    of sleepers never coexist. */
  lemma SleepersHaveCause(cap: nat, input: seq<Line>, n: nat, s: Sys)
    requires Reachable(cap, input, n, s)
    ensures s.reader == RSleep ==> !s.closed && |s.queue| == cap
    ensures forall i :: 0 <= i < |s.workers| && s.workers[i] == WSleep ==> !s.closed && s.queue == []
    ensures cap > 0 && s.reader == RSleep ==> forall i :: 0 <= i < |s.workers| ==> s.workers[i] != WSleep
  {
    forall i | 0 <= i < |s.workers| && s.workers[i] == WSleep ensures !s.closed && s.queue == [] {
      assert WorkerAgrees(s, s.workers[i]);
    }
  }

  // -------------------------------------------------------------- completion

  ghost predicate Final(s: Sys) {
    s.reader == RExit && forall i :: 0 <= i < |s.workers| ==> s.workers[i] == WExit
  }

  /** No thread can move by itself. */
  ghost predicate Quiet(s: Sys) {
    forall t :: !Enabled(s, t)
  }

  lemma {:induction false} NobodyHolds(ws: seq<WorkerPc>, line: Line)
    requires forall i :: 0 <= i < |ws| ==> ws[i] == WExit
    ensures InHand(ws, line) == 0
    decreases |ws|
  {
    if ws != [] { NobodyHolds(ws[..|ws| - 1], line); }
  }

  /** When all threads have exited and there was a worker, the whole input has been popped in order
    and processed, each line exactly once. */
  lemma FinalMeansAllProcessed(cap: nat, input: seq<Line>, n: nat, s: Sys)
    requires n > 0 && Reachable(cap, input, n, s) && Final(s)
    ensures s.queue == [] && s.popped == input && multiset(s.processed) == multiset(input)
  {
    FirstInFirstOut(cap, input, n, s);
    assert |s.workers| == n;
    assert WorkerAgrees(s, s.workers[0]);
    assert input[..|input|] == input && s.popped + [] == s.popped;
    forall line ensures multiset(s.processed)[line] == multiset(input)[line] {
      NobodyHolds(s.workers, line);
    }
  }

  lemma OwnerCanMove(s: Sys)
    requires Exclusive(s)
    ensures s.owner == None || !Quiet(s)
  {
    if s.owner.Some? { assert Enabled(s, s.owner.value); }
  }

  /** The worker is asleep over an open and empty queue, or out after the close. */
  ghost predicate AtRest(s: Sys, w: WorkerPc) {
    (w == WExit && s.closed) || (w == WSleep && !s.closed && s.queue == [])
  }

  lemma QuietWorkers(s: Sys)
    requires Inv(s) && Quiet(s)
    ensures s.owner == None
    ensures forall i :: 0 <= i < |s.workers| ==> AtRest(s, s.workers[i])
  {
    OwnerCanMove(s);
    forall i | 0 <= i < |s.workers| ensures AtRest(s, s.workers[i]) {
      assert !Enabled(s, Worker(i)) && WorkerAgrees(s, s.workers[i]);
    }
  }

  /** In a quiet state that is not final, the reader sleeps and nobody will pop. */
  lemma QuietMeansReaderAsleep(s: Sys)
    requires Inv(s) && Quiet(s) && !Final(s)
    ensures s.reader == RSleep && |s.queue| == s.cap && s.next < |s.input|
    ensures s.cap == 0 || s.workers == []
  {
    QuietWorkers(s);
    assert !Enabled(s, Reader);
    assert s.workers != [] ==> AtRest(s, s.workers[0]);
  }

  // -------------------------------------------------------------- termination

  function ReaderRank(r: ReaderPc): nat {
    match r
    case RNext => 4
    case RLock => 3
    case RHold | RCloseLock => 2
    case RSleep | RCloseHold => 1
    case RExit => 0
  }

  function WorkerRank(w: WorkerPc): nat {
    match w
    case WGot(_) => 4
    case WLock => 3
    case WHold => 2
    case WSleep | WEmpty => 1
    case WExit => 0
  }

  function Ranks(ws: seq<WorkerPc>): nat {
    if ws == [] then 0 else Ranks(ws[..|ws| - 1]) + WorkerRank(ws[|ws| - 1])
  }

  /** Pushes, pops and the close still to come. */
  function Work(s: Sys): int {
    (|s.input| - s.next) + (|s.input| - |s.popped|) + if s.closed then 0 else 1
  }

  /** What one of these weighs against the wakeups that it causes. */
  function Weight(n: nat): nat { 2 * n + 5 }

  function Measure(s: Sys): int {
    Weight(|s.workers|) * Work(s) + ReaderRank(s.reader) + Ranks(s.workers)
  }

  lemma {:induction false} RanksUpdate(ws: seq<WorkerPc>, i: nat, w: WorkerPc)
    requires i < |ws|
    ensures Ranks(ws[i := w]) == Ranks(ws) - WorkerRank(ws[i]) + WorkerRank(w)
    decreases |ws|
  {
    var front, ws' := ws[..|ws| - 1], ws[i := w];
    if i < |front| {
      RanksUpdate(front, i, w);
      assert ws'[..|ws| - 1] == front[i := w];
    } else {
      assert ws'[..|ws| - 1] == front;
    }
  }

  lemma {:induction false} RanksWoken(ws: seq<WorkerPc>)
    ensures Ranks(WokenWorkers(ws)) <= Ranks(ws) + 2 * |ws|
    decreases |ws|
  {
    if ws != [] {
      RanksWoken(ws[..|ws| - 1]);
      assert WokenWorkers(ws)[..|ws| - 1] == WokenWorkers(ws[..|ws| - 1]);
    }
  }

  /** One piece of work less pays for the ranks that it raises. */
  lemma WorkDone(s: Sys, s': Sys)
    requires |s'.workers| == |s.workers| && Work(s') == Work(s) - 1
    requires ReaderRank(s'.reader) + Ranks(s'.workers) < ReaderRank(s.reader) + Ranks(s.workers) + Weight(|s.workers|)
    ensures Measure(s') < Measure(s)
  {
    var w, k := Weight(|s.workers|), Work(s);
    assert w * (k - 1) == w * k - w;
  }

  lemma SameWork(s: Sys, s': Sys)
    requires |s'.workers| == |s.workers| && Work(s') == Work(s)
    requires ReaderRank(s'.reader) + Ranks(s'.workers) < ReaderRank(s.reader) + Ranks(s.workers)
    ensures Measure(s') < Measure(s)
  {
  }

  /** Every step of a thread itself brings the end nearer. */
  lemma ReaderStepDrops(s: Sys)
    requires Control(s) && Enabled(s, Reader)
    ensures Measure(ReaderStep(s)) < Measure(s)
  {
    hide Exclusive, WorkersAgree, InOrder, Measure;
    var s' := ReaderStep(s);
    if (s.reader == RHold && |s.queue| < s.cap) || s.reader == RCloseHold {
      RanksWoken(s.workers);
      WorkDone(s, s');
    } else {
      SameWork(s, s');
    }
  }

  lemma PopDrops(s: Sys, i: nat)
    requires i < |s.workers| && s.workers[i] == WHold && s.queue != []
    ensures Measure(WorkerStep(s, i)) < Measure(s)
  {
    hide Measure;
    var ws := s.workers[i := WGot(s.queue[0])];
    RanksUpdate(s.workers, i, WGot(s.queue[0]));
    RanksWoken(ws);
    WorkDone(s, WorkerStep(s, i));
  }

  lemma WorkerStepDrops(s: Sys, i: nat)
    requires Control(s) && Enabled(s, Worker(i))
    ensures Measure(WorkerStep(s, i)) < Measure(s)
  {
    hide Exclusive, InOrder, Measure;
    if s.workers[i] == WHold && s.queue != [] {
      PopDrops(s, i);
    } else {
      assert WorkerAgrees(s, s.workers[i]);
      RanksUpdate(s.workers, i, WorkerStep(s, i).workers[i]);
      SameWork(s, WorkerStep(s, i));
    }
  }

  /** A spurious wakeup sets it back by two. */
  lemma WakeCostsTwo(s: Sys, t: Tid)
    requires Control(s) && Asleep(s, t)
    ensures Measure(Do(s, Wake(t))) == Measure(s) + 2
  {
    hide Control;
    match t
    case Reader =>
    case Worker(i) => RanksUpdate(s.workers, i, WLock);
  }

  lemma StepDrops(s: Sys, t: Tid)
    requires Control(s) && Enabled(s, t)
    ensures Measure(Do(s, Go(t))) < Measure(s)
  {
    hide Measure;
    match t
    case Reader => ReaderStepDrops(s);
    case Worker(i) => WorkerStepDrops(s, i);
  }

  lemma MeasureNonNegative(s: Sys)
    requires InOrder(s)
    ensures Measure(s) >= 0
  {
    assert |s.popped| <= |s.popped + s.queue| == s.next;
    assert Work(s) >= 0;
  }

  function Steps(acts: seq<Action>): nat {
    if acts == [] then 0 else Steps(acts[1..]) + if acts[0].Go? then 1 else 0
  }

  function Wakeups(acts: seq<Action>): nat {
    if acts == [] then 0 else Wakeups(acts[1..]) + if acts[0].Wake? then 1 else 0
  }

  lemma {:induction false} StepsBounded(s: Sys, acts: seq<Action>)
    requires Inv(s) && IsRun(s, acts)
    ensures Steps(acts) + Measure(After(s, acts)) <= Measure(s) + 2 * Wakeups(acts)
    decreases |acts|
  {
    if acts != [] {
      var a := acts[0];
      StepKeepsInv(s, a);
      StepsBounded(Do(s, a), acts[1..]);
      match a
      case Go(t) => StepDrops(s, t);
      case Wake(t) => WakeCostsTwo(s, t);
    }
  }

  lemma {:induction false} InitialRanks(n: nat)
    ensures Ranks(seq(n, _ => WLock)) == 3 * n
  {
    if n > 0 {
      InitialRanks(n - 1);
      var ws: seq<WorkerPc> := seq(n, _ => WLock);
      assert ws[..n - 1] == seq(n - 1, _ => WLock);
    }
  }

  lemma InvIsOrdered(s: Sys)
    requires Inv(s)
    ensures InOrder(s)
  {
  }

  lemma MeasureAtStart(cap: nat, input: seq<Line>, n: nat)
    ensures Measure(Start(cap, input, n)) == (2 * n + 5) * (2 * |input| + 1) + 3 * n + 4
  {
    InitialRanks(n);
    assert Work(Start(cap, input, n)) == 2 * |input| + 1;
  }

  /** Every run ends: apart from spurious wakeups, and two steps for each of these, it has a number of
    steps bounded by the input and the number of workers alone. */
  lemma EveryRunIsBounded(cap: nat, input: seq<Line>, n: nat, acts: seq<Action>)
    requires IsRun(Start(cap, input, n), acts)
    ensures Steps(acts) <= (2 * n + 5) * (2 * |input| + 1) + 3 * n + 4 + 2 * Wakeups(acts)
  {
    hide Measure, IsRun, Inv;
    var s := Start(cap, input, n);
    StepsBounded(s, acts);
    assert Measure(After(s, acts)) >= 0 by { InvIsOrdered(After(s, acts)); MeasureNonNegative(After(s, acts)); }
    MeasureAtStart(cap, input, n);
  }

  // ----------------------------------------------------------- no deadlock

  /** Each state that the threads can come to rest in is final. */
  ghost predicate NeverStuck(cap: nat, input: seq<Line>, n: nat) {
    forall s :: Reachable(cap, input, n, s) && Quiet(s) ==> Final(s)
  }

  lemma {:induction false} RunExtends(s: Sys, acts: seq<Action>, a: Action)
    requires Inv(s) && IsRun(s, acts) && Possible(After(s, acts), a)
    ensures IsRun(s, acts + [a]) && After(s, acts + [a]) == Do(After(s, acts), a)
    decreases |acts|
  {
    var all := acts + [a];
    if acts != [] {
      StepKeepsInv(s, acts[0]);
      RunExtends(Do(s, acts[0]), acts[1..], a);
      assert all[1..] == acts[1..] + [a];
    } else {
      StepKeepsInv(s, a);
      assert all[1..] == [];
    }
  }

  /** From every state the threads come to rest, if they are left to themselves. */
  lemma {:induction false} ComesToRest(cap: nat, input: seq<Line>, n: nat, s: Sys) returns (r: Sys)
    requires Reachable(cap, input, n, s)
    ensures Reachable(cap, input, n, r) && Quiet(r)
    decreases Measure(s)
  {
    hide Measure, Enabled, Start, Do;
    var acts :| IsRun(Start(cap, input, n), acts) && After(Start(cap, input, n), acts) == s;
    if Quiet(s) {
      r := s;
    } else {
      var t :| Enabled(s, t);
      RunExtends(Start(cap, input, n), acts, Go(t));
      MeasureNonNegative(s);
      StepDrops(s, t);
      r := ComesToRest(cap, input, n, Do(s, Go(t)));
    }
  }

  lemma StartIsReachable(cap: nat, input: seq<Line>, n: nat)
    ensures Reachable(cap, input, n, Start(cap, input, n))
  {
    assert IsRun(Start(cap, input, n), []);
  }

  /** The program always ends by itself exactly when there is nothing to read, or there is room in the
    queue and someone empties it or the whole input fits. */
  lemma DeadlockFreedom(cap: nat, input: seq<Line>, n: nat)
    ensures NeverStuck(cap, input, n) <==> input == [] || (cap > 0 && (n > 0 || |input| <= cap))
  {
    if input == [] || (cap > 0 && (n > 0 || |input| <= cap)) {
      forall s | Reachable(cap, input, n, s) && Quiet(s) ensures Final(s) {
        FirstInFirstOut(cap, input, n, s);
        if !Final(s) { QuietMeansReaderAsleep(s); }
      }
    } else {
      StartIsReachable(cap, input, n);
      var s := ComesToRest(cap, input, n, Start(cap, input, n));
      FirstInFirstOut(cap, input, n, s);
    }
  }

  /** The program has come to its end with the whole input processed, each line exactly once. */
  ghost predicate AllProcessed(s: Sys) {
    Final(s) && s.popped == s.input && multiset(s.processed) == multiset(s.input)
  }

  lemma RestMeansAllProcessed(cap: nat, input: seq<Line>, n: nat, s: Sys)
    requires Reachable(cap, input, n, s) && Quiet(s) && (input == [] || (cap > 0 && n > 0))
    ensures AllProcessed(s)
  {
    hide Quiet, Final;
    DeadlockFreedom(cap, input, n);
    assert NeverStuck(cap, input, n);
    if n > 0 {
      FinalMeansAllProcessed(cap, input, n, s);
    } else {
      FirstInFirstOut(cap, input, n, s);
      assert s.popped == [];
      assert s.input == input && s.workers == [];
      forall line ensures multiset(s.processed)[line] == 0 {
        assert multiset(s.popped)[line] == multiset(s.processed)[line] + InHand(s.workers, line);
      }
    }
  }

  /** Without a worker, or without room, nothing is ever processed. */
  lemma NothingProcessed(cap: nat, input: seq<Line>, n: nat, s: Sys)
    requires Reachable(cap, input, n, s) && input != [] && (cap == 0 || n == 0)
    ensures s.popped == [] && s.input == input && !AllProcessed(s)
  {
    hide Final;
    FirstInFirstOut(cap, input, n, s);
  }

  /** Every run that cannot go on has processed the whole input, each line once, exactly when there is nothing to read, or
    there are room for a line and a worker. Without a worker an input that fits comes to its end unprocessed. */
  lemma EveryCompleteRunProcessesAll(cap: nat, input: seq<Line>, n: nat)
    ensures (forall s :: Reachable(cap, input, n, s) && Quiet(s) ==> AllProcessed(s))
      <==> input == [] || (cap > 0 && n > 0)
  {
    hide Reachable, Quiet, AllProcessed;
    if input == [] || (cap > 0 && n > 0) {
      forall s | Reachable(cap, input, n, s) && Quiet(s) ensures AllProcessed(s) {
        RestMeansAllProcessed(cap, input, n, s);
      }
    } else {
      StartIsReachable(cap, input, n);
      var s := ComesToRest(cap, input, n, Start(cap, input, n));
      NothingProcessed(cap, input, n, s);
    }
  }

  // ------------------------------------------------------------- one worker

  function LinesHeld(w: WorkerPc): seq<Line> {
    if w.WGot? then [w.line] else []
  }

  /** What the only worker has popped is what it has processed and what it holds, in this order. */
  ghost predicate Solo(s: Sys) {
    |s.workers| == 1 ==> s.popped == s.processed + LinesHeld(s.workers[0])
  }

  lemma SoloMoves(s: Sys)
    requires Solo(s) && |s.workers| == 1 && Enabled(s, Worker(0))
    ensures Solo(WorkerStep(s, 0))
  {
    match s.workers[0]
    case WHold => if s.queue != [] { assert s.popped == s.processed; }
    case WGot(line) => assert s.popped == s.processed + [line];
    case _ =>
  }

  lemma SoloStays(s: Sys)
    requires Solo(s) && |s.workers| == 1 && Enabled(s, Reader) && (s.reader == RHold ==> s.next < |s.input|)
    ensures Solo(ReaderStep(s)) && |ReaderStep(s).workers| == 1
  {
    assert |NotifyAll(s).workers| == 1 && NotifyAll(s).workers[0] == WokenWorker(s.workers[0]);
  }

  lemma SameWorkers(s: Sys, a: Action)
    requires Possible(s, a) && (s.reader == RHold ==> s.next < |s.input|)
    ensures |Do(s, a).workers| == |s.workers|
  {
  }

  lemma OnlyWorker(s: Sys, i: nat)
    requires |s.workers| == 1 && Enabled(s, Worker(i))
    ensures i == 0
  {
  }

  lemma StepKeepsSolo(s: Sys, a: Action)
    requires Solo(s) && Possible(s, a) && (s.reader == RHold ==> s.next < |s.input|)
    ensures Solo(Do(s, a))
  {
    hide Enabled, ReaderStep, WorkerStep;
    SameWorkers(s, a);
    if |s.workers| == 1 {
      match a
      case Go(Reader) => SoloStays(s);
      case Wake(_) =>
      case Go(Worker(i)) => assert i == 0 by { OnlyWorker(s, i); } SoloMoves(s);
    }
  }

  lemma {:induction false} RunKeepsSolo(s: Sys, acts: seq<Action>)
    requires Inv(s) && Solo(s) && IsRun(s, acts)
    ensures Solo(After(s, acts))
    decreases |acts|
  {
    hide Solo, Do;
    if acts != [] {
      StepKeepsInv(s, acts[0]);
      StepKeepsSolo(s, acts[0]);
      RunKeepsSolo(Do(s, acts[0]), acts[1..]);
    }
  }

  /** A single worker processes the input in its order: what it has processed is always a front of the input, and all of
    it when the run cannot go on. */
  lemma OneWorkerInOrder(cap: nat, input: seq<Line>, s: Sys)
    requires Reachable(cap, input, 1, s)
    ensures s.processed <= input
    ensures Quiet(s) && (cap > 0 || input == []) ==> s.processed == input
  {
    hide Quiet, Inv;
    var acts :| IsRun(Start(cap, input, 1), acts) && After(Start(cap, input, 1), acts) == s;
    RunKeepsSolo(Start(cap, input, 1), acts);
    FirstInFirstOut(cap, input, 1, s);
    assert s.processed <= s.popped <= s.popped + s.queue <= input;
    if Quiet(s) && (cap > 0 || input == []) {
      RestMeansAllProcessed(cap, input, 1, s);
      assert |s.processed| == |multiset(s.processed)| == |multiset(input)| == |input|;
    }
  }
}
