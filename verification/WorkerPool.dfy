/**
 Order-item resolution: up to eight workers read indexes from one buffered channel, write rows,
 and report the first error on a second channel of capacity one. Workers and feeder interleave freely.
 */
module WorkerPool {
  import opened Basics

  const MAX_WORKERS: nat := 8

  /** `resolve` stands for the resolution of one command, `blank` for an untouched row. */
  datatype Job<!C, I, E> = Job(commands: seq<C>, resolve: C -> Result<I, E>, blank: I) {
    function Outcome(i: nat): Result<I, E>
      requires i < |commands|
    {
      resolve(commands[i])
    }

    function WorkerCount(): nat {
      if MAX_WORKERS > |commands| then |commands| else MAX_WORKERS
    }
  }

  datatype Feeder<I, E> =
    | Feeding                               // inside the sending loop
    | Aborting(error: E)                    // received an error, has not closed the channel yet
    | Draining(abort: Option<E>)            // channel closed, waits for the workers
    | Returned(result: Result<seq<I>, E>)

  datatype Worker<E> = Ready | Resolving(index: nat) | Failing(index: nat, error: E) | Exited

  datatype Pool<I, E> = Pool(
    next: nat,                  // indexes sent so far
    queue: seq<nat>,            // the index channel
    closed: bool,
    errors: Option<E>,          // the error channel
    rows: seq<I>,
    feeder: Feeder<I, E>,
    workers: seq<Worker<E>>)

  datatype Step = Send | TakeError | Close | Return | Receive(w: nat) | Stop(w: nat) | Resolve(w: nat) | Report(w: nat)

  function Start<C, I, E>(job: Job<C, I, E>): Pool<I, E> {
    var n := |job.commands|;
    if n == 0 then Pool(0, [], false, None, [], Returned(Ok([])), [])
    else Pool(0, [], false, None, seq(n, i => job.blank), Feeding, seq(job.WorkerCount(), i => Ready))
  }

  predicate Enabled<C, I, E>(job: Job<C, I, E>, p: Pool<I, E>, a: Step) {
    match a
    case Send => p.feeder.Feeding? && p.next < |job.commands| && |p.queue| < |job.commands|
    case TakeError => p.feeder.Feeding? && p.next < |job.commands| && p.errors.Some?
    case Close => p.feeder.Aborting? || (p.feeder.Feeding? && p.next == |job.commands|)
    case Return => p.feeder.Draining? && forall w :: 0 <= w < |p.workers| ==> p.workers[w].Exited?
    case Receive(w) => w < |p.workers| && p.workers[w].Ready? && p.queue != []
    case Stop(w) => w < |p.workers| && p.workers[w].Ready? && p.queue == [] && p.closed
    case Resolve(w) => w < |p.workers| && p.workers[w].Resolving?
                       && p.workers[w].index < |job.commands| && p.workers[w].index < |p.rows|
    case Report(w) => w < |p.workers| && p.workers[w].Failing?
  }

  function Apply<C, I, E>(job: Job<C, I, E>, p: Pool<I, E>, a: Step): Pool<I, E>
    requires Enabled(job, p, a)
  {
    match a
    case Send => p.(queue := p.queue + [p.next], next := p.next + 1)
    case TakeError => p.(feeder := Aborting(p.errors.value), errors := None)
    case Close =>
      p.(closed := true, feeder := Draining(if p.feeder.Aborting? then Some(p.feeder.error) else None))
    case Return =>
      if p.feeder.abort.Some? then p.(feeder := Returned(Err(p.feeder.abort.value)))
      else if p.errors.Some? then p.(feeder := Returned(Err(p.errors.value)), errors := None)
      else p.(feeder := Returned(Ok(p.rows)))
    case Receive(w) => p.(queue := p.queue[1..], workers := p.workers[w := Resolving(p.queue[0])])
    case Stop(w) => p.(workers := p.workers[w := Exited])
    case Resolve(w) =>
      (match job.Outcome(p.workers[w].index)
       case Ok(item) => p.(rows := p.rows[p.workers[w].index := item], workers := p.workers[w := Ready])
       case Err(e) => p.(workers := p.workers[w := Failing(p.workers[w].index, e)]))
    case Report(w) =>
      p.(errors := if p.errors.None? then Some(p.workers[w].error) else p.errors,
         workers := p.workers[w := Exited])
  }

  // ----- the inductive invariant -----

  /** The channel holds consecutive indexes, the last of which was sent last. */
  ghost predicate QueueInv<C, I, E>(job: Job<C, I, E>, p: Pool<I, E>) {
    && p.next <= |job.commands|
    && |p.queue| <= p.next
    && (forall i :: 0 <= i < |p.queue| ==> p.queue[i] == p.next - |p.queue| + i)
  }

  ghost predicate IsBusy<I, E>(p: Pool<I, E>, w: nat, i: nat) {
    w < |p.workers| && p.workers[w] == Resolving(i)
  }

  /** No index is held by two workers, and none is held while it is still in the channel. */
  ghost predicate WorkerInv<I, E>(p: Pool<I, E>) {
    && (forall w: nat, i: nat :: IsBusy(p, w, i) ==> i + |p.queue| < p.next)
    && (forall v: nat, w: nat, i: nat :: IsBusy(p, v, i) && IsBusy(p, w, i) ==> v == w)
  }

  /** Some failure is on its way to the caller. */
  ghost predicate Trouble<I, E>(p: Pool<I, E>) {
    p.errors.Some? || p.feeder.Aborting? || (p.feeder.Draining? && p.feeder.abort.Some?)
  }

  ghost predicate Handled<C, I, E>(job: Job<C, I, E>, p: Pool<I, E>, i: nat)
    requires i < |job.commands|
  {
    || (exists w: nat :: IsBusy(p, w, i))
    || (exists w :: 0 <= w < |p.workers| && p.workers[w].Failing?)
    || Trouble(p)
    || (i < |p.rows| && job.Outcome(i) == Ok(p.rows[i]))
  }

  ghost predicate RowInv<C, I, E>(job: Job<C, I, E>, p: Pool<I, E>) {
    && |p.rows| == |job.commands|
    && (forall i :: 0 <= i < p.next - |p.queue| && i < |job.commands| ==> Handled(job, p, i))
  }

  ghost predicate Fails<C, I, E>(job: Job<C, I, E>, e: E) {
    exists i :: 0 <= i < |job.commands| && job.Outcome(i) == Err(e)
  }

  ghost predicate ErrorInv<C, I, E>(job: Job<C, I, E>, p: Pool<I, E>) {
    && (p.errors.Some? ==> Fails(job, p.errors.value))
    && (p.feeder.Aborting? ==> Fails(job, p.feeder.error))
    && (p.feeder.Draining? && p.feeder.abort.Some? ==> Fails(job, p.feeder.abort.value))
    && (forall w :: 0 <= w < |p.workers| && p.workers[w].Failing? ==> Fails(job, p.workers[w].error))
  }

  ghost predicate ExitInv<I, E>(p: Pool<I, E>) {
    forall w :: 0 <= w < |p.workers| && p.workers[w].Exited? ==> (p.closed && p.queue == []) || Trouble(p)
  }

  ghost predicate FeederInv<C, I, E>(job: Job<C, I, E>, p: Pool<I, E>) {
    && p.closed == p.feeder.Draining?
    && (p.feeder.Draining? && p.feeder.abort.None? ==> p.next == |job.commands|)
    && |p.workers| == job.WorkerCount()
    && |p.workers| > 0
  }

  /** The rows a sequential run would produce. */
  ghost predicate IsResolved<C, I, E>(job: Job<C, I, E>, rows: seq<I>) {
    |rows| == |job.commands| && forall i :: 0 <= i < |rows| ==> job.Outcome(i) == Ok(rows[i])
  }

  ghost predicate Correct<C, I, E>(job: Job<C, I, E>, result: Result<seq<I>, E>) {
    match result
    case Ok(rows) => IsResolved(job, rows)
    case Err(e) => Fails(job, e)
  }

  ghost predicate Inv<C, I, E>(job: Job<C, I, E>, p: Pool<I, E>) {
    if p.feeder.Returned? then
      && Correct(job, p.feeder.result) && p.next <= |job.commands|
      && forall w :: 0 <= w < |p.workers| ==> p.workers[w].Exited?
    else
      && QueueInv(job, p) && WorkerInv(p) && RowInv(job, p)
      && ErrorInv(job, p) && ExitInv(p) && FeederInv(job, p)
  }

  ghost predicate Working<C, I, E>(job: Job<C, I, E>, p: Pool<I, E>, a: Step) {
    Inv(job, p) && !p.feeder.Returned? && Enabled(job, p, a)
  }

  lemma StartInv<C, I, E>(job: Job<C, I, E>)
    ensures Inv(job, Start(job))
  {
  }

  lemma QueueStep<C, I, E>(job: Job<C, I, E>, p: Pool<I, E>, a: Step)
    requires Working(job, p, a)
    ensures QueueInv(job, Apply(job, p, a))
  {
  }

  lemma BusyAfter<C, I, E>(job: Job<C, I, E>, p: Pool<I, E>, a: Step, w: nat, i: nat)
    requires Working(job, p, a)
    ensures IsBusy(Apply(job, p, a), w, i) <==>
      if a.Receive? && a.w == w then i == p.queue[0]
      else IsBusy(p, w, i) && !(a.Resolve? && a.w == w)
  {
  }

  lemma WorkerStep<C, I, E>(job: Job<C, I, E>, p: Pool<I, E>, a: Step)
    requires Working(job, p, a)
    ensures WorkerInv(Apply(job, p, a))
  {
    var p' := Apply(job, p, a);
    forall w: nat, i: nat | IsBusy(p', w, i)
      ensures i + |p'.queue| < p'.next
    {
      BusyAfter(job, p, a, w, i);
    }
    forall v: nat, w: nat, i: nat | IsBusy(p', v, i) && IsBusy(p', w, i)
      ensures v == w
    {
      BusyAfter(job, p, a, v, i);
      BusyAfter(job, p, a, w, i);
    }
  }

  lemma HandledStep<C, I, E>(job: Job<C, I, E>, p: Pool<I, E>, a: Step, i: nat)
    requires Working(job, p, a) && !a.Return?
    requires i < |job.commands| && i < Apply(job, p, a).next - |Apply(job, p, a).queue|
    ensures Handled(job, Apply(job, p, a), i)
  {
    var p' := Apply(job, p, a);
    if i < p.next - |p.queue| {
      assert Handled(job, p, i);
      if w: nat :| IsBusy(p, w, i) {
        BusyAfter(job, p, a, w, i);
        if a.Resolve? && a.w == w && job.Outcome(i).Err? {
          assert p'.workers[w].Failing?;
        }
      } else if w :| 0 <= w < |p.workers| && p.workers[w].Failing? {
        assert (a.Report? && a.w == w) || p'.workers[w].Failing?;
      } else if !Trouble(p) {
        if a.Resolve? { assert IsBusy(p, a.w, p.workers[a.w].index); }
      }
    } else {
      assert IsBusy(p', a.w, i);
    }
  }

  lemma RowStep<C, I, E>(job: Job<C, I, E>, p: Pool<I, E>, a: Step)
    requires Working(job, p, a) && !a.Return?
    ensures RowInv(job, Apply(job, p, a))
  {
    var p' := Apply(job, p, a);
    forall i | 0 <= i < p'.next - |p'.queue| && i < |job.commands| ensures Handled(job, p', i) {
      HandledStep(job, p, a, i);
    }
  }

  lemma ErrorStep<C, I, E>(job: Job<C, I, E>, p: Pool<I, E>, a: Step)
    requires Working(job, p, a)
    ensures ErrorInv(job, Apply(job, p, a))
  {
    var p' := Apply(job, p, a);
    if a.Resolve? && job.Outcome(p.workers[a.w].index).Err? {
      assert Fails(job, job.Outcome(p.workers[a.w].index).error);
    }
    forall w | 0 <= w < |p'.workers| && p'.workers[w].Failing?
      ensures Fails(job, p'.workers[w].error)
    {
    }
  }

  lemma ExitStep<C, I, E>(job: Job<C, I, E>, p: Pool<I, E>, a: Step)
    requires Working(job, p, a) && !a.Return?
    ensures ExitInv(Apply(job, p, a)) && FeederInv(job, Apply(job, p, a))
  {
  }

  lemma ReturnStep<C, I, E>(job: Job<C, I, E>, p: Pool<I, E>)
    requires Working(job, p, Return)
    ensures Correct(job, Apply(job, p, Return).feeder.result)
  {
    if p.feeder.abort.None? && p.errors.None? {
      assert p.workers[0].Exited?;
      forall i | 0 <= i < |p.rows| ensures job.Outcome(i) == Ok(p.rows[i]) {
        assert Handled(job, p, i);
      }
    }
  }

  lemma InvStep<C, I, E>(job: Job<C, I, E>, p: Pool<I, E>, a: Step)
    requires Inv(job, p) && Enabled(job, p, a)
    ensures Inv(job, Apply(job, p, a)) && !p.feeder.Returned?
  {
    if a.Return? {
      ReturnStep(job, p);
    } else {
      QueueStep(job, p, a);
      WorkerStep(job, p, a);
      RowStep(job, p, a);
      ErrorStep(job, p, a);
      ExitStep(job, p, a);
    }
  }

  // ----- progress -----

  function WorkerWork<E>(w: Worker<E>): nat {
    match w
    case Ready => 1
    case Resolving(_) => 3
    case Failing(_, _) => 2
    case Exited => 0
  }

  function WorkersWork<E>(ws: seq<Worker<E>>): nat {
    if ws == [] then 0 else WorkerWork(ws[0]) + WorkersWork(ws[1..])
  }

  function FeederWork<I, E>(f: Feeder<I, E>): nat {
    match f
    case Feeding => 3
    case Aborting(_) => 2
    case Draining(_) => 1
    case Returned(_) => 0
  }

  /** An upper bound on the number of steps the pool can still take. */
  function Work<C, I, E>(job: Job<C, I, E>, p: Pool<I, E>): int {
    4 * (|job.commands| - p.next) + 3 * |p.queue| + WorkersWork(p.workers) + FeederWork(p.feeder)
  }

  lemma {:induction false} WorkersUpdate<E>(ws: seq<Worker<E>>, w: nat, x: Worker<E>)
    requires w < |ws|
    ensures WorkersWork(ws[w := x]) == WorkersWork(ws) - WorkerWork(ws[w]) + WorkerWork(x)
  {
    if w > 0 {
      WorkersUpdate(ws[1..], w - 1, x);
      assert ws[w := x][1..] == ws[1..][w - 1 := x];
    } else {
      assert ws[w := x][1..] == ws[1..];
    }
  }

  lemma WorkStep<C, I, E>(job: Job<C, I, E>, p: Pool<I, E>, a: Step)
    requires Working(job, p, a)
    ensures Work(job, Apply(job, p, a)) < Work(job, p)
  {
    if a.Receive? || a.Stop? || a.Resolve? || a.Report? {
      WorkersUpdate(p.workers, a.w, Apply(job, p, a).workers[a.w]);
    }
  }

  lemma {:induction false} AllReadyWork<E>(ws: seq<Worker<E>>)
    requires forall w :: 0 <= w < |ws| ==> ws[w] == Ready
    ensures WorkersWork(ws) == |ws|
  {
    if ws == [] {
    } else {
      AllReadyWork(ws[1..]);
    }
  }

  /** No deadlock: until the call returns, the feeder or some worker can take a step. */
  lemma SomeoneCanMove<C, I, E>(job: Job<C, I, E>, p: Pool<I, E>) returns (a: Step)
    requires Inv(job, p) && !p.feeder.Returned?
    ensures Enabled(job, p, a)
  {
    if p.feeder.Feeding? || p.feeder.Aborting? {
      a := if p.feeder.Aborting? || p.next == |job.commands| then Close else Send;
    } else if w :| 0 <= w < |p.workers| && !p.workers[w].Exited? {
      a := match p.workers[w]
        case Ready => if p.queue == [] then Stop(w) else Receive(w)
        case Resolving(i) => Resolve(w)
        case Failing(_, _) => Report(w);
      if p.workers[w].Resolving? { assert IsBusy(p, w, p.workers[w].index); }
    } else {
      a := Return;
    }
  }

  // ----- whole runs -----

  ghost predicate CanRun<C, I, E>(job: Job<C, I, E>, p: Pool<I, E>, steps: seq<Step>)
    decreases |steps|
  {
    steps == [] || (Enabled(job, p, steps[0]) && CanRun(job, Apply(job, p, steps[0]), steps[1..]))
  }

  ghost function After<C, I, E>(job: Job<C, I, E>, p: Pool<I, E>, steps: seq<Step>): Pool<I, E>
    requires CanRun(job, p, steps)
    decreases |steps|
  {
    if steps == [] then p else After(job, Apply(job, p, steps[0]), steps[1..])
  }

  lemma {:induction false} InvAfter<C, I, E>(job: Job<C, I, E>, p: Pool<I, E>, steps: seq<Step>)
    requires Inv(job, p) && CanRun(job, p, steps)
    ensures Inv(job, After(job, p, steps))
    ensures |steps| + Work(job, After(job, p, steps)) <= Work(job, p)
    decreases |steps|
  {
    if steps == [] {
    } else {
      InvStep(job, p, steps[0]);
      WorkStep(job, p, steps[0]);
      InvAfter(job, Apply(job, p, steps[0]), steps[1..]);
    }
  }

  /** The same work done by one loop that stops at the first error. */
  function Sequential<C, I, E>(commands: seq<C>, resolve: C -> Result<I, E>): Result<seq<I>, E> {
    if commands == [] then Ok([])
    else match resolve(commands[0])
      case Err(e) => Err(e)
      case Ok(item) =>
        match Sequential(commands[1..], resolve)
        case Err(e) => Err(e)
        case Ok(items) => Ok([item] + items)
  }

  lemma {:induction false} SequentialMeaning<C, I, E>(job: Job<C, I, E>)
    ensures Correct(job, Sequential(job.commands, job.resolve))
    decreases |job.commands|
  {
    var r := Sequential(job.commands, job.resolve);
    if job.commands != [] && job.Outcome(0).Ok? {
      var rest := job.(commands := job.commands[1..]);
      SequentialMeaning(rest);
      match Sequential(rest.commands, job.resolve) {
        case Err(e) =>
          var i :| 0 <= i < |rest.commands| && rest.Outcome(i) == Err(e);
          assert job.Outcome(i + 1) == Err(e);
        case Ok(items) =>
          forall i | 0 <= i < |r.value| ensures job.Outcome(i) == Ok(r.value[i]) {
            if i > 0 { assert rest.Outcome(i - 1) == Ok(items[i - 1]); }
          }
      }
    } else if job.commands != [] {
      assert job.Outcome(0) == Err(r.error);
    }
  }

  /** Whatever the interleaving: the rows of a sequential run, or an error if and only if one command fails. */
  lemma EveryRunAgrees<C, I, E>(job: Job<C, I, E>, steps: seq<Step>, result: Result<seq<I>, E>)
    requires CanRun(job, Start(job), steps)
    requires After(job, Start(job), steps).feeder == Returned(result)
    ensures match Sequential(job.commands, job.resolve)
      case Ok(rows) => result == Ok(rows)
      case Err(_) => result.Err? && Fails(job, result.error)
  {
    StartInv(job);
    InvAfter(job, Start(job), steps);
    SequentialMeaning(job);
    match (Sequential(job.commands, job.resolve), result) {
      case (Ok(rows), Ok(items)) =>
        forall i | 0 <= i < |rows| ensures rows[i] == items[i] {
          assert job.Outcome(i) == Ok(rows[i]) && job.Outcome(i) == Ok(items[i]);
        }
        assert rows == items;
      case _ =>
    }
  }

  /** No run goes on forever, and a run that cannot go on has returned. */
  lemma EveryRunReturns<C, I, E>(job: Job<C, I, E>, steps: seq<Step>)
    requires CanRun(job, Start(job), steps)
    ensures |steps| <= 5 * |job.commands| + 3
    ensures (forall a :: !Enabled(job, After(job, Start(job), steps), a)) <==>
            After(job, Start(job), steps).feeder.Returned?
  {
    var p := After(job, Start(job), steps);
    StartInv(job);
    InvAfter(job, Start(job), steps);
    AllReadyWork(Start(job).workers);
    if p.feeder.Returned? {
      forall a ensures !Enabled(job, p, a) {
        if Enabled(job, p, a) { InvStep(job, p, a); }
      }
    } else {
      var a := SomeoneCanMove(job, p);
    }
  }

  // ----- which error is returned -----

  ghost predicate FailsAt<C, I, E>(job: Job<C, I, E>, i: nat) {
    i < |job.commands| && job.Outcome(i).Err?
  }

  /** The commands before `j` that fail. */
  ghost function FailingBefore<C, I, E>(job: Job<C, I, E>, j: nat): (r: set<nat>)
    requires j <= |job.commands|
    ensures forall i: nat :: i in r <==> i < j && FailsAt(job, i)
  {
    if j == 0 then {} else FailingBefore(job, j - 1) + (if FailsAt(job, j - 1) then {j - 1} else {})
  }

  /** Command `j` fails, and fewer commands fail before it than there are workers. */
  ghost predicate FailsEarly<C, I, E>(job: Job<C, I, E>, j: nat) {
    FailsAt(job, j) && |FailingBefore(job, j)| < job.WorkerCount()
  }

  ghost predicate IsEarlyError<C, I, E>(job: Job<C, I, E>, e: E) {
    exists j: nat :: FailsEarly(job, j) && job.Outcome(j) == Err(e)
  }

  /** The indexes that the workers hold. */
  ghost function Held<E>(ws: seq<Worker<E>>): (r: set<nat>)
    ensures |r| <= |ws|
  {
    if ws == [] then {}
    else Held(ws[1..]) + (if ws[0].Resolving? || ws[0].Failing? then {ws[0].index} else {})
  }

  ghost predicate Holds<E>(w: Worker<E>, i: nat) {
    (w.Resolving? || w.Failing?) && w.index == i
  }

  lemma {:induction false} HeldMembers<E>(ws: seq<Worker<E>>, i: nat)
    ensures i in Held(ws) <==> exists w :: 0 <= w < |ws| && Holds(ws[w], i)
    decreases |ws|
  {
    if ws == [] {
    } else {
      HeldMembers(ws[1..], i);
      if w :| 0 <= w < |ws| && Holds(ws[w], i) {
        if w > 0 { assert ws[1..][w - 1] == ws[w]; }
      }
    }
  }

  /** The first error that was reported, if it is not on its way any more, and every later one is ignored. */
  ghost predicate FirstInv<C, I, E>(job: Job<C, I, E>, p: Pool<I, E>) {
    match p.feeder
    case Feeding => p.errors.Some? ==> IsEarlyError(job, p.errors.value)
    case Aborting(e) => IsEarlyError(job, e)
    case Draining(Some(e)) => IsEarlyError(job, e)
    case Draining(None) => p.errors.Some? ==> IsEarlyError(job, p.errors.value)
    case Returned(result) => result.Err? ==> IsEarlyError(job, result.error)
  }

  /** Until an error is reported, every failing command that was taken from the channel still occupies a worker. */
  ghost predicate Occupies<C, I, E>(job: Job<C, I, E>, p: Pool<I, E>) {
    && (forall w :: 0 <= w < |p.workers| && p.workers[w].Failing? ==>
          && p.workers[w].index < p.next - |p.queue|
          && p.workers[w].index < |job.commands| && job.Outcome(p.workers[w].index) == Err(p.workers[w].error))
    && (!Trouble(p) ==> forall i: nat :: i < p.next - |p.queue| && FailsAt(job, i) ==> i in Held(p.workers))
  }

  ghost predicate ErrorOrder<C, I, E>(job: Job<C, I, E>, p: Pool<I, E>) {
    FirstInv(job, p) && (!p.feeder.Returned? ==> Occupies(job, p))
  }

  lemma OccupiesStep<C, I, E>(job: Job<C, I, E>, p: Pool<I, E>, a: Step)
    requires Working(job, p, a) && Occupies(job, p) && !a.Return?
    ensures Occupies(job, Apply(job, p, a))
  {
    var p' := Apply(job, p, a);
    if !Trouble(p') {
      assert !Trouble(p);
      forall i: nat | i < p'.next - |p'.queue| && FailsAt(job, i) ensures i in Held(p'.workers) {
        StillHeld(job, p, a, i);
      }
    }
    if a.Resolve? { assert IsBusy(p, a.w, p.workers[a.w].index); }
  }

  /** A worker with a failing command keeps it until it reports. */
  lemma StillHolds<C, I, E>(job: Job<C, I, E>, p: Pool<I, E>, a: Step, w: nat, i: nat)
    requires Working(job, p, a) && !a.Return? && !Trouble(Apply(job, p, a))
    requires w < |p.workers| && Holds(p.workers[w], i) && FailsAt(job, i)
    ensures w < |Apply(job, p, a).workers| && Holds(Apply(job, p, a).workers[w], i)
  {
  }

  lemma StillHeld<C, I, E>(job: Job<C, I, E>, p: Pool<I, E>, a: Step, i: nat)
    requires Working(job, p, a) && Occupies(job, p) && !a.Return?
    requires !Trouble(p) && !Trouble(Apply(job, p, a))
    requires i < Apply(job, p, a).next - |Apply(job, p, a).queue| && FailsAt(job, i)
    ensures i in Held(Apply(job, p, a).workers)
  {
    if i < p.next - |p.queue| {
      HeldMembers(p.workers, i);
      var w :| 0 <= w < |p.workers| && Holds(p.workers[w], i);
      StillHolds(job, p, a, w, i);
      HeldBy(Apply(job, p, a).workers, w, i);
    } else {
      HeldBy(Apply(job, p, a).workers, a.w, i);
    }
  }

  lemma HeldBy<E>(ws: seq<Worker<E>>, w: nat, i: nat)
    requires w < |ws| && Holds(ws[w], i)
    ensures i in Held(ws)
  {
    HeldMembers(ws, i);
  }

  /** The worker that reports first leaves room for no more earlier failures than there are other workers. */
  lemma FirstReport<C, I, E>(job: Job<C, I, E>, p: Pool<I, E>, w: nat)
    requires Working(job, p, Report(w)) && Occupies(job, p) && !Trouble(p)
    ensures FailsEarly(job, p.workers[w].index) && IsEarlyError(job, p.workers[w].error)
  {
    var j := p.workers[w].index;
    HeldMembers(p.workers, j);
    assert Holds(p.workers[w], j);
    var before := FailingBefore(job, j);
    forall i | i in before ensures i in Held(p.workers) - {j} {
    }
    Smaller(before, Held(p.workers) - {j});
  }

  lemma {:induction false} Smaller(a: set<nat>, b: set<nat>)
    requires a <= b
    ensures |a| <= |b|
  {
    assert b == a + (b - a);
  }

  lemma ErrorOrderStep<C, I, E>(job: Job<C, I, E>, p: Pool<I, E>, a: Step)
    requires Inv(job, p) && Enabled(job, p, a) && ErrorOrder(job, p)
    ensures ErrorOrder(job, Apply(job, p, a))
  {
    FirstInvStep(job, p, a);
    if !a.Return? { OccupiesStep(job, p, a); }
  }

  lemma FirstInvStep<C, I, E>(job: Job<C, I, E>, p: Pool<I, E>, a: Step)
    requires Inv(job, p) && Enabled(job, p, a) && ErrorOrder(job, p)
    ensures FirstInv(job, Apply(job, p, a))
  {
    if a.Report? && !Trouble(p) { FirstReport(job, p, a.w); }
  }

  lemma {:induction false} ErrorOrderAfter<C, I, E>(job: Job<C, I, E>, p: Pool<I, E>, steps: seq<Step>)
    requires Inv(job, p) && ErrorOrder(job, p) && CanRun(job, p, steps)
    ensures ErrorOrder(job, After(job, p, steps))
    decreases |steps|
  {
    if steps == [] {
    } else {
      InvStep(job, p, steps[0]);
      ErrorOrderStep(job, p, steps[0]);
      ErrorOrderAfter(job, Apply(job, p, steps[0]), steps[1..]);
    }
  }

  /** The run is over and has returned the result. */
  ghost predicate Ends<C, I, E>(job: Job<C, I, E>, steps: seq<Step>, result: Result<seq<I>, E>) {
    CanRun(job, Start(job), steps) && After(job, Start(job), steps).feeder == Returned(result)
  }

  /** Whatever the interleaving, an error that is returned comes from a command that fails early. */
  lemma ReturnedErrorIsEarly<C, I, E>(job: Job<C, I, E>, steps: seq<Step>, e: E)
    requires Ends(job, steps, Err(e))
    ensures IsEarlyError(job, e)
  {
    StartInv(job);
    ErrorOrderAfter(job, Start(job), steps);
  }

  // ----- every early error can be returned -----

  lemma {:induction false} Extend<C, I, E>(job: Job<C, I, E>, p: Pool<I, E>, steps: seq<Step>, a: Step)
    requires CanRun(job, p, steps) && Enabled(job, After(job, p, steps), a)
    ensures CanRun(job, p, steps + [a])
    ensures After(job, p, steps + [a]) == Apply(job, After(job, p, steps), a)
    decreases |steps|
  {
    if steps == [] {
      assert [] + [a] == [a] && [a][1..] == [];
      assert CanRun(job, Apply(job, p, a), []);
    } else {
      Extend(job, Apply(job, p, steps[0]), steps[1..], a);
      assert (steps + [a])[1..] == steps[1..] + [a];
    }
  }

  /** Everything is sent, the first `i` commands are taken, and each that fails is left with a worker of its own. */
  ghost predicate Staged<C, I, E>(job: Job<C, I, E>, p: Pool<I, E>, i: nat) {
    && i <= |job.commands|
    && p.next == |job.commands| && p.feeder.Feeding? && !p.closed && p.errors.None?
    && |p.rows| == |job.commands| && |p.workers| == job.WorkerCount()
    && |p.queue| == |job.commands| - i
    && (forall x :: 0 <= x < |p.queue| ==> p.queue[x] == i + x)
    && (forall w :: |FailingBefore(job, i)| <= w < |p.workers| ==> p.workers[w] == Ready)
  }

  lemma {:induction false} SendMany<C, I, E>(job: Job<C, I, E>, n: nat) returns (steps: seq<Step>)
    requires n <= |job.commands| && job.commands != []
    ensures CanRun(job, Start(job), steps)
    ensures After(job, Start(job), steps) == Start(job).(next := n, queue := seq(n, x => x))
    decreases n
  {
    if n == 0 {
      steps := [];
    } else {
      steps := SendMany(job, n - 1);
      Extend(job, Start(job), steps, Send);
      assert seq(n, x => x) == seq(n - 1, x => x) + [n - 1];
      steps := steps + [Send];
    }
  }

  lemma TakeNext<C, I, E>(job: Job<C, I, E>, steps: seq<Step>, i: nat) returns (longer: seq<Step>)
    requires CanRun(job, Start(job), steps) && Staged(job, After(job, Start(job), steps), i)
    requires i < |job.commands| && |FailingBefore(job, i)| < job.WorkerCount()
    ensures CanRun(job, Start(job), longer)
    ensures var p, q := After(job, Start(job), steps), After(job, Start(job), longer);
            var k := |FailingBefore(job, i)|;
            q == p.(queue := p.queue[1..], workers := p.workers[k := Resolving(i)])
  {
    var k := |FailingBefore(job, i)|;
    Extend(job, Start(job), steps, Receive(k));
    longer := steps + [Receive(k)];
  }

  /** A failing command stays with its worker. */
  lemma StagedFailing<C, I, E>(job: Job<C, I, E>, p: Pool<I, E>, q: Pool<I, E>, i: nat)
    requires Staged(job, p, i) && FailsAt(job, i) && |FailingBefore(job, i)| < job.WorkerCount()
    requires q == p.(queue := p.queue[1..], workers := p.workers[|FailingBefore(job, i)| := Resolving(i)])
    ensures Staged(job, q, i + 1)
  {
    OneMoreFails(job, i);
  }

  lemma OneMoreFails<C, I, E>(job: Job<C, I, E>, i: nat)
    requires FailsAt(job, i)
    ensures |FailingBefore(job, i + 1)| == |FailingBefore(job, i)| + 1
  {
    assert i !in FailingBefore(job, i);
  }

  /** Any other is finished, and its worker is ready again. */
  lemma StagedDone<C, I, E>(job: Job<C, I, E>, p: Pool<I, E>, q: Pool<I, E>, i: nat)
    requires Staged(job, p, i) && i < |job.commands| && !FailsAt(job, i) && |FailingBefore(job, i)| < job.WorkerCount()
    requires q == p.(queue := p.queue[1..], workers := p.workers[|FailingBefore(job, i)| := Resolving(i)])
    ensures Enabled(job, q, Resolve(|FailingBefore(job, i)|))
    ensures Staged(job, Apply(job, q, Resolve(|FailingBefore(job, i)|)), i + 1)
  {
  }

  ghost predicate ReachesStage<C, I, E>(job: Job<C, I, E>, steps: seq<Step>, i: nat) {
    CanRun(job, Start(job), steps) && Staged(job, After(job, Start(job), steps), i)
  }

  /** There is a worker for the command besides those that hold earlier failures. */
  ghost predicate HasRoom<C, I, E>(job: Job<C, I, E>, i: nat) {
    i < |job.commands| && |FailingBefore(job, i)| < job.WorkerCount()
  }

  lemma StageNext<C, I, E>(job: Job<C, I, E>, steps: seq<Step>, i: nat) returns (longer: seq<Step>)
    requires ReachesStage(job, steps, i) && HasRoom(job, i)
    ensures ReachesStage(job, longer, i + 1)
  {
    var p := After(job, Start(job), steps);
    longer := TakeNext(job, steps, i);
    var q := After(job, Start(job), longer);
    if FailsAt(job, i) {
      StagedFailing(job, p, q, i);
    } else {
      StagedDone(job, p, q, i);
      Extend(job, Start(job), longer, Resolve(|FailingBefore(job, i)|));
      longer := longer + [Resolve(|FailingBefore(job, i)|)];
    }
  }

  lemma RoomBefore<C, I, E>(job: Job<C, I, E>, i: nat)
    requires HasRoom(job, i) && i > 0
    ensures HasRoom(job, i - 1)
  {
    Smaller(FailingBefore(job, i - 1), FailingBefore(job, i));
  }

  /** The pool before anything is taken. */
  lemma AllSent<C, I, E>(job: Job<C, I, E>) returns (steps: seq<Step>)
    requires job.commands != []
    ensures ReachesStage(job, steps, 0)
  {
    steps := SendMany(job, |job.commands|);
  }

  /** One more command is taken. */
  lemma StageAfter<C, I, E>(job: Job<C, I, E>, i: nat, steps: seq<Step>) returns (longer: seq<Step>)
    requires HasRoom(job, i) && i > 0 && ReachesStage(job, steps, i - 1)
    ensures ReachesStage(job, longer, i)
  {
    RoomBefore(job, i);
    longer := StageNext(job, steps, i - 1);
  }

  lemma {:induction false} StageMany<C, I, E>(job: Job<C, I, E>, i: nat) returns (steps: seq<Step>)
    requires HasRoom(job, i)
    ensures ReachesStage(job, steps, i)
    decreases i
  {
    if i == 0 {
      steps := AllSent(job);
    } else {
      RoomBefore(job, i);
      var shorter := StageMany(job, i - 1);
      steps := StageAfter(job, i, shorter);
    }
  }

  /** With the channel closed and an error in the error channel, that error is returned in the end. */
  lemma {:induction false} DrainToEnd<C, I, E>(job: Job<C, I, E>, steps: seq<Step>, e: E) returns (longer: seq<Step>)
    requires CanRun(job, Start(job), steps)
    requires var p := After(job, Start(job), steps); p.feeder == Draining(None) && p.errors == Some(e)
    ensures Ends(job, longer, Err(e))
    decreases 5 * |job.commands| + 3 - |steps|
  {
    var p := After(job, Start(job), steps);
    StartInv(job);
    InvAfter(job, Start(job), steps);
    EveryRunReturns(job, steps);
    var a := SomeoneCanMove(job, p);
    Extend(job, Start(job), steps, a);
    EveryRunReturns(job, steps + [a]);
    if a.Return? {
      longer := steps + [a];
    } else {
      longer := DrainToEnd(job, steps + [a], e);
    }
  }

  /** The error of any command that fails early is returned by some run. */
  lemma EarlyErrorIsReturned<C, I, E>(job: Job<C, I, E>, j: nat) returns (steps: seq<Step>)
    requires FailsEarly(job, j)
    ensures Ends(job, steps, Err(job.Outcome(j).error))
  {
    var k := |FailingBefore(job, j)|;
    var staged := StageMany(job, j);
    steps := TakeNext(job, staged, j);
    Extend(job, Start(job), steps, Resolve(k));
    steps := steps + [Resolve(k)];
    Extend(job, Start(job), steps, Report(k));
    steps := steps + [Report(k)];
    Extend(job, Start(job), steps, Close);
    steps := steps + [Close];
    steps := DrainToEnd(job, steps, job.Outcome(j).error);
  }

  /** The errors that can be returned are exactly those of the commands that fail early. */
  lemma ReturnedErrorsExactly<C, I, E>(job: Job<C, I, E>, e: E)
    ensures (exists steps :: Ends(job, steps, Err(e))) <==> IsEarlyError(job, e)
  {
    if steps :| Ends(job, steps, Err(e)) {
      ReturnedErrorIsEarly(job, steps, e);
    }
    if IsEarlyError(job, e) {
      var j: nat :| FailsEarly(job, j) && job.Outcome(j) == Err(e);
      var steps := EarlyErrorIsReturned(job, j);
    }
  }

  /** Every run returns what the sequential loop returns if and only if all commands that fail early fail alike. */
  lemma AgreesWithSequentialExactly<C, I, E>(job: Job<C, I, E>)
    ensures (forall steps, result :: Ends(job, steps, result) ==> result == Sequential(job.commands, job.resolve)) <==>
            (forall j: nat :: FailsEarly(job, j) ==>
               Sequential(job.commands, job.resolve) == Err(job.Outcome(j).error))
  {
    var sequential := Sequential(job.commands, job.resolve);
    if forall j: nat :: FailsEarly(job, j) ==> sequential == Err(job.Outcome(j).error) {
      forall steps, result | Ends(job, steps, result) ensures result == sequential {
        EveryRunAgrees(job, steps, result);
        if result.Err? {
          ReturnedErrorIsEarly(job, steps, result.error);
          var j: nat :| FailsEarly(job, j) && job.Outcome(j) == Err(result.error);
        }
      }
    } else {
      var j: nat :| FailsEarly(job, j) && sequential != Err(job.Outcome(j).error);
      var steps := EarlyErrorIsReturned(job, j);
    }
  }

  function TwoFailures(): Job<nat, (), nat> {
    Job([0, 1], c => Err(c), ())
  }

  /** For instance, of two commands that fail differently the second one's error can be returned. */
  lemma ErrorMayBeALaterOne() returns (steps: seq<Step>)
    ensures Ends(TwoFailures(), steps, Err(1))
    ensures Sequential(TwoFailures().commands, TwoFailures().resolve) == Err(0)
  {
    var job := TwoFailures();
    assert FailingBefore(job, 1) <= {0};
    Smaller(FailingBefore(job, 1), {0});
    assert FailsEarly(job, 1);
    steps := EarlyErrorIsReturned(job, 1);
  }
}
