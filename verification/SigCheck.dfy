/**
Parallel signature check: workers walk disjoint ranges of the transfers and share one flag
with early exit. Every interleaving of their atomic steps gives the same answer.
*/
module SigCheck {
  import opened Arith
  import opened Machine

  /** Where a worker stands: before reading the flag at j, before verifying j, before storing, or finished. */
  datatype Worker = Loop(j: nat) | Verify(j: nat) | Store(j: nat) | Finished

  datatype System = System(valid: bool, workers: seq<Worker>)

  /** The transfers, the signature verdict on each, and the number of processors. */
  datatype Job = Job(txs: seq<Bytes>, verify: Bytes -> bool, cpus: nat)

  // ----- splitting the work

  function Cores(job: Job): nat {
    Min(job.cpus, |job.txs|)
  }

  function ChunkSize(job: Job): nat
    requires job.cpus > 0 && job.txs != []
  {
    DivNonNegative(|job.txs| + Cores(job) - 1, Cores(job));
    (|job.txs| + Cores(job) - 1) / Cores(job)
  }

  function Start(job: Job, w: nat): nat
    requires job.cpus > 0 && job.txs != []
  {
    MulNonNegative(w, ChunkSize(job));
    w * ChunkSize(job)
  }

  function End(job: Job, w: nat): nat
    requires job.cpus > 0 && job.txs != []
  {
    Min(Start(job, w) + ChunkSize(job), |job.txs|)
  }

  ghost predicate JobOk(job: Job) {
    job.cpus > 0 && job.txs != []
  }

  predicate Good(job: Job, j: nat) {
    j < |job.txs| && job.verify(job.txs[j])
  }

  ghost predicate AllGood(job: Job) {
    forall j :: 0 <= j < |job.txs| ==> Good(job, j)
  }

  /** Every transfer lies in the range of some worker. */
  lemma Covered(job: Job, j: nat) returns (w: nat)
    requires JobOk(job) && j < |job.txs|
    ensures w < Cores(job) && Start(job, w) <= j < End(job, w)
  {
    var n, c, size := |job.txs|, Cores(job), ChunkSize(job);
    DivMod(n + c - 1, c);
    DivGalois(1, c, n + c - 1);
    DivMod(j, size);
    DivNonNegative(j, size);
    w := j / size;
    Distribute(w, 1, size);
    if w >= c {
      MulMonotone(c, w, size);
    }
  }

  // ----- the steps

  function Initial(job: Job): System
    requires JobOk(job)
  {
    System(true, seq(Cores(job), w requires 0 <= w < Cores(job) =>
      if Start(job, w) >= |job.txs| then Finished else Loop(Start(job, w))))
  }

  /** One atomic step of worker w. */
  function Step(job: Job, s: System, w: nat): System
    requires JobOk(job) && w < |s.workers|
  {
    match s.workers[w]
    case Loop(j) =>
      if j >= End(job, w) || !s.valid then s.(workers := s.workers[w := Finished])
      else s.(workers := s.workers[w := Verify(j)])
    case Verify(j) =>
      s.(workers := s.workers[w := if Good(job, j) then Loop(j + 1) else Store(j)])
    case Store(_) => System(false, s.workers[w := Finished])
    case Finished => s
  }

  /** What is known of one worker: everything before its position is good, unless it left early. */
  ghost predicate WorkerSound(job: Job, valid: bool, w: nat, worker: Worker)
    requires JobOk(job)
  {
    match worker
    case Loop(j) => Start(job, w) <= j <= End(job, w) && GoodUpTo(job, w, j)
    case Verify(j) => Start(job, w) <= j < End(job, w) && GoodUpTo(job, w, j)
    case Store(j) => j < |job.txs| && !Good(job, j)
    case Finished => !valid || GoodUpTo(job, w, End(job, w))
  }

  ghost predicate GoodUpTo(job: Job, w: nat, end: nat)
    requires JobOk(job)
  {
    forall j :: Start(job, w) <= j < end && j < |job.txs| ==> Good(job, j)
  }

  ghost predicate Sound(job: Job, s: System) {
    && JobOk(job) && |s.workers| == Cores(job)
    && (!s.valid ==> !AllGood(job))
    && forall w :: 0 <= w < |s.workers| ==> WorkerSound(job, s.valid, w, s.workers[w])
  }

  lemma InitialSound(job: Job)
    requires JobOk(job)
    ensures Sound(job, Initial(job))
  {
    forall w | 0 <= w < Cores(job) ensures WorkerSound(job, true, w, Initial(job).workers[w]) {
      InitialWorker(job, w);
    }
  }

  lemma InitialWorker(job: Job, w: nat)
    requires JobOk(job) && w < Cores(job)
    ensures WorkerSound(job, true, w, if Start(job, w) >= |job.txs| then Finished else Loop(Start(job, w)))
  {
    hide Start, ChunkSize;
  }

  /** Every step of every worker keeps what is known. */
  lemma StepSound(job: Job, s: System, w: nat)
    requires Sound(job, s) && w < |s.workers|
    ensures Sound(job, Step(job, s, w))
  {
    hide Start, ChunkSize;
    var t := Step(job, s, w);
    MovedSound(job, s, w);
    forall v | 0 <= v < |t.workers| ensures WorkerSound(job, t.valid, v, t.workers[v]) {
      assert WorkerSound(job, s.valid, v, s.workers[v]);
    }
  }

  lemma MovedSound(job: Job, s: System, w: nat)
    requires Sound(job, s) && w < |s.workers|
    ensures WorkerSound(job, Step(job, s, w).valid, w, Step(job, s, w).workers[w])
    ensures !Step(job, s, w).valid ==> !AllGood(job)
  {
    hide Start, ChunkSize;
    assert WorkerSound(job, s.valid, w, s.workers[w]);
  }

  // ----- every interleaving

  ghost predicate Done(s: System) {
    forall w :: 0 <= w < |s.workers| ==> s.workers[w].Finished?
  }

  /** A schedule names the worker of each step; finished workers are not scheduled. */
  ghost predicate Run(job: Job, states: seq<System>, schedule: seq<nat>) {
    && JobOk(job) && |states| == |schedule| + 1 && states[0] == Initial(job)
    && forall i :: 0 <= i < |schedule| ==>
         && schedule[i] < |states[i].workers|
         && !states[i].workers[schedule[i]].Finished?
         && states[i + 1] == Step(job, states[i], schedule[i])
  }

  lemma {:induction false} RunSound(job: Job, states: seq<System>, schedule: seq<nat>, n: nat)
    requires Run(job, states, schedule) && n < |states|
    ensures Sound(job, states[n])
  {
    hide Sound, Step;
    if n == 0 {
      InitialSound(job);
    } else {
      RunSound(job, states, schedule, n - 1);
      StepSound(job, states[n - 1], schedule[n - 1]);
    }
  }

  /** When all workers are done the flag says whether every signature verifies. */
  lemma DoneIsExact(job: Job, s: System)
    requires Sound(job, s) && Done(s)
    ensures s.valid == AllGood(job)
  {
    hide Start, ChunkSize;
    if s.valid {
      forall j | 0 <= j < |job.txs| ensures Good(job, j) {
        var w := Covered(job, j);
        assert WorkerSound(job, s.valid, w, s.workers[w]);
      }
    }
  }

  /** For any number of transfers and workers, every finished run answers exactly. */
  lemma EveryRunIsExact(job: Job, states: seq<System>, schedule: seq<nat>)
    requires Run(job, states, schedule) && Done(states[|schedule|])
    ensures states[|schedule|].valid == AllGood(job)
  {
    hide Sound;
    RunSound(job, states, schedule, |schedule|);
    DoneIsExact(job, states[|schedule|]);
  }

  // ----- every run ends

  function Left(job: Job, w: nat, worker: Worker): nat
    requires JobOk(job)
  {
    match worker
    case Loop(j) => if j < End(job, w) then 3 * (End(job, w) - j) + 1 else 1
    case Verify(j) => if j < End(job, w) then 3 * (End(job, w) - j) else 2
    case Store(_) => 1
    case Finished => 0
  }

  function TotalLeft(job: Job, workers: seq<Worker>, n: nat): nat
    requires JobOk(job) && n <= |workers|
  {
    if n == 0 then 0 else TotalLeft(job, workers, n - 1) + Left(job, n - 1, workers[n - 1])
  }

  lemma {:induction false} LeftChanges(job: Job, workers: seq<Worker>, w: nat, worker: Worker, n: nat)
    requires JobOk(job) && w < |workers| && n <= |workers|
    ensures TotalLeft(job, workers[w := worker], n) ==
            TotalLeft(job, workers, n) + if w < n then Left(job, w, worker) - Left(job, w, workers[w]) else 0
  {
    hide Left;
    if n > 0 { LeftChanges(job, workers, w, worker, n - 1); }
  }

  lemma StepProgress(job: Job, s: System, w: nat)
    requires Sound(job, s) && w < |s.workers| && !s.workers[w].Finished?
    ensures |Step(job, s, w).workers| == |s.workers|
    ensures TotalLeft(job, Step(job, s, w).workers, |s.workers|) < TotalLeft(job, s.workers, |s.workers|)
  {
    hide Start, ChunkSize, TotalLeft;
    assert WorkerSound(job, s.valid, w, s.workers[w]);
    LeftChanges(job, s.workers, w, Step(job, s, w).workers[w], |s.workers|);
  }

  /** No run is longer than the work there is at the start. */
  lemma {:induction false} RunsEnd(job: Job, states: seq<System>, schedule: seq<nat>, n: nat)
    requires Run(job, states, schedule) && n <= |schedule|
    ensures |states[n].workers| == Cores(job)
    ensures n + TotalLeft(job, states[n].workers, Cores(job)) <= TotalLeft(job, Initial(job).workers, Cores(job))
  {
    hide Sound, Step, TotalLeft;
    if n > 0 {
      RunsEnd(job, states, schedule, n - 1);
      RunSound(job, states, schedule, n - 1);
      StepProgress(job, states[n - 1], schedule[n - 1]);
    }
  }

  /** Until all workers are done the run can go on. */
  lemma NeverStuck(job: Job, states: seq<System>, schedule: seq<nat>) returns (w: nat)
    requires Run(job, states, schedule) && !Done(states[|schedule|])
    ensures w < |states[|schedule|].workers|
    ensures Run(job, states + [Step(job, states[|schedule|], w)], schedule + [w])
  {
    hide Sound, Step;
    RunSound(job, states, schedule, |schedule|);
    w :| w < |states[|schedule|].workers| && !states[|schedule|].workers[w].Finished?;
  }

  // ----- the call

  /** `verifyBlockSignatures` on a block's transactions: the first is the coinbase; one schedule decides the rest. */
  ghost predicate Answers(block: seq<Bytes>, verify: Bytes -> bool, cpus: nat, answer: bool) {
    if |block| <= 1 then answer
    else
      exists states: seq<System>, schedule: seq<nat> ::
        && Run(Job(block[1..], verify, cpus), states, schedule)
        && Done(states[|schedule|]) && answer == states[|schedule|].valid
  }

  /** Whatever the schedule, the answer is that every transaction but the first verifies. */
  lemma AnswerIsExact(block: seq<Bytes>, verify: Bytes -> bool, cpus: nat, answer: bool)
    requires cpus > 0 && Answers(block, verify, cpus, answer)
    ensures answer == forall i :: 1 <= i < |block| ==> verify(block[i])
  {
    if |block| > 1 {
      var job := Job(block[1..], verify, cpus);
      var states: seq<System>, schedule: seq<nat> :| Run(job, states, schedule) && Done(states[|schedule|]) && answer == states[|schedule|].valid;
      EveryRunIsExact(job, states, schedule);
      if AllGood(job) {
        forall i | 1 <= i < |block| ensures verify(block[i]) {
          assert Good(job, i - 1) && job.txs[i - 1] == block[i];
        }
      } else {
        var j :| 0 <= j < |job.txs| && !Good(job, j);
        assert job.txs[j] == block[j + 1];
      }
    }
  }

  /** A run that is not finished can be finished. */
  lemma {:induction false} RunFinishes(job: Job, states: seq<System>, schedule: seq<nat>)
    returns (all: seq<System>, order: seq<nat>)
    requires Run(job, states, schedule)
    ensures Run(job, all, order) && Done(all[|order|])
    decreases TotalLeft(job, Initial(job).workers, Cores(job)) - |schedule|
  {
    hide Sound, Step, TotalLeft, Initial;
    if Done(states[|schedule|]) {
      return states, schedule;
    }
    var w := NeverStuck(job, states, schedule);
    var more, next := states + [Step(job, states[|schedule|], w)], schedule + [w];
    RunsEnd(job, more, next, |next|);
    all, order := RunFinishes(job, more, next);
  }

  /** For every block and any number of processors some schedule finishes, so there is an answer. */
  lemma AnswerExists(block: seq<Bytes>, verify: Bytes -> bool, cpus: nat)
    requires cpus > 0
    ensures exists answer :: Answers(block, verify, cpus, answer)
  {
    hide Initial;
    if |block| <= 1 {
      assert Answers(block, verify, cpus, true);
    } else {
      var job := Job(block[1..], verify, cpus);
      var states, schedule := RunFinishes(job, [Initial(job)], []);
      assert Answers(block, verify, cpus, states[|schedule|].valid);
    }
  }
}
