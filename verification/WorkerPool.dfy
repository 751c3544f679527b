/**
 * internal/worker/worker.go: the in-process worker pool.
 *
 * Any number of producers call Enqueue, any number of callers call Shutdown, and
 * workerCount goroutines execute run over one bounded channel. Every lock operation,
 * flag access, channel operation and flush is one atomic step; a run is any
 * interleaving of them. Payloads are opaque values of type T.
 */
module WorkerPool {
  import opened Common

  datatype Config = Config(workerCount: nat, batchSize: nat, channelCap: nat)

  // ----- one worker goroutine --------------------------------------------------------

  /** Where run is: in select, inside doFlush (on the way out or not), or returned. */
  datatype WorkerPc = Selecting | Flushing(exiting: bool) | Exited

  /** batch is the local slice; flushed is the log of batches handed to flushFn. */
  datatype Worker<T> = Worker(pc: WorkerPc, batch: seq<T>, flushed: seq<seq<T>>)

  /** select received an item: append it, and flush when the batch is full. */
  function OnItem<T>(batchSize: nat, w: Worker<T>, item: T): Worker<T> {
    var batch := w.batch + [item];
    Worker(if |batch| >= batchSize then Flushing(false) else Selecting, batch, w.flushed)
  }

  /** select saw the ticker: flush a nonempty batch. */
  function OnTick<T>(w: Worker<T>): Worker<T> {
    if |w.batch| > 0 then w.(pc := Flushing(false)) else w
  }

  /** select saw the channel closed and drained: flush what is left and return. */
  function OnClosed<T>(w: Worker<T>): Worker<T> {
    if |w.batch| > 0 then w.(pc := Flushing(true)) else w.(pc := Exited)
  }

  /** flushFn has consumed the batch; the slice is cut back to length zero. */
  function FinishFlush<T>(w: Worker<T>): Worker<T>
    requires w.pc.Flushing?
  {
    Worker(if w.pc.exiting then Exited else Selecting, [], w.flushed + [w.batch])
  }

  // ----- the whole pool --------------------------------------------------------------

  /** Program counter of one Enqueue call; all but Outside hold the read lock. */
  datatype Producer<T> =
    | Outside
    | Holding(item: T)
    | Checked(item: T)
    | Leaving(item: T, accepted: bool)

  /** Program counter of one Shutdown call. */
  datatype Closer =
    | NotCalled | AtOnce | WantLock | Pending | InLock | FlagSet | ChanClosed | Unlocked | AtWait | Returned

  /** State of the sync.Once. */
  datatype Once = Fresh | Running(who: nat) | Done

  /**
   * readers, waiting and writer are the RWMutex (waiting: a writer has announced itself, which
   * keeps new readers out), closed the flag it guards, chClosed and buffer the
   * channel, wg the WaitGroup counter. panicked records a send on, or a close of, a closed
   * channel. accepted (payloads in the order Enqueue accepted them) and owner (the worker
   * that received each of them, in receiving order) are history.
   */
  datatype Pool<T> = Pool(
    producers: seq<Producer<T>>,
    closers: seq<Closer>,
    once: Once,
    readers: set<nat>,
    waiting: bool,
    writer: Option<nat>,
    closed: bool,
    chClosed: bool,
    buffer: seq<T>,
    workers: seq<Worker<T>>,
    wg: int,
    panicked: bool,
    accepted: seq<T>,
    owner: seq<nat>)

  function Init<T>(cfg: Config, producers: nat, closers: nat): Pool<T> {
    Pool(seq(producers, _ => Outside), seq(closers, _ => NotCalled), Fresh, {}, false, None,
         false, false, [], seq(cfg.workerCount, _ => Worker(Selecting, [], [])),
         cfg.workerCount, false, [], [])
  }

  datatype Step<T> =
    | RLock(p: nat, item: T)
    | ReadClosed(p: nat)
    | SelectSend(p: nat)
    | Handoff(p: nat, w: nat)
    | SelectDefault(p: nat)
    | RUnlock(p: nat)
    | CallShutdown(c: nat)
    | EnterOnce(c: nat)
    | Announce(c: nat)
    | Lock(c: nat)
    | SetClosed(c: nat)
    | CloseChannel(c: nat)
    | Unlock(c: nat)
    | LeaveOnce(c: nat)
    | FinishWait(c: nat)
    | Receive(w: nat)
    | ReceiveClosed(w: nat)
    | Tick(w: nat)
    | FlushDone(w: nat)

  predicate ProducerAt<T>(s: Pool<T>, p: nat) { p < |s.producers| }
  predicate CloserAt<T>(s: Pool<T>, c: nat, pc: Closer) { c < |s.closers| && s.closers[c] == pc }
  predicate WorkerSelecting<T>(s: Pool<T>, w: nat) { w < |s.workers| && s.workers[w].pc.Selecting? }

  /**
   * When a step can be taken. A panic stops the program. A reader may enter while no
   * writer holds the lock or waits for it, the writer while nobody holds it. With no buffer a send needs a
   * receiver in its select (Handoff); if none is parked yet, the default branch is taken.
   */
  predicate Enabled<T>(cfg: Config, s: Pool<T>, step: Step<T>) {
    && !s.panicked
    && match step
       case RLock(p, _) => ProducerAt(s, p) && s.producers[p].Outside? && s.writer.None? && !s.waiting
       case ReadClosed(p) => ProducerAt(s, p) && s.producers[p].Holding?
       case SelectSend(p) =>
         ProducerAt(s, p) && s.producers[p].Checked? && (s.chClosed || |s.buffer| < cfg.channelCap)
       case Handoff(p, w) =>
         && ProducerAt(s, p) && s.producers[p].Checked? && WorkerSelecting(s, w)
         && cfg.channelCap == 0 && !s.chClosed && s.buffer == []
       case SelectDefault(p) =>
         ProducerAt(s, p) && s.producers[p].Checked? && !s.chClosed && |s.buffer| >= cfg.channelCap
       case RUnlock(p) => ProducerAt(s, p) && s.producers[p].Leaving?
       case CallShutdown(c) => CloserAt(s, c, NotCalled)
       case EnterOnce(c) => CloserAt(s, c, AtOnce) && !s.once.Running?
       case Announce(c) => CloserAt(s, c, WantLock)
       case Lock(c) => CloserAt(s, c, Pending) && s.writer.None? && s.readers == {}
       case SetClosed(c) => CloserAt(s, c, InLock)
       case CloseChannel(c) => CloserAt(s, c, FlagSet)
       case Unlock(c) => CloserAt(s, c, ChanClosed)
       case LeaveOnce(c) => CloserAt(s, c, Unlocked)
       case FinishWait(c) => CloserAt(s, c, AtWait) && s.wg == 0
       case Receive(w) => WorkerSelecting(s, w) && s.buffer != []
       case ReceiveClosed(w) => WorkerSelecting(s, w) && s.buffer == [] && s.chClosed
       case Tick(w) => WorkerSelecting(s, w)
       case FlushDone(w) => w < |s.workers| && s.workers[w].pc.Flushing?
  }

  function Exec<T>(cfg: Config, s: Pool<T>, step: Step<T>): Pool<T>
    requires Enabled(cfg, s, step)
  {
    match step
    case RLock(p, item) => s.(producers := s.producers[p := Holding(item)], readers := s.readers + {p})
    case ReadClosed(p) =>
      var item := s.producers[p].item;
      s.(producers := s.producers[p := if s.closed then Leaving(item, false) else Checked(item)])
    case SelectSend(p) =>
      var item := s.producers[p].item;
      if s.chClosed then s.(panicked := true)
      else s.(producers := s.producers[p := Leaving(item, true)],
              buffer := s.buffer + [item], accepted := s.accepted + [item])
    case Handoff(p, w) =>
      var item := s.producers[p].item;
      s.(producers := s.producers[p := Leaving(item, true)],
         workers := s.workers[w := OnItem(cfg.batchSize, s.workers[w], item)],
         accepted := s.accepted + [item], owner := s.owner + [w])
    case SelectDefault(p) => s.(producers := s.producers[p := Leaving(s.producers[p].item, false)])
    case RUnlock(p) => s.(producers := s.producers[p := Outside], readers := s.readers - {p})
    case CallShutdown(c) => s.(closers := s.closers[c := AtOnce])
    case EnterOnce(c) =>
      if s.once.Done? then s.(closers := s.closers[c := AtWait])
      else s.(closers := s.closers[c := WantLock], once := Running(c))
    case Announce(c) => s.(closers := s.closers[c := Pending], waiting := true)
    case Lock(c) => s.(closers := s.closers[c := InLock], waiting := false, writer := Some(c))
    case SetClosed(c) => s.(closers := s.closers[c := FlagSet], closed := true)
    case CloseChannel(c) =>
      if s.chClosed then s.(panicked := true)
      else s.(closers := s.closers[c := ChanClosed], chClosed := true)
    case Unlock(c) => s.(closers := s.closers[c := Unlocked], writer := None)
    case LeaveOnce(c) => s.(closers := s.closers[c := AtWait], once := Done)
    case FinishWait(c) => s.(closers := s.closers[c := Returned])
    case Receive(w) =>
      s.(workers := s.workers[w := OnItem(cfg.batchSize, s.workers[w], s.buffer[0])],
         buffer := s.buffer[1..], owner := s.owner + [w])
    case ReceiveClosed(w) => SetWorker(s, w, OnClosed(s.workers[w]))
    case Tick(w) => SetWorker(s, w, OnTick(s.workers[w]))
    case FlushDone(w) => SetWorker(s, w, FinishFlush(s.workers[w]))
  }

  /** Store a worker's new state; a worker that returns runs its deferred wg.Done. */
  function SetWorker<T>(s: Pool<T>, w: nat, worker: Worker<T>): Pool<T>
    requires w < |s.workers|
  {
    s.(workers := s.workers[w := worker], wg := if worker.pc.Exited? then s.wg - 1 else s.wg)
  }

  predicate CanRun<T>(cfg: Config, s: Pool<T>, steps: seq<Step<T>>)
    decreases |steps|
  {
    steps == [] || (Enabled(cfg, s, steps[0]) && CanRun(cfg, Exec(cfg, s, steps[0]), steps[1..]))
  }

  function After<T>(cfg: Config, s: Pool<T>, steps: seq<Step<T>>): Pool<T>
    requires CanRun(cfg, s, steps)
    decreases |steps|
  {
    if steps == [] then s else After(cfg, Exec(cfg, s, steps[0]), steps[1..])
  }

  // ----- the lock protocol -----------------------------------------------------------

  predicate InOnce(pc: Closer) { pc in {WantLock, Pending, InLock, FlagSet, ChanClosed, Unlocked} }
  predicate InCritical(pc: Closer) { pc in {InLock, FlagSet, ChanClosed} }

  /** The closer running the Once body, if any, has already executed statement `closed = true`. */
  predicate FlagWritten<T>(s: Pool<T>) {
    s.once.Done? || (s.once.Running? && s.once.who < |s.closers| && s.closers[s.once.who] in {FlagSet, ChanClosed, Unlocked})
  }

  predicate ChannelShut<T>(s: Pool<T>) {
    s.once.Done? || (s.once.Running? && s.once.who < |s.closers| && s.closers[s.once.who] in {ChanClosed, Unlocked})
  }

  /** Producers between RLock and RUnlock are the readers, and there are none while a writer holds the lock. */
  ghost predicate ReadersOk<T>(s: Pool<T>) {
    && (forall p | p in s.readers :: p < |s.producers|)
    && (forall p | 0 <= p < |s.producers| :: p in s.readers <==> !s.producers[p].Outside?)
    && (s.writer.Some? ==> s.readers == {})
    && (forall p | 0 <= p < |s.producers| :: s.producers[p].Checked? ==> !s.closed)
  }

  /** At most one closer is inside the Once, and the lock's writer side is where that closer is. */
  ghost predicate ClosersOk<T>(s: Pool<T>) {
    && (forall c | 0 <= c < |s.closers| :: CloserOk(s.closers[c], s.once == Running(c), s.writer == Some(c), s.once.Done?))
    && (s.once.Running? ==> s.once.who < |s.closers|)
    && (s.writer.Some? ==> s.once == Running(s.writer.value))
    && (s.waiting <==> s.once.Running? && s.once.who < |s.closers| && s.closers[s.once.who].Pending?)
  }

  predicate CloserOk(pc: Closer, running: bool, writing: bool, done: bool) {
    && (InOnce(pc) <==> running)
    && (InCritical(pc) <==> writing)
    && (pc in {AtWait, Returned} ==> done)
  }

  predicate FlagsOk<T>(s: Pool<T>) {
    !s.panicked && (s.closed <==> FlagWritten(s)) && (s.chClosed <==> ChannelShut(s))
  }

  ghost predicate LockInv<T>(s: Pool<T>) {
    ReadersOk(s) && ClosersOk(s) && FlagsOk(s)
  }

  predicate IsProducerStep<T>(step: Step<T>) {
    step.RLock? || step.ReadClosed? || step.SelectSend? || step.Handoff? || step.SelectDefault? || step.RUnlock?
  }

  predicate IsWorkerStep<T>(step: Step<T>) {
    step.Receive? || step.ReceiveClosed? || step.Tick? || step.FlushDone?
  }

  predicate IsCloserStep<T>(step: Step<T>) {
    !IsProducerStep(step) && !IsWorkerStep(step)
  }

  lemma {:induction false} ProducerKeepsLock<T>(cfg: Config, s: Pool<T>, step: Step<T>)
    requires LockInv(s) && Enabled(cfg, s, step) && IsProducerStep(step)
    ensures LockInv(Exec(cfg, s, step))
  {
  }

  lemma {:induction false} CloserKeepsReaders<T>(cfg: Config, s: Pool<T>, step: Step<T>)
    requires LockInv(s) && Enabled(cfg, s, step) && IsCloserStep(step)
    ensures ReadersOk(Exec(cfg, s, step))
  {
  }

  lemma {:induction false} CloserKeepsClosers<T>(cfg: Config, s: Pool<T>, step: Step<T>)
    requires LockInv(s) && Enabled(cfg, s, step) && IsCloserStep(step)
    ensures ClosersOk(Exec(cfg, s, step))
  {
    var s' := Exec(cfg, s, step);
    assert CloserOk(s.closers[step.c], s.once == Running(step.c), s.writer == Some(step.c), s.once.Done?);
    forall c | 0 <= c < |s'.closers|
      ensures CloserOk(s'.closers[c], s'.once == Running(c), s'.writer == Some(c), s'.once.Done?)
    {
      assert CloserOk(s.closers[c], s.once == Running(c), s.writer == Some(c), s.once.Done?);
    }
  }

  lemma {:induction false} CloserKeepsFlags<T>(cfg: Config, s: Pool<T>, step: Step<T>)
    requires LockInv(s) && Enabled(cfg, s, step) && IsCloserStep(step)
    ensures FlagsOk(Exec(cfg, s, step))
  {
  }

  lemma {:induction false} LockInvStep<T>(cfg: Config, s: Pool<T>, step: Step<T>)
    requires LockInv(s) && Enabled(cfg, s, step)
    ensures LockInv(Exec(cfg, s, step))
  {
    if IsProducerStep(step) {
      ProducerKeepsLock(cfg, s, step);
    } else if IsCloserStep(step) {
      CloserKeepsReaders(cfg, s, step);
      CloserKeepsClosers(cfg, s, step);
      CloserKeepsFlags(cfg, s, step);
    }
  }

  // ----- who got which payload -------------------------------------------------------

  /** Everything a worker has received so far, in order. */
  function Taken<T>(w: Worker<T>): seq<T> { Concat(w.flushed) + w.batch }

  /** The items whose owner entry is w, in order. */
  function Dealt<T>(items: seq<T>, owner: seq<nat>, w: nat): seq<T>
    requires |items| == |owner|
    decreases |items|
  {
    if items == [] then []
    else
      var n := |items| - 1;
      Dealt(items[..n], owner[..n], w) + if owner[n] == w then [items[n]] else []
  }

  /**
   * The acceptance order is dealt out: the first |owner| accepted payloads went to the
   * workers owner names, each worker keeping its share in order, and the rest is the buffer.
   */
  ghost predicate DealInv<T>(s: Pool<T>) {
    && |s.owner| + |s.buffer| == |s.accepted|
    && s.accepted[|s.owner|..] == s.buffer
    && (forall k | 0 <= k < |s.owner| :: s.owner[k] < |s.workers|)
    && (forall w | 0 <= w < |s.workers| ::
          Taken(s.workers[w]) == Dealt(s.accepted[..|s.owner|], s.owner, w))
  }

  lemma {:induction false} DealtSnoc<T>(items: seq<T>, owner: seq<nat>, item: T, o: nat, w: nat)
    requires |items| == |owner|
    ensures Dealt(items + [item], owner + [o], w) == Dealt(items, owner, w) + if o == w then [item] else []
  {
  }

  lemma {:induction false} TakenFinishFlush<T>(w: Worker<T>)
    requires w.pc.Flushing?
    ensures Taken(FinishFlush(w)) == Taken(w)
  {
  }

  lemma {:induction false} DealInvDeliver<T>(cfg: Config, s: Pool<T>, s': Pool<T>, item: T, w: nat)
    requires DealInv(s) && w < |s.workers|
    requires s'.owner == s.owner + [w]
    requires s'.workers == s.workers[w := OnItem(cfg.batchSize, s.workers[w], item)]
    requires |s'.owner| + |s'.buffer| == |s'.accepted| && s'.accepted[|s'.owner|..] == s'.buffer
    requires s'.accepted[..|s.owner| + 1] == s.accepted[..|s.owner|] + [item]
    ensures DealInv(s')
  {
  }

  /** A step that moves no payload leaves every share as it is. */
  lemma {:induction false} DealInvSame<T>(s: Pool<T>, s': Pool<T>)
    requires DealInv(s) && s'.owner == s.owner && s'.buffer == s.buffer && s'.accepted == s.accepted
    requires |s'.workers| == |s.workers|
    requires forall w | 0 <= w < |s.workers| :: Taken(s'.workers[w]) == Taken(s.workers[w])
    ensures DealInv(s')
  {
  }

  lemma {:induction false} DealInvProducer<T>(cfg: Config, s: Pool<T>, step: Step<T>)
    requires DealInv(s) && Enabled(cfg, s, step) && IsProducerStep(step)
    ensures DealInv(Exec(cfg, s, step))
  {
    var s' := Exec(cfg, s, step);
    if step.SelectSend? && !s.chClosed {
      assert s'.accepted[..|s.owner|] == s.accepted[..|s.owner|];
    } else if step.Handoff? {
      var item := s.producers[step.p].item;
      assert s'.accepted[..|s.owner| + 1] == s.accepted[..|s.owner|] + [item];
      DealInvDeliver(cfg, s, s', item, step.w);
    } else {
      DealInvSame(s, s');
    }
  }

  lemma {:induction false} DealInvReceive<T>(cfg: Config, s: Pool<T>, w: nat)
    requires DealInv(s) && Enabled(cfg, s, Receive(w))
    ensures DealInv(Exec(cfg, s, Receive(w)))
  {
    var s', item := Exec(cfg, s, Receive(w)), s.buffer[0];
    assert item == s.accepted[|s.owner|];
    assert s'.accepted[..|s.owner| + 1] == s.accepted[..|s.owner|] + [item];
    assert s'.accepted[|s.owner| + 1..] == s'.buffer;
    DealInvDeliver(cfg, s, s', item, w);
  }

  /** Ticks, flushes and the end of input move no payload between workers. */
  lemma {:induction false} TakenStays<T>(cfg: Config, s: Pool<T>, step: Step<T>)
    requires Enabled(cfg, s, step) && IsWorkerStep(step) && !step.Receive?
    ensures var s' := Exec(cfg, s, step);
      && |s'.workers| == |s.workers|
      && forall w | 0 <= w < |s.workers| :: Taken(s'.workers[w]) == Taken(s.workers[w])
  {
    if step.FlushDone? {
      TakenFinishFlush(s.workers[step.w]);
    }
  }

  lemma {:induction false} DealInvWorker<T>(cfg: Config, s: Pool<T>, step: Step<T>)
    requires DealInv(s) && Enabled(cfg, s, step) && IsWorkerStep(step)
    ensures DealInv(Exec(cfg, s, step))
  {
    if step.Receive? {
      DealInvReceive(cfg, s, step.w);
    } else {
      TakenStays(cfg, s, step);
      DealInvSame(s, Exec(cfg, s, step));
    }
  }

  lemma {:induction false} DealInvStep<T>(cfg: Config, s: Pool<T>, step: Step<T>)
    requires DealInv(s) && Enabled(cfg, s, step)
    ensures DealInv(Exec(cfg, s, step))
  {
    if IsProducerStep(step) {
      DealInvProducer(cfg, s, step);
    } else if IsWorkerStep(step) {
      DealInvWorker(cfg, s, step);
    } else {
      DealInvSame(s, Exec(cfg, s, step));
    }
  }

  // ----- batch sizes and the WaitGroup -----------------------------------------------

  /**
   * Every flush has between 1 and max(1, batchSize) items, and a worker is on its way out
   * only once the channel is closed and drained.
   */
  ghost predicate WorkerOk<T>(cfg: Config, drained: bool, w: Worker<T>) {
    && (forall i | 0 <= i < |w.flushed| :: 1 <= |w.flushed[i]| <= Max(1, cfg.batchSize))
    && match w.pc
       case Selecting => |w.batch| < Max(1, cfg.batchSize)
       case Flushing(exiting) => 1 <= |w.batch| <= Max(1, cfg.batchSize) && (exiting ==> drained)
       case Exited => w.batch == [] && drained
  }

  predicate Drained<T>(s: Pool<T>) { s.chClosed && s.buffer == [] }

  /** Number of workers that have not returned. */
  function Live<T>(workers: seq<Worker<T>>): nat {
    if workers == [] then 0
    else Live(workers[..|workers| - 1]) + LiveOne(workers[|workers| - 1])
  }

  function LiveOne<T>(w: Worker<T>): nat { if w.pc.Exited? then 0 else 1 }

  ghost predicate DrainInv<T>(cfg: Config, s: Pool<T>) {
    && |s.workers| == cfg.workerCount
    && |s.buffer| <= cfg.channelCap
    && s.wg == Live(s.workers)
    && (forall w | 0 <= w < |s.workers| :: WorkerOk(cfg, Drained(s), s.workers[w]))
    && (forall c | 0 <= c < |s.closers| :: s.closers[c].Returned? ==> s.wg == 0)
  }

  lemma {:induction false} LiveUpdate<T>(workers: seq<Worker<T>>, w: nat, worker: Worker<T>)
    requires w < |workers|
    ensures Live(workers[w := worker]) == Live(workers) - LiveOne(workers[w]) + LiveOne(worker)
  {
    var n := |workers| - 1;
    if w == n {
      assert workers[w := worker][..n] == workers[..n];
    } else {
      assert workers[w := worker][..n] == workers[..n][w := worker];
      LiveUpdate(workers[..n], w, worker);
    }
  }

  lemma {:induction false} LiveZero<T>(workers: seq<Worker<T>>)
    ensures Live(workers) == 0 <==> forall w | 0 <= w < |workers| :: workers[w].pc.Exited?
  {
    if workers != [] {
      var n := |workers| - 1;
      LiveZero(workers[..n]);
      assert forall w | 0 <= w < n :: workers[..n][w] == workers[w];
    }
  }

  lemma {:induction false} WorkerOkSteps<T>(cfg: Config, drained: bool, w: Worker<T>, item: T)
    requires WorkerOk(cfg, drained, w)
    ensures w.pc.Selecting? ==> WorkerOk(cfg, drained, OnItem(cfg.batchSize, w, item))
    ensures w.pc.Selecting? ==> WorkerOk(cfg, drained, OnTick(w))
    ensures w.pc.Selecting? && drained ==> WorkerOk(cfg, drained, OnClosed(w))
    ensures w.pc.Flushing? ==> WorkerOk(cfg, drained, FinishFlush(w))
    ensures WorkerOk(cfg, true, w)
  {
  }

  /** A step of worker w keeps DrainInv when it keeps w in order and the rest of the pool in place. */
  lemma {:induction false} DrainInvWorker<T>(cfg: Config, s: Pool<T>, s': Pool<T>, w: nat, worker: Worker<T>)
    requires DrainInv(cfg, s) && w < |s.workers| && !s.workers[w].pc.Exited?
    requires s'.workers == s.workers[w := worker] && s'.closers == s.closers
    requires s'.wg == s.wg - 1 + LiveOne(worker)
    requires |s'.buffer| <= |s.buffer| && s'.chClosed == s.chClosed
    requires WorkerOk(cfg, Drained(s'), worker)
    ensures DrainInv(cfg, s')
  {
    LiveUpdate(s.workers, w, worker);
    LiveZero(s.workers);
    forall v | 0 <= v < |s'.workers| ensures WorkerOk(cfg, Drained(s'), s'.workers[v]) {
      assert WorkerOk(cfg, Drained(s), s.workers[v]);
    }
  }

  lemma {:induction false} DrainInvWorkerStep<T>(cfg: Config, s: Pool<T>, step: Step<T>)
    requires DrainInv(cfg, s) && Enabled(cfg, s, step) && IsWorkerStep(step)
    ensures DrainInv(cfg, Exec(cfg, s, step))
  {
    var s', w := Exec(cfg, s, step), step.w;
    assert WorkerOk(cfg, Drained(s), s.workers[w]);
    if step.Receive? {
      WorkerOkSteps(cfg, Drained(s), s.workers[w], s.buffer[0]);
      WorkerOkSteps(cfg, Drained(s), s'.workers[w], s.buffer[0]);
    }
    DrainInvWorker(cfg, s, s', w, s'.workers[w]);
  }

  lemma {:induction false} DrainInvProducer<T>(cfg: Config, s: Pool<T>, step: Step<T>)
    requires DrainInv(cfg, s) && !s.panicked && Enabled(cfg, s, step) && IsProducerStep(step)
    requires step.SelectSend? ==> !s.chClosed
    ensures DrainInv(cfg, Exec(cfg, s, step))
  {
    var s' := Exec(cfg, s, step);
    if step.Handoff? {
      assert WorkerOk(cfg, Drained(s), s.workers[step.w]);
      WorkerOkSteps(cfg, Drained(s), s.workers[step.w], s.producers[step.p].item);
      DrainInvWorker(cfg, s, s', step.w, s'.workers[step.w]);
    } else {
      assert Drained(s') == Drained(s);
    }
  }

  /** Closing the channel can only help, and Shutdown returns on a zero counter. */
  lemma {:induction false} DrainInvSame<T>(cfg: Config, s: Pool<T>, s': Pool<T>)
    requires DrainInv(cfg, s) && s'.workers == s.workers && s'.buffer == s.buffer && s'.wg == s.wg
    requires s.chClosed ==> s'.chClosed
    requires forall c | 0 <= c < |s'.closers| :: s'.closers[c].Returned? ==> s.wg == 0
    ensures DrainInv(cfg, s')
  {
  }

  lemma {:induction false} DrainInvCloser<T>(cfg: Config, s: Pool<T>, step: Step<T>)
    requires DrainInv(cfg, s) && Enabled(cfg, s, step) && IsCloserStep(step)
    ensures DrainInv(cfg, Exec(cfg, s, step))
  {
    var s' := Exec(cfg, s, step);
    assert s'.workers == s.workers && s'.buffer == s.buffer && s'.wg == s.wg;
    forall c | 0 <= c < |s'.closers| ensures s'.closers[c].Returned? ==> s.wg == 0 {
      assert c != step.c ==> s'.closers[c] == s.closers[c];
    }
    DrainInvSame(cfg, s, s');
  }

  lemma {:induction false} DrainInvStep<T>(cfg: Config, s: Pool<T>, step: Step<T>)
    requires LockInv(s) && DrainInv(cfg, s) && Enabled(cfg, s, step)
    ensures DrainInv(cfg, Exec(cfg, s, step))
  {
    if IsWorkerStep(step) {
      DrainInvWorkerStep(cfg, s, step);
    } else if IsProducerStep(step) {
      DrainInvProducer(cfg, s, step);
    } else {
      DrainInvCloser(cfg, s, step);
    }
  }

  // ----- what holds in every reachable state -----------------------------------------

  ghost predicate Inv<T>(cfg: Config, s: Pool<T>) {
    LockInv(s) && DealInv(s) && DrainInv(cfg, s)
  }

  lemma {:induction false} LiveAll<T>(workers: seq<Worker<T>>)
    requires forall w | 0 <= w < |workers| :: !workers[w].pc.Exited?
    ensures Live(workers) == |workers|
  {
    if workers != [] {
      LiveAll(workers[..|workers| - 1]);
    }
  }

  lemma {:induction false} InitInv<T>(cfg: Config, producers: nat, closers: nat)
    ensures Inv(cfg, Init<T>(cfg, producers, closers))
  {
    LiveAll(Init<T>(cfg, producers, closers).workers);
  }

  /** Every step of every goroutine keeps the invariant. */
  lemma {:induction false} InvStep<T>(cfg: Config, s: Pool<T>, step: Step<T>)
    requires Inv(cfg, s) && Enabled(cfg, s, step)
    ensures Inv(cfg, Exec(cfg, s, step))
  {
    LockInvStep(cfg, s, step);
    DealInvStep(cfg, s, step);
    DrainInvStep(cfg, s, step);
  }

  lemma {:induction false} RunKeepsInv<T>(cfg: Config, s: Pool<T>, steps: seq<Step<T>>)
    requires Inv(cfg, s) && CanRun(cfg, s, steps)
    ensures Inv(cfg, After(cfg, s, steps))
    decreases |steps|
  {
    if steps != [] {
      InvStep(cfg, s, steps[0]);
      RunKeepsInv(cfg, Exec(cfg, s, steps[0]), steps[1..]);
    }
  }

  /** s is a state some interleaving of the given numbers of callers leads to. */
  ghost predicate Reachable<T(!new)>(cfg: Config, producers: nat, closers: nat, s: Pool<T>) {
    exists steps ::
      CanRun(cfg, Init<T>(cfg, producers, closers), steps) && s == After(cfg, Init(cfg, producers, closers), steps)
  }

  lemma {:induction false} ReachableInv<T(!new)>(cfg: Config, producers: nat, closers: nat, s: Pool<T>)
    requires Reachable(cfg, producers, closers, s)
    ensures Inv(cfg, s)
  {
    var init := Init<T>(cfg, producers, closers);
    var steps :| CanRun(cfg, init, steps) && s == After(cfg, init, steps);
    InitInv<T>(cfg, producers, closers);
    RunKeepsInv(cfg, init, steps);
  }

  ghost function SumBags<T>(bags: seq<multiset<T>>): multiset<T> {
    if bags == [] then multiset{} else SumBags(bags[..|bags| - 1]) + bags[|bags| - 1]
  }

  ghost function Flushes<T>(workers: seq<Worker<T>>): seq<multiset<T>> {
    seq(|workers|, w requires 0 <= w < |workers| => multiset(Concat(workers[w].flushed)))
  }

  ghost function Batches<T>(workers: seq<Worker<T>>): seq<multiset<T>> {
    seq(|workers|, w requires 0 <= w < |workers| => multiset(workers[w].batch))
  }

  /** Bag of everything handed to flushFn. */
  ghost function FlushedBag<T>(workers: seq<Worker<T>>): multiset<T> { SumBags(Flushes(workers)) }

  /** Bag of everything in the workers' local batches. */
  ghost function BatchBag<T>(workers: seq<Worker<T>>): multiset<T> { SumBags(Batches(workers)) }

  /** The shares dealt to n workers, as bags. */
  ghost function Shares<T>(items: seq<T>, owner: seq<nat>, n: nat): seq<multiset<T>>
    requires |items| == |owner|
  {
    seq(n, w requires 0 <= w < n => multiset(Dealt(items, owner, w)))
  }

  lemma {:induction false} SumBagsPlus<T>(a: seq<multiset<T>>, b: seq<multiset<T>>, c: seq<multiset<T>>)
    requires |a| == |b| == |c| && forall i | 0 <= i < |c| :: c[i] == a[i] + b[i]
    ensures SumBags(c) == SumBags(a) + SumBags(b)
  {
    if c != [] {
      var n := |c| - 1;
      SumBagsPlus(a[..n], b[..n], c[..n]);
    }
  }

  lemma {:induction false} SumBagsEmpty<T>(bags: seq<multiset<T>>)
    requires forall i | 0 <= i < |bags| :: bags[i] == multiset{}
    ensures SumBags(bags) == multiset{}
  {
    if bags != [] { SumBagsEmpty(bags[..|bags| - 1]); }
  }

  lemma {:induction false} SumBagsUpdate<T>(bags: seq<multiset<T>>, o: nat, item: T)
    requires o < |bags|
    ensures SumBags(bags[o := bags[o] + multiset{item}]) == SumBags(bags) + multiset{item}
  {
    var n := |bags| - 1;
    var bags' := bags[o := bags[o] + multiset{item}];
    if o == n {
      assert bags'[..n] == bags[..n];
    } else {
      assert bags'[..n] == bags[..n][o := bags[..n][o] + multiset{item}];
      SumBagsUpdate(bags[..n], o, item);
    }
  }

  lemma {:induction false} SharesSnoc<T>(items: seq<T>, owner: seq<nat>, item: T, o: nat, n: nat)
    requires |items| == |owner| && o < n
    ensures Shares(items + [item], owner + [o], n)
         == Shares(items, owner, n)[o := Shares(items, owner, n)[o] + multiset{item}]
  {
    var before, after := Shares(items, owner, n), Shares(items + [item], owner + [o], n);
    forall w: nat | w < n ensures after[w] == before[o := before[o] + multiset{item}][w] {
      DealtSnoc(items, owner, item, o, w);
      if o != w {
        assert Dealt(items, owner, w) + [] == Dealt(items, owner, w);
      }
    }
  }

  /** Dealing to n workers loses and duplicates nothing. */
  lemma {:induction false} SharesAddUp<T>(items: seq<T>, owner: seq<nat>, n: nat)
    requires |items| == |owner|
    requires forall k | 0 <= k < |owner| :: owner[k] < n
    ensures SumBags(Shares(items, owner, n)) == multiset(items)
    decreases |items|
  {
    if items == [] {
      SumBagsEmpty(Shares(items, owner, n));
    } else {
      var k := |items| - 1;
      assert items == items[..k] + [items[k]] && owner == owner[..k] + [owner[k]];
      SharesAddUp(items[..k], owner[..k], n);
      SharesSnoc(items[..k], owner[..k], items[k], owner[k], n);
      SumBagsUpdate(Shares(items[..k], owner[..k], n), owner[k], items[k]);
    }
  }

  lemma {:induction false} SharesAreHeld<T>(items: seq<T>, owner: seq<nat>, workers: seq<Worker<T>>)
    requires |items| == |owner|
    requires forall w | 0 <= w < |workers| :: Taken(workers[w]) == Dealt(items, owner, w)
    ensures SumBags(Shares(items, owner, |workers|)) == BatchBag(workers) + FlushedBag(workers)
  {
    var shares := Shares(items, owner, |workers|);
    forall w | 0 <= w < |workers| ensures shares[w] == Batches(workers)[w] + Flushes(workers)[w] {
      assert shares[w] == multiset(Taken(workers[w]));
    }
    SumBagsPlus(Batches(workers), Flushes(workers), shares);
  }

  lemma {:induction false} InvConserves<T>(s: Pool<T>)
    requires DealInv(s)
    ensures multiset(s.accepted) == multiset(s.buffer) + BatchBag(s.workers) + FlushedBag(s.workers)
  {
    var n := |s.owner|;
    var dealt := s.accepted[..n];
    assert multiset(s.accepted) == multiset(dealt) + multiset(s.buffer) by {
      assert s.accepted == dealt + s.buffer;
    }
    assert multiset(dealt) == BatchBag(s.workers) + FlushedBag(s.workers) by {
      SharesAddUp(dealt, s.owner, |s.workers|);
      SharesAreHeld(dealt, s.owner, s.workers);
    }
  }

  /** Nothing accepted is ever lost or duplicated, whatever the interleaving. */
  lemma {:induction false} Conservation<T(!new)>(cfg: Config, producers: nat, closers: nat, s: Pool<T>)
    requires Reachable(cfg, producers, closers, s)
    ensures multiset(s.accepted) == multiset(s.buffer) + BatchBag(s.workers) + FlushedBag(s.workers)
  {
    ReachableInv(cfg, producers, closers, s);
    InvConserves(s);
  }

  /** No interleaving sends on, or closes, a closed channel; the buffer never overflows. */
  lemma {:induction false} NeverPanics<T(!new)>(cfg: Config, producers: nat, closers: nat, s: Pool<T>)
    requires Reachable(cfg, producers, closers, s)
    ensures !s.panicked && |s.buffer| <= cfg.channelCap
    ensures s.chClosed ==> forall p | 0 <= p < |s.producers| :: !s.producers[p].Checked?
  {
    ReachableInv(cfg, producers, closers, s);
  }

  /** Once Shutdown has set the flag, no Enqueue is accepted in any continuation. */
  lemma {:induction false} ClosedPoolAcceptsNothing<T>(cfg: Config, s: Pool<T>, steps: seq<Step<T>>)
    requires Inv(cfg, s) && s.closed && CanRun(cfg, s, steps)
    ensures After(cfg, s, steps).accepted == s.accepted
    decreases |steps|
  {
    if steps != [] {
      InvStep(cfg, s, steps[0]);
      ClosedPoolAcceptsNothing(cfg, Exec(cfg, s, steps[0]), steps[1..]);
    }
  }

  /** Flush sizes: between 1 and max(1, batchSize), in every reachable state. */
  lemma {:induction false} FlushSizes<T(!new)>(cfg: Config, producers: nat, closers: nat, s: Pool<T>, w: nat, i: nat)
    requires Reachable(cfg, producers, closers, s)
    requires w < |s.workers| && i < |s.workers[w].flushed|
    ensures 1 <= |s.workers[w].flushed[i]| <= Max(1, cfg.batchSize)
  {
    ReachableInv(cfg, producers, closers, s);
    assert WorkerOk(cfg, Drained(s), s.workers[w]);
  }

  // ----- order -----------------------------------------------------------------------

  lemma {:induction false} DealtToOne<T>(items: seq<T>, owner: seq<nat>)
    requires |items| == |owner| && forall k | 0 <= k < |owner| :: owner[k] == 0
    ensures Dealt(items, owner, 0) == items
    decreases |items|
  {
    if items != [] {
      var n := |items| - 1;
      DealtToOne(items[..n], owner[..n]);
      assert items == items[..n] + [items[n]];
    }
  }

  /** With a single worker the pool is a queue: flushed, then batch, then buffer, in acceptance order. */
  lemma {:induction false} SingleWorkerIsFifo<T(!new)>(cfg: Config, producers: nat, closers: nat, s: Pool<T>)
    requires cfg.workerCount == 1 && Reachable(cfg, producers, closers, s)
    ensures |s.workers| == 1
    ensures Concat(s.workers[0].flushed) + s.workers[0].batch + s.buffer == s.accepted
  {
    ReachableInv(cfg, producers, closers, s);
    var n := |s.owner|;
    DealtToOne(s.accepted[..n], s.owner);
    assert s.accepted == s.accepted[..n] + s.buffer;
  }

  lemma {:induction false} DealtIsSubsequence<T>(items: seq<T>, owner: seq<nat>, w: nat) returns (idx: seq<nat>)
    requires |items| == |owner|
    ensures SubsequenceAt(Dealt(items, owner, w), items, idx)
    decreases |items|
  {
    if items == [] {
      idx := [];
    } else {
      var n := |items| - 1;
      idx := DealtIsSubsequence(items[..n], owner[..n], w);
      SubsequenceSkip(Dealt(items[..n], owner[..n], w), items[..n], idx, items[n]);
      assert items == items[..n] + [items[n]];
      if owner[n] == w {
        idx := idx + [n];
      }
    }
  }

  /** With many workers, each one's flushed sequence is read off the acceptance order by skipping. */
  lemma {:induction false} WorkerKeepsOrder<T(!new)>(cfg: Config, producers: nat, closers: nat, s: Pool<T>, w: nat)
    requires Reachable(cfg, producers, closers, s) && w < |s.workers|
    ensures IsSubsequence(Concat(s.workers[w].flushed) + s.workers[w].batch, s.accepted)
    ensures IsSubsequence(Concat(s.workers[w].flushed), s.accepted)
  {
    ReachableInv(cfg, producers, closers, s);
    var n := |s.owner|;
    var idx := DealtIsSubsequence(s.accepted[..n], s.owner, w);
    assert SubsequenceAt(Taken(s.workers[w]), s.accepted, idx);
    var m := |Concat(s.workers[w].flushed)|;
    assert forall i | 0 <= i < m :: Taken(s.workers[w])[i] == Concat(s.workers[w].flushed)[i];
    assert SubsequenceAt(Concat(s.workers[w].flushed), s.accepted, idx[..m]);
  }

  // ----- draining --------------------------------------------------------------------

  function Rank<T>(w: Worker<T>): nat {
    match w.pc
    case Exited => 0
    case Flushing(exiting) => if exiting then 1 else 2
    case Selecting => if w.batch == [] then 1 else 3
  }

  function RankSum<T>(workers: seq<Worker<T>>): nat {
    if workers == [] then 0 else RankSum(workers[..|workers| - 1]) + Rank(workers[|workers| - 1])
  }

  /** Work left before every worker has returned. */
  function Measure<T>(s: Pool<T>): nat { 3 * |s.buffer| + RankSum(s.workers) }

  /** A worker step other than a tick that finds an empty batch. */
  predicate WorkerProgress<T>(s: Pool<T>, step: Step<T>) {
    step.Receive? || step.ReceiveClosed? || step.FlushDone?
    || (step.Tick? && step.w < |s.workers| && s.workers[step.w].batch != [])
  }

  lemma {:induction false} RankUpdate<T>(workers: seq<Worker<T>>, w: nat, worker: Worker<T>)
    requires w < |workers|
    ensures RankSum(workers[w := worker]) == RankSum(workers) - Rank(workers[w]) + Rank(worker)
  {
    var n := |workers| - 1;
    if w == n {
      assert workers[w := worker][..n] == workers[..n];
    } else {
      assert workers[w := worker][..n] == workers[..n][w := worker];
      RankUpdate(workers[..n], w, worker);
    }
  }

  lemma {:induction false} DrainStep<T>(cfg: Config, s: Pool<T>, step: Step<T>)
    requires LockInv(s) && s.chClosed && Enabled(cfg, s, step)
    ensures Exec(cfg, s, step).chClosed
    ensures Measure(Exec(cfg, s, step)) <= Measure(s)
    ensures WorkerProgress(s, step) ==> Measure(Exec(cfg, s, step)) < Measure(s)
  {
    if IsWorkerStep(step) {
      RankUpdate(s.workers, step.w, Exec(cfg, s, step).workers[step.w]);
    }
  }

  /** Number of non-idle worker steps in a run. */
  function ProgressCount<T>(cfg: Config, s: Pool<T>, steps: seq<Step<T>>): nat
    requires CanRun(cfg, s, steps)
    decreases |steps|
  {
    if steps == [] then 0
    else (if WorkerProgress(s, steps[0]) then 1 else 0) + ProgressCount(cfg, Exec(cfg, s, steps[0]), steps[1..])
  }

  /** After the channel is closed, no run has more than Measure(s) worker steps besides idle ticks. */
  lemma {:induction false} DrainTerminates<T>(cfg: Config, s: Pool<T>, steps: seq<Step<T>>)
    requires Inv(cfg, s) && s.chClosed && CanRun(cfg, s, steps)
    ensures ProgressCount(cfg, s, steps) + Measure(After(cfg, s, steps)) <= Measure(s)
    decreases |steps|
  {
    if steps != [] {
      InvStep(cfg, s, steps[0]);
      DrainStep(cfg, s, steps[0]);
      DrainTerminates(cfg, Exec(cfg, s, steps[0]), steps[1..]);
    }
  }

  // ----- Shutdown returns ------------------------------------------------------------

  /** Steps a Shutdown call has left; one that was not made has none. */
  function CloserWork(pc: Closer): nat {
    match pc
    case NotCalled => 0
    case AtOnce => 8
    case WantLock => 7
    case Pending => 6
    case InLock => 5
    case FlagSet => 4
    case ChanClosed => 3
    case Unlocked => 2
    case AtWait => 1
    case Returned => 0
  }

  function ClosersWork(closers: seq<Closer>): nat {
    if closers == [] then 0 else ClosersWork(closers[..|closers| - 1]) + CloserWork(closers[|closers| - 1])
  }

  /** What an Enqueue call inside the lock can still cause, its payload's way through a worker included. */
  function ProducerWork<T>(producer: Producer<T>): nat {
    match producer
    case Outside => 0
    case Holding(_) => 6
    case Checked(_) => 5
    case Leaving(_, _) => 1
  }

  function ProducersWork<T>(producers: seq<Producer<T>>): nat {
    if producers == [] then 0
    else ProducersWork(producers[..|producers| - 1]) + ProducerWork(producers[|producers| - 1])
  }

  /** A writer has announced itself: from here on no producer can delay the shutdown. */
  predicate Announced<T>(s: Pool<T>) {
    s.once.Done? || (s.once.Running? && s.once.who < |s.closers| && !s.closers[s.once.who].WantLock?)
  }

  /** Work left until every Shutdown call made so far has returned. */
  function Work<T>(s: Pool<T>): nat {
    ClosersWork(s.closers) + (if s.waiting then ProducersWork(s.producers) else 0) + Measure(s)
  }

  /**
   * A step of the shutdown: of a Shutdown call already made, of a producer the waiting writer waits for, or
   * a productive one of a worker.
   */
  predicate ShutdownStep<T>(s: Pool<T>, step: Step<T>) {
    || (IsCloserStep(step) && !step.CallShutdown?)
    || (IsProducerStep(step) && !step.RLock? && s.waiting)
    || WorkerProgress(s, step)
  }

  lemma {:induction false} ClosersWorkUpdate(closers: seq<Closer>, c: nat, pc: Closer)
    requires c < |closers|
    ensures ClosersWork(closers[c := pc]) == ClosersWork(closers) - CloserWork(closers[c]) + CloserWork(pc)
  {
    var n := |closers| - 1;
    if c == n {
      assert closers[c := pc][..n] == closers[..n];
    } else {
      assert closers[c := pc][..n] == closers[..n][c := pc];
      ClosersWorkUpdate(closers[..n], c, pc);
    }
  }

  lemma {:induction false} ProducersWorkUpdate<T>(producers: seq<Producer<T>>, p: nat, producer: Producer<T>)
    requires p < |producers|
    ensures ProducersWork(producers[p := producer])
         == ProducersWork(producers) - ProducerWork(producers[p]) + ProducerWork(producer)
  {
    var n := |producers| - 1;
    if p == n {
      assert producers[p := producer][..n] == producers[..n];
    } else {
      assert producers[p := producer][..n] == producers[..n][p := producer];
      ProducersWorkUpdate(producers[..n], p, producer);
    }
  }

  lemma {:induction false} CloserWorkIn(closers: seq<Closer>, c: nat)
    requires c < |closers|
    ensures CloserWork(closers[c]) <= ClosersWork(closers)
  {
    var n := |closers| - 1;
    if c < n {
      CloserWorkIn(closers[..n], c);
    }
  }

  /** What a step adds to the work: only a new call of Shutdown adds any, and a shutdown step takes some off. */
  function Added<T>(s: Pool<T>, step: Step<T>): int {
    if step.CallShutdown? then 8 else if ShutdownStep(s, step) then -1 else 0
  }

  /** A closer's step moves that closer one or more places on, and touches no payload. */
  lemma {:induction false} CloserMoves<T>(cfg: Config, s: Pool<T>, step: Step<T>)
    requires LockInv(s) && Enabled(cfg, s, step) && IsCloserStep(step)
    ensures var s' := Exec(cfg, s, step);
      && s'.producers == s.producers && s'.buffer == s.buffer && s'.workers == s.workers
      && |s'.closers| == |s.closers| && s'.closers == s.closers[step.c := s'.closers[step.c]]
      && CloserWork(s'.closers[step.c]) <= CloserWork(s.closers[step.c]) + if step.CallShutdown? then 8 else -1
  {
  }

  lemma {:induction false} CloserLowers<T>(cfg: Config, s: Pool<T>, step: Step<T>)
    requires LockInv(s) && Enabled(cfg, s, step) && IsCloserStep(step)
    ensures ClosersWork(Exec(cfg, s, step).closers) <= ClosersWork(s.closers) + if step.CallShutdown? then 8 else -1
  {
    CloserMoves(cfg, s, step);
    ClosersWorkUpdate(s.closers, step.c, Exec(cfg, s, step).closers[step.c]);
  }

  lemma {:induction false} CloserKeepsAnnounced<T>(cfg: Config, s: Pool<T>, step: Step<T>)
    requires LockInv(s) && Announced(s) && Enabled(cfg, s, step) && IsCloserStep(step)
    ensures Announced(Exec(cfg, s, step)) && (Exec(cfg, s, step).waiting ==> s.waiting)
  {
  }

  lemma {:induction false} CloserLowersWork<T>(cfg: Config, s: Pool<T>, step: Step<T>)
    requires LockInv(s) && Announced(s) && Enabled(cfg, s, step) && IsCloserStep(step)
    ensures Announced(Exec(cfg, s, step)) && Work(Exec(cfg, s, step)) <= Work(s) + Added(s, step)
  {
    CloserMoves(cfg, s, step);
    CloserLowers(cfg, s, step);
    CloserKeepsAnnounced(cfg, s, step);
  }

  lemma {:induction false} ProducerLowersWork<T>(cfg: Config, s: Pool<T>, step: Step<T>)
    requires LockInv(s) && Announced(s) && Enabled(cfg, s, step) && IsProducerStep(step)
    ensures Announced(Exec(cfg, s, step)) && Work(Exec(cfg, s, step)) <= Work(s) + Added(s, step)
  {
    var s' := Exec(cfg, s, step);
    if s.waiting {
      assert !s'.panicked by { ProducerKeepsLock(cfg, s, step); }
      ProducersWorkUpdate(s.producers, step.p, s'.producers[step.p]);
      if step.Handoff? {
        RankUpdate(s.workers, step.w, s'.workers[step.w]);
      }
    } else {
      AnnouncedKeepsOut(cfg, s, step);
    }
  }

  /** With the writer past waiting, producers only find the pool closed. */
  lemma {:induction false} AnnouncedKeepsOut<T>(cfg: Config, s: Pool<T>, step: Step<T>)
    requires LockInv(s) && Announced(s) && !s.waiting && Enabled(cfg, s, step) && IsProducerStep(step)
    ensures var s' := Exec(cfg, s, step);
      s'.buffer == s.buffer && s'.workers == s.workers && s'.closers == s.closers && s'.waiting == s.waiting && s'.once == s.once
  {
  }

  lemma {:induction false} WorkerLowersMeasure<T>(cfg: Config, s: Pool<T>, step: Step<T>)
    requires Enabled(cfg, s, step) && IsWorkerStep(step)
    ensures Measure(Exec(cfg, s, step)) <= Measure(s) - if WorkerProgress(s, step) then 1 else 0
  {
    RankUpdate(s.workers, step.w, Exec(cfg, s, step).workers[step.w]);
  }

  /** Once a writer waits, every step of the shutdown lowers the work and no other step but a new call raises it. */
  lemma {:induction false} ShutdownWork<T>(cfg: Config, s: Pool<T>, step: Step<T>)
    requires LockInv(s) && Announced(s) && Enabled(cfg, s, step)
    ensures Announced(Exec(cfg, s, step)) && Work(Exec(cfg, s, step)) <= Work(s) + Added(s, step)
  {
    if IsCloserStep(step) {
      CloserLowersWork(cfg, s, step);
    } else if IsProducerStep(step) {
      ProducerLowersWork(cfg, s, step);
    } else {
      WorkerLowersMeasure(cfg, s, step);
    }
  }

  /** Shutdown steps of a run, and calls of Shutdown made in it. */
  function ShutdownSteps<T>(cfg: Config, s: Pool<T>, steps: seq<Step<T>>): nat
    requires CanRun(cfg, s, steps)
    decreases |steps|
  {
    if steps == [] then 0
    else (if ShutdownStep(s, steps[0]) then 1 else 0) + ShutdownSteps(cfg, Exec(cfg, s, steps[0]), steps[1..])
  }

  function NewCalls<T>(steps: seq<Step<T>>): nat
    decreases |steps|
  {
    if steps == [] then 0 else (if steps[0].CallShutdown? then 1 else 0) + NewCalls(steps[1..])
  }

  /** Whatever is interleaved, a run holds no more shutdown steps than there was work. */
  lemma {:induction false} ShutdownBounded<T>(cfg: Config, s: Pool<T>, steps: seq<Step<T>>)
    requires Inv(cfg, s) && Announced(s) && CanRun(cfg, s, steps)
    ensures ShutdownSteps(cfg, s, steps) + Work(After(cfg, s, steps)) <= Work(s) + 8 * NewCalls(steps)
    ensures Announced(After(cfg, s, steps))
    decreases |steps|
  {
    if steps != [] {
      InvStep(cfg, s, steps[0]);
      ShutdownWork(cfg, s, steps[0]);
      ShutdownBounded(cfg, Exec(cfg, s, steps[0]), steps[1..]);
    }
  }

  /** Steps of Shutdown calls in a run, the calls themselves not counted. */
  function CloserSteps<T>(steps: seq<Step<T>>): nat
    decreases |steps|
  {
    if steps == [] then 0
    else (if IsCloserStep(steps[0]) && !steps[0].CallShutdown? then 1 else 0) + CloserSteps(steps[1..])
  }

  lemma {:induction false} ClosersStep<T>(cfg: Config, s: Pool<T>, step: Step<T>)
    requires LockInv(s) && Enabled(cfg, s, step)
    ensures ClosersWork(Exec(cfg, s, step).closers)
         <= ClosersWork(s.closers) + if step.CallShutdown? then 8 else if IsCloserStep(step) then -1 else 0
  {
    if IsCloserStep(step) {
      CloserLowers(cfg, s, step);
    } else {
      assert Exec(cfg, s, step).closers == s.closers;
    }
  }

  /** Before a writer waits the shutdown moves by steps of Shutdown calls alone, and each call has at most eight. */
  lemma {:induction false} ClosersBounded<T>(cfg: Config, s: Pool<T>, steps: seq<Step<T>>)
    requires Inv(cfg, s) && CanRun(cfg, s, steps)
    ensures CloserSteps(steps) + ClosersWork(After(cfg, s, steps).closers) <= ClosersWork(s.closers) + 8 * NewCalls(steps)
    decreases |steps|
  {
    if steps != [] {
      InvStep(cfg, s, steps[0]);
      ClosersStep(cfg, s, steps[0]);
      ClosersBounded(cfg, Exec(cfg, s, steps[0]), steps[1..]);
    }
  }

  /** A Shutdown call that has begun and not returned. */
  predicate ShuttingDown<T>(s: Pool<T>, c: nat) {
    c < |s.closers| && !s.closers[c].NotCalled? && !s.closers[c].Returned?
  }

  /** No deadlock: while a Shutdown call is under way, a step of the shutdown can be taken. */
  lemma {:induction false} ShutdownNeverStuck<T>(cfg: Config, s: Pool<T>, c: nat) returns (step: Step<T>)
    requires Inv(cfg, s) && ShuttingDown(s, c)
    ensures Enabled(cfg, s, step) && ShutdownStep(s, step)
    ensures !Announced(s) ==> IsCloserStep(step)
  {
    assert CloserOk(s.closers[c], s.once == Running(c), s.writer == Some(c), s.once.Done?);
    match s.closers[c] {
      case AtOnce => if s.once.Running? { step := OnceRunnerMoves(cfg, s); } else { step := EnterOnce(c); }
      case AtWait =>
        if s.wg == 0 { step := FinishWait(c); } else { step := LiveWorkerMoves(cfg, s); }
      case _ => step := OnceRunnerMoves(cfg, s);
    }
  }

  lemma {:induction false} OnceRunnerMoves<T>(cfg: Config, s: Pool<T>) returns (step: Step<T>)
    requires LockInv(s) && s.once.Running?
    ensures Enabled(cfg, s, step) && ShutdownStep(s, step)
    ensures !Announced(s) ==> IsCloserStep(step)
  {
    var c := s.once.who;
    assert CloserOk(s.closers[c], true, s.writer == Some(c), false);
    match s.closers[c] {
      case WantLock => step := Announce(c);
      case Pending =>
        if s.readers == {} {
          step := Lock(c);
        } else {
          step := ReaderMoves(cfg, s);
        }
      case InLock => step := SetClosed(c);
      case FlagSet => step := CloseChannel(c);
      case ChanClosed => step := Unlock(c);
      case _ => step := LeaveOnce(c);
    }
  }

  /** A producer inside the lock never waits for anything. */
  lemma {:induction false} ReaderMoves<T>(cfg: Config, s: Pool<T>) returns (step: Step<T>)
    requires LockInv(s) && s.readers != {}
    ensures Enabled(cfg, s, step) && IsProducerStep(step) && !step.RLock?
  {
    var p :| p in s.readers;
    step := if s.producers[p].Holding? then ReadClosed(p)
            else if s.producers[p].Leaving? then RUnlock(p)
            else if s.chClosed || |s.buffer| < cfg.channelCap then SelectSend(p)
            else SelectDefault(p);
  }

  lemma {:induction false} LiveWorkerMoves<T>(cfg: Config, s: Pool<T>) returns (step: Step<T>)
    requires LockInv(s) && DrainInv(cfg, s) && s.chClosed && s.wg != 0
    ensures Enabled(cfg, s, step) && WorkerProgress(s, step)
  {
    LiveZero(s.workers);
    var w: nat :| w < |s.workers| && !s.workers[w].pc.Exited?;
    step := if s.workers[w].pc.Flushing? then FlushDone(w)
            else if s.buffer != [] then Receive(w) else ReceiveClosed(w);
  }

  /**
   * Shutdown returns: in any run, whatever else is interleaved, as many shutdown steps as there was work bring
   * every call of Shutdown that was made to its end.
   */
  lemma {:induction false} ShutdownReturns<T>(cfg: Config, s: Pool<T>, steps: seq<Step<T>>, c: nat)
    requires Inv(cfg, s) && Announced(s) && CanRun(cfg, s, steps)
    requires ShutdownSteps(cfg, s, steps) >= Work(s) + 8 * NewCalls(steps)
    ensures !ShuttingDown(After(cfg, s, steps), c)
  {
    ShutdownBounded(cfg, s, steps);
    var end := After(cfg, s, steps);
    if c < |end.closers| {
      CloserWorkIn(end.closers, c);
    }
  }

  /** And it can: from every state of the pool there is a run of shutdown steps alone to the call's return. */
  lemma {:induction false} ShutdownCompletes<T>(cfg: Config, s: Pool<T>, c: nat) returns (steps: seq<Step<T>>)
    requires Inv(cfg, s) && ShuttingDown(s, c)
    ensures CanRun(cfg, s, steps) && |After(cfg, s, steps).closers| == |s.closers|
    ensures After(cfg, s, steps).closers[c].Returned?
    ensures ShutdownSteps(cfg, s, steps) == |steps|
    decreases if Announced(s) then 0 else 1, if Announced(s) then Work(s) else ClosersWork(s.closers)
  {
    var step := ShutdownNeverStuck(cfg, s, c);
    var s' := Exec(cfg, s, step);
    InvStep(cfg, s, step);
    if Announced(s) {
      ShutdownWork(cfg, s, step);
    } else {
      CloserLowers(cfg, s, step);
    }
    CallsStayMade(cfg, s, step, c);
    var rest: seq<Step<T>> := [];
    if ShuttingDown(s', c) {
      rest := ShutdownCompletes(cfg, s', c);
    }
    steps := [step] + rest;
    assert steps[1..] == rest;
  }

  lemma {:induction false} CallsStayMade<T>(cfg: Config, s: Pool<T>, step: Step<T>, c: nat)
    requires Enabled(cfg, s, step) && c < |s.closers| && !s.closers[c].NotCalled?
    ensures var s' := Exec(cfg, s, step); |s'.closers| == |s.closers| && !s'.closers[c].NotCalled?
  {
  }

  ghost predicate FullyFlushed<T>(s: Pool<T>) {
    FlushedBag(s.workers) == multiset(s.accepted)
  }

  /** On a zero counter every worker has returned, and it did so with nothing left to take. */
  lemma {:induction false} NobodyLeft<T>(cfg: Config, s: Pool<T>)
    requires DrainInv(cfg, s) && s.wg == 0
    ensures forall w | 0 <= w < |s.workers| :: s.workers[w].pc.Exited? && s.workers[w].batch == []
    ensures cfg.workerCount >= 1 ==> s.buffer == []
    ensures BatchBag(s.workers) == multiset{}
  {
    LiveZero(s.workers);
    forall w | 0 <= w < |s.workers| ensures s.workers[w].batch == [] && s.buffer == [] {
      assert WorkerOk(cfg, Drained(s), s.workers[w]);
    }
    SumBagsEmpty(Batches(s.workers));
    if cfg.workerCount >= 1 {
      assert s.workers[0].batch == [];
    }
  }

  /** When Shutdown returns, everything ever accepted has been flushed exactly once. */
  lemma {:induction false} ShutdownFlushesAll<T(!new)>(cfg: Config, producers: nat, closers: nat, s: Pool<T>, c: nat)
    requires cfg.workerCount >= 1
    requires Reachable(cfg, producers, closers, s) && c < |s.closers| && s.closers[c].Returned?
    ensures FullyFlushed(s) && s.buffer == []
    ensures forall w | 0 <= w < |s.workers| :: s.workers[w].pc.Exited? && s.workers[w].batch == []
  {
    assert DrainInv(cfg, s) && s.wg == 0 by { ReachableInv(cfg, producers, closers, s); }
    NobodyLeft(cfg, s);
    Conservation(cfg, producers, closers, s);
  }

  /** Every run in which a Shutdown call returns leaves nothing behind. */
  ghost predicate AlwaysDrains<T(!new)>(cfg: Config) {
    forall producers: nat, closers: nat, s: Pool<T>, c: nat ::
      Reachable(cfg, producers, closers, s) && c < |s.closers| && s.closers[c].Returned? ==> FullyFlushed(s)
  }

  /**
   * The drain guarantee holds exactly for pools with a worker, or with no buffer to leave items in:
   * with no workers and a buffer, Shutdown returns at once and strands what was queued.
   */
  lemma {:induction false} AlwaysDrainsExactlyWhen<T(!new)>(cfg: Config, item: T)
    ensures AlwaysDrains<T>(cfg) <==> cfg.workerCount >= 1 || cfg.channelCap == 0
  {
    if cfg.workerCount >= 1 || cfg.channelCap == 0 {
      forall producers: nat, closers: nat, s: Pool<T>, c: nat
        | Reachable(cfg, producers, closers, s) && c < |s.closers| && s.closers[c].Returned?
        ensures FullyFlushed(s)
      {
        if cfg.workerCount >= 1 {
          ShutdownFlushesAll(cfg, producers, closers, s, c);
        } else {
          ReachableInv(cfg, producers, closers, s);
          InvConserves(s);
        }
      }
    } else {
      StrandedItem(cfg, item);
    }
  }

  lemma {:induction false} StrandedItem<T(!new)>(cfg: Config, item: T)
    requires cfg.workerCount == 0 && cfg.channelCap >= 1
    ensures exists s: Pool<T> ::
      Reachable(cfg, 1, 1, s) && 0 < |s.closers| && s.closers[0].Returned? && !FullyFlushed(s)
  {
    var s0 := Init<T>(cfg, 1, 1);
    assert CanRun(cfg, s0, []) && After(cfg, s0, []) == s0;
    var s := AcceptOne(cfg, s0, item);
    s := ShutDownIdle(cfg, s);
    assert item in multiset(s.accepted);
  }

  lemma {:induction false} AcceptOne<T(!new)>(cfg: Config, s: Pool<T>, item: T) returns (s': Pool<T>)
    requires s == Init(cfg, 1, 1) && Reachable(cfg, 1, 1, s) && cfg.channelCap >= 1
    ensures Reachable(cfg, 1, 1, s') && s' == s.(buffer := [item], accepted := [item])
  {
    s' := Advance(cfg, s, RLock(0, item));
    s' := Advance(cfg, s', ReadClosed(0));
    s' := Advance(cfg, s', SelectSend(0));
    s' := Advance(cfg, s', RUnlock(0));
  }

  /** With nobody else active and no workers, Shutdown runs straight through. */
  lemma {:induction false} ShutDownIdle<T(!new)>(cfg: Config, s: Pool<T>) returns (s': Pool<T>)
    requires Reachable(cfg, 1, 1, s) && s.workers == [] && s.wg == 0 && s.closers == [NotCalled]
    requires !s.panicked && s.once.Fresh? && s.readers == {} && s.writer.None? && !s.chClosed
    ensures Reachable(cfg, 1, 1, s') && s'.closers == [Returned]
    ensures s'.accepted == s.accepted && s'.workers == []
  {
    s' := Advance(cfg, s, CallShutdown(0));
    s' := Advance(cfg, s', EnterOnce(0));
    s' := Advance(cfg, s', Announce(0));
    s' := Advance(cfg, s', Lock(0));
    s' := CloseUnderLock(cfg, s');
  }

  lemma {:induction false} CloseUnderLock<T(!new)>(cfg: Config, s: Pool<T>) returns (s': Pool<T>)
    requires Reachable(cfg, 1, 1, s) && s.closers == [InLock] && s.wg == 0 && !s.panicked && !s.chClosed
    ensures Reachable(cfg, 1, 1, s') && s'.closers == [Returned]
    ensures s'.accepted == s.accepted && s'.workers == s.workers
  {
    s' := Advance(cfg, s, SetClosed(0));
    s' := Advance(cfg, s', CloseChannel(0));
    s' := Advance(cfg, s', Unlock(0));
    s' := Advance(cfg, s', LeaveOnce(0));
    s' := Advance(cfg, s', FinishWait(0));
  }

  lemma {:induction false} Advance<T(!new)>(cfg: Config, s: Pool<T>, step: Step<T>) returns (s': Pool<T>)
    requires Reachable(cfg, 1, 1, s) && Enabled(cfg, s, step)
    ensures s' == Exec(cfg, s, step) && Reachable(cfg, 1, 1, s')
  {
    s' := Exec(cfg, s, step);
    var init := Init<T>(cfg, 1, 1);
    var steps :| CanRun(cfg, init, steps) && s == After(cfg, init, steps);
    RunSnoc(cfg, init, steps, step);
  }

  lemma {:induction false} RunSnoc<T>(cfg: Config, s: Pool<T>, steps: seq<Step<T>>, step: Step<T>)
    requires CanRun(cfg, s, steps) && Enabled(cfg, After(cfg, s, steps), step)
    ensures CanRun(cfg, s, steps + [step])
    ensures After(cfg, s, steps + [step]) == Exec(cfg, After(cfg, s, steps), step)
    decreases |steps|
  {
    if steps == [] {
      assert (steps + [step])[1..] == [];
    } else {
      assert (steps + [step])[1..] == steps[1..] + [step];
      RunSnoc(cfg, Exec(cfg, s, steps[0]), steps[1..], step);
    }
  }

  // ----- the loop of one worker ------------------------------------------------------

  /** What one execution of the select statement in run can report. */
  datatype Signal<T> = Item(value: T) | Ticked | Closed

  /** One iteration of the loop, doFlush included. */
  function React<T>(batchSize: nat, w: Worker<T>, signal: Signal<T>): Worker<T> {
    Settle(match signal
           case Item(value) => OnItem(batchSize, w, value)
           case Ticked => OnTick(w)
           case Closed => OnClosed(w))
  }

  function Settle<T>(w: Worker<T>): Worker<T> {
    if w.pc.Flushing? then FinishFlush(w) else w
  }

  /** The worker after a sequence of signals; a worker that has returned ignores the rest. */
  function Drive<T>(batchSize: nat, w: Worker<T>, signals: seq<Signal<T>>): Worker<T>
    decreases |signals|
  {
    if signals == [] || w.pc.Exited? then w else Drive(batchSize, React(batchSize, w, signals[0]), signals[1..])
  }

  function NewWorker<T>(): Worker<T> { Worker(Selecting, [], []) }

  /**
   * run itself: batch is one backing array with a length, reused after each flush and
   * reallocated by append only when full. calls is what flushFn was called with, item by item.
   */
  method RunWorker<T(0)>(batchSize: nat, signals: seq<Signal<T>>)
    returns (calls: seq<seq<T>>, rest: seq<T>, returned: bool)
    ensures Drive(batchSize, NewWorker(), signals)
         == Worker(if returned then Exited else Selecting, rest, calls)
    ensures Concat(calls) + rest == Received(signals) && Short(batchSize, calls) <= Timed(signals)
    ensures |rest| < Max(1, batchSize) && (returned <==> Closed in signals) && (returned ==> rest == [])
  {
    var backing := new T[batchSize];
    var len := 0;
    calls, returned := [], false;
    var i := 0;
    while i < |signals| && !returned
      invariant 0 <= i <= |signals| && 0 <= len <= backing.Length
      invariant fresh(backing)
      invariant Drive(batchSize, NewWorker(), signals)
             == Drive(batchSize, Worker(if returned then Exited else Selecting, backing[..len], calls), signals[i..])
      decreases |signals| - i
    {
      ghost var before := Worker(Selecting, backing[..len], calls);
      match signals[i] {
        case Item(value) =>
          if len == backing.Length {
            var bigger := new T[2 * len + 1];
            forall k | 0 <= k < len { bigger[k] := backing[k]; }
            backing := bigger;
          }
          backing[len] := value;
          len := len + 1;
          assert backing[..len] == before.batch + [value];
          if len >= batchSize {
            calls := calls + [backing[..len]];
            len := 0;
          }
        case Ticked =>
          if len > 0 {
            calls := calls + [backing[..len]];
            len := 0;
          }
        case Closed =>
          if len > 0 {
            calls := calls + [backing[..len]];
            len := 0;
          }
          returned := true;
      }
      assert React(batchSize, before, signals[i])
          == Worker(if returned then Exited else Selecting, backing[..len], calls);
      assert signals[i..][1..] == signals[i + 1..];
      i := i + 1;
    }
    rest := backing[..len];
    DriveSettles(batchSize, NewWorker(), signals);
    DriveFlushesFull(batchSize, NewWorker(), signals);
    DriveKeeps(batchSize, NewWorker(), signals);
    assert Taken<T>(NewWorker()) + Received(signals) == Received(signals);
  }

  /** The items the loop receives, up to the end of the channel. */
  function Received<T>(signals: seq<Signal<T>>): seq<T> {
    if signals == [] || signals[0].Closed? then []
    else (if signals[0].Item? then [signals[0].value] else []) + Received(signals[1..])
  }

  /** How many signals are not items: ticks, and the end of the channel. */
  function Timed<T>(signals: seq<Signal<T>>): nat {
    if signals == [] then 0 else (if signals[0].Item? then 0 else 1) + Timed(signals[1..])
  }

  /** How many flushes are not of a full batch. */
  function Short<T>(batchSize: nat, flushed: seq<seq<T>>): nat {
    if flushed == [] then 0
    else
      var last := |flushed| - 1;
      Short(batchSize, flushed[..last]) + if |flushed[last]| == Max(1, batchSize) then 0 else 1
  }

  /** One signal: an item is flushed only with a full batch, anything else at most once with less. */
  lemma {:induction false} ReactFlushes<T>(batchSize: nat, w: Worker<T>, signal: Signal<T>)
    requires w.pc.Selecting? && |w.batch| < Max(1, batchSize)
    ensures var w' := React(batchSize, w, signal);
      && Short(batchSize, w'.flushed) <= Short(batchSize, w.flushed) + (if signal.Item? then 0 else 1)
      && Taken(w') == Taken(w) + (if signal.Item? then [signal.value] else [])
      && |w'.batch| < Max(1, batchSize) && !w'.pc.Flushing?
      && (w'.pc.Exited? <==> signal.Closed?) && (w'.pc.Exited? ==> w'.batch == [])
  {
    var w' := React(batchSize, w, signal);
    if w'.flushed != w.flushed {
      assert w'.flushed[..|w.flushed|] == w.flushed;
    }
  }

  lemma {:induction false} DriveSettles<T>(batchSize: nat, w: Worker<T>, signals: seq<Signal<T>>)
    requires w.pc.Selecting? && |w.batch| < Max(1, batchSize)
    ensures var w' := Drive(batchSize, w, signals);
      && |w'.batch| < Max(1, batchSize) && !w'.pc.Flushing?
      && (w'.pc.Exited? <==> Closed in signals) && (w'.pc.Exited? ==> w'.batch == [])
    decreases |signals|
  {
    if signals != [] {
      ReactFlushes(batchSize, w, signals[0]);
      if !signals[0].Closed? {
        DriveSettles(batchSize, React(batchSize, w, signals[0]), signals[1..]);
      }
    }
  }

  /** Each flush of less than a full batch answers a tick or the end of the channel. */
  lemma {:induction false} DriveFlushesFull<T>(batchSize: nat, w: Worker<T>, signals: seq<Signal<T>>)
    requires w.pc.Selecting? && |w.batch| < Max(1, batchSize)
    ensures Short(batchSize, Drive(batchSize, w, signals).flushed) <= Short(batchSize, w.flushed) + Timed(signals)
    decreases |signals|
  {
    if signals != [] {
      ReactFlushes(batchSize, w, signals[0]);
      if !signals[0].Closed? {
        DriveFlushesFull(batchSize, React(batchSize, w, signals[0]), signals[1..]);
      }
    }
  }

  /** What the loop flushes and holds is what it received, in order. */
  lemma {:induction false} DriveKeeps<T>(batchSize: nat, w: Worker<T>, signals: seq<Signal<T>>)
    requires w.pc.Selecting? && |w.batch| < Max(1, batchSize)
    ensures Taken(Drive(batchSize, w, signals)) == Taken(w) + Received(signals)
    decreases |signals|
  {
    if signals != [] {
      ReactFlushes(batchSize, w, signals[0]);
      if !signals[0].Closed? {
        DriveKeeps(batchSize, React(batchSize, w, signals[0]), signals[1..]);
      }
    }
  }

  /** The signals worker w's select statements report along a run. */
  function SignalsOf<T>(cfg: Config, s: Pool<T>, steps: seq<Step<T>>, w: nat): seq<Signal<T>>
    requires CanRun(cfg, s, steps)
    decreases |steps|
  {
    if steps == [] then []
    else SignalOf(s, steps[0], w) + SignalsOf(cfg, Exec(cfg, s, steps[0]), steps[1..], w)
  }

  function SignalOf<T>(s: Pool<T>, step: Step<T>, w: nat): seq<Signal<T>> {
    match step
    case Handoff(p, v) => if v == w && p < |s.producers| && !s.producers[p].Outside? then [Item(s.producers[p].item)] else []
    case Receive(v) => if v == w && s.buffer != [] then [Item(s.buffer[0])] else []
    case ReceiveClosed(v) => if v == w then [Closed] else []
    case Tick(v) => if v == w then [Ticked] else []
    case _ => []
  }

  /** What a step does to worker w: nothing, a flush completed, or one reaction to the signal it got. */
  ghost predicate Reacts<T>(batchSize: nat, before: Worker<T>, after: Worker<T>, signals: seq<Signal<T>>) {
    if signals == [] then Settle(after) == Settle(before)
    else |signals| == 1 && before.pc.Selecting? && Settle(after) == React(batchSize, before, signals[0])
  }

  /** The worker a step is about, if any. */
  function StepWorker<T>(step: Step<T>): Option<nat> {
    if step.Handoff? || IsWorkerStep(step) then Some(step.w) else None
  }

  lemma {:induction false} OthersKeepWorker<T>(cfg: Config, s: Pool<T>, step: Step<T>, w: nat)
    requires Enabled(cfg, s, step) && w < |s.workers| && StepWorker(step) != Some(w)
    ensures |Exec(cfg, s, step).workers| == |s.workers| && Exec(cfg, s, step).workers[w] == s.workers[w]
    ensures SignalOf(s, step, w) == []
  {
  }

  lemma {:induction false} LoopStep<T>(cfg: Config, s: Pool<T>, step: Step<T>, w: nat)
    requires Enabled(cfg, s, step) && w < |s.workers|
    ensures |Exec(cfg, s, step).workers| == |s.workers|
    ensures Reacts(cfg.batchSize, s.workers[w], Exec(cfg, s, step).workers[w], SignalOf(s, step, w))
  {
    if StepWorker(step) != Some(w) {
      OthersKeepWorker(cfg, s, step, w);
    } else {
      OwnStep(cfg, s, step);
    }
  }

  lemma {:induction false} OwnStep<T>(cfg: Config, s: Pool<T>, step: Step<T>)
    requires Enabled(cfg, s, step) && StepWorker(step).Some?
    ensures |Exec(cfg, s, step).workers| == |s.workers| && step.w < |s.workers|
    ensures Reacts(cfg.batchSize, s.workers[step.w], Exec(cfg, s, step).workers[step.w], SignalOf(s, step, step.w))
  {
  }

  /**
   * Inside any run of the whole pool, a worker is doing what its loop does alone on the signals
   * it gets: up to a flush in progress, it is Drive of those signals.
   */
  lemma {:induction false} PoolRunsTheLoop<T>(cfg: Config, s: Pool<T>, steps: seq<Step<T>>, w: nat)
    requires CanRun(cfg, s, steps) && w < |s.workers|
    ensures |After(cfg, s, steps).workers| == |s.workers|
    ensures Settle(After(cfg, s, steps).workers[w])
         == Drive(cfg.batchSize, Settle(s.workers[w]), SignalsOf(cfg, s, steps, w))
    decreases |steps|
  {
    if steps != [] {
      var s' := Exec(cfg, s, steps[0]);
      var first, later := SignalOf(s, steps[0], w), SignalsOf(cfg, s', steps[1..], w);
      LoopStep(cfg, s, steps[0], w);
      PoolRunsTheLoop(cfg, s', steps[1..], w);
      if first == [] {
        assert first + later == later;
      } else {
        assert (first + later)[1..] == later;
      }
    }
  }

  /** From the start: the flushes of worker w are those of RunWorker on the signals it received. */
  lemma {:induction false} WorkerRefinesLoop<T>(cfg: Config, producers: nat, closers: nat, steps: seq<Step<T>>, w: nat)
    requires CanRun(cfg, Init<T>(cfg, producers, closers), steps) && w < cfg.workerCount
    ensures var s := After(cfg, Init<T>(cfg, producers, closers), steps);
            w < |s.workers|
            && Settle(s.workers[w])
               == Drive(cfg.batchSize, NewWorker(), SignalsOf(cfg, Init<T>(cfg, producers, closers), steps, w))
  {
    PoolRunsTheLoop(cfg, Init<T>(cfg, producers, closers), steps, w);
  }

  /** In any run of the pool a worker flushes less than a full batch at most once per tick and end of channel it sees. */
  lemma {:induction false} PoolFlushesFullBatches<T>(cfg: Config, producers: nat, closers: nat, steps: seq<Step<T>>, w: nat)
    requires CanRun(cfg, Init<T>(cfg, producers, closers), steps) && w < cfg.workerCount
    ensures var s := After(cfg, Init<T>(cfg, producers, closers), steps);
      && w < |s.workers|
      && Short(cfg.batchSize, Settle(s.workers[w]).flushed)
         <= Timed(SignalsOf(cfg, Init<T>(cfg, producers, closers), steps, w))
  {
    WorkerRefinesLoop(cfg, producers, closers, steps, w);
    DriveFlushesFull(cfg.batchSize, NewWorker<T>(), SignalsOf(cfg, Init<T>(cfg, producers, closers), steps, w));
  }

  // ----- what Enqueue answers --------------------------------------------------------

  /** The payload of an Enqueue call that returns in this step, and its answer. */
  function AnswerOf<T>(s: Pool<T>, step: Step<T>): seq<(T, bool)> {
    if step.RUnlock? && step.p < |s.producers| && s.producers[step.p].Leaving?
    then [(s.producers[step.p].item, s.producers[step.p].accepted)] else []
  }

  /** All answers along a run, in order. */
  function AnswersOf<T>(cfg: Config, s: Pool<T>, steps: seq<Step<T>>): seq<(T, bool)>
    requires CanRun(cfg, s, steps)
    decreases |steps|
  {
    if steps == [] then [] else AnswerOf(s, steps[0]) + AnswersOf(cfg, Exec(cfg, s, steps[0]), steps[1..])
  }

  /** How often x was answered with true. */
  function Yes<T(==)>(answers: seq<(T, bool)>, x: T): nat {
    if answers == [] then 0 else (if answers[0] == (x, true) then 1 else 0) + Yes(answers[1..], x)
  }

  function OneYes<T(==)>(producer: Producer<T>, x: T): nat {
    if producer == Leaving(x, true) then 1 else 0
  }

  /** How many calls are about to answer true for x. */
  function SayingYes<T(==)>(producers: seq<Producer<T>>, x: T): nat {
    if producers == [] then 0 else SayingYes(producers[..|producers| - 1], x) + OneYes(producers[|producers| - 1], x)
  }

  lemma {:induction false} SayingYesUpdate<T>(producers: seq<Producer<T>>, p: nat, producer: Producer<T>, x: T)
    requires p < |producers|
    ensures SayingYes(producers[p := producer], x) == SayingYes(producers, x) - OneYes(producers[p], x) + OneYes(producer, x)
  {
    var n := |producers| - 1;
    if p == n {
      assert producers[p := producer][..n] == producers[..n];
    } else {
      assert producers[p := producer][..n] == producers[..n][p := producer];
      SayingYesUpdate(producers[..n], p, producer, x);
    }
  }

  /** A step of any goroutine but a producer accepts nothing and answers nothing. */
  lemma {:induction false} AnswerStep<T>(cfg: Config, s: Pool<T>, step: Step<T>, x: T)
    requires Enabled(cfg, s, step)
    ensures var s' := Exec(cfg, s, step);
      multiset(s'.accepted)[x] + SayingYes(s.producers, x)
      == multiset(s.accepted)[x] + Yes(AnswerOf(s, step), x) + SayingYes(s'.producers, x)
  {
    if IsProducerStep(step) {
      SayingYesUpdate(s.producers, step.p, Exec(cfg, s, step).producers[step.p], x);
    } else {
      QuietStep(cfg, s, step);
    }
  }

  lemma {:induction false} QuietStep<T>(cfg: Config, s: Pool<T>, step: Step<T>)
    requires Enabled(cfg, s, step) && !IsProducerStep(step)
    ensures Exec(cfg, s, step).accepted == s.accepted && Exec(cfg, s, step).producers == s.producers && AnswerOf(s, step) == []
  {
  }

  lemma {:induction false} YesConcat<T>(a: seq<(T, bool)>, b: seq<(T, bool)>, x: T)
    requires |a| <= 1
    ensures Yes(a + b, x) == Yes(a, x) + Yes(b, x)
  {
    if a == [] {
      assert a + b == b;
    } else {
      assert (a + b)[1..] == b && a[1..] == [];
    }
  }

  lemma {:induction false} AnswersAdd<T>(cfg: Config, s: Pool<T>, steps: seq<Step<T>>, x: T)
    requires CanRun(cfg, s, steps)
    ensures multiset(After(cfg, s, steps).accepted)[x] + SayingYes(s.producers, x)
         == multiset(s.accepted)[x] + Yes(AnswersOf(cfg, s, steps), x) + SayingYes(After(cfg, s, steps).producers, x)
    decreases |steps|
  {
    if steps != [] {
      var s' := Exec(cfg, s, steps[0]);
      AnswerStep(cfg, s, steps[0], x);
      AnswersAdd(cfg, s', steps[1..], x);
      YesConcat(AnswerOf(s, steps[0]), AnswersOf(cfg, s', steps[1..]), x);
    }
  }

  lemma {:induction false} NobodySaysYes<T>(producers: seq<Producer<T>>, x: T)
    requires forall p | 0 <= p < |producers| :: producers[p].Outside?
    ensures SayingYes(producers, x) == 0
  {
    if producers != [] {
      NobodySaysYes(producers[..|producers| - 1], x);
    }
  }

  /** Enqueue tells the truth: over any run a payload is accepted as often as it has answered true for it, or is about to. */
  lemma {:induction false} AnswersAreTrue<T>(cfg: Config, producers: nat, closers: nat, steps: seq<Step<T>>, x: T)
    requires CanRun(cfg, Init<T>(cfg, producers, closers), steps)
    ensures var s := After(cfg, Init<T>(cfg, producers, closers), steps);
      multiset(s.accepted)[x] == Yes(AnswersOf(cfg, Init<T>(cfg, producers, closers), steps), x) + SayingYes(s.producers, x)
  {
    var init := Init<T>(cfg, producers, closers);
    AnswersAdd(cfg, init, steps, x);
    NobodySaysYes(init.producers, x);
  }

  /** And it refuses only a closed pool or a full buffer. */
  lemma {:induction false} RefusedOnlyWhen<T>(cfg: Config, s: Pool<T>, step: Step<T>, p: nat)
    requires Enabled(cfg, s, step) && p < |s.producers| && !s.producers[p].Leaving?
    ensures var s' := Exec(cfg, s, step);
      p < |s'.producers| && (s'.producers[p].Leaving? && !s'.producers[p].accepted ==>
        (step == ReadClosed(p) && s.closed) || (step == SelectDefault(p) && |s.buffer| >= cfg.channelCap))
  {
  }
}
