/**
 * The outbound WhatsApp queue: one worker on a cooperative event loop. A turn of the loop is
 * atomic; between turns the worker is idle, asleep with a job in hand, or waiting for a send.
 */
module WhatsappQueue {
  import opened Options

  datatype Job = Job(id: string, phone: string, text: string, enqueuedAt: int)

  /** Delays in milliseconds; the minimum is at most the maximum. */
  datatype Config = Config(minDelay: nat, maxDelay: nat, maxSize: nat)

  predicate ValidConfig(c: Config) {
    c.minDelay <= c.maxDelay
  }

  /** Where the worker is suspended. */
  datatype Worker = Idle | Sleeping(job: Job, until: int) | Sending(job: Job)

  datatype State = State(queue: seq<Job>, isProcessing: bool, shuttingDown: bool, lastSentAt: Option<int>, worker: Worker)

  const INITIAL := State([], false, false, None, Idle)

  datatype Result = NotConnected | QueueFull | Accepted(position: nat)

  // ---------- Specification of one turn ----------

  /** The loop from its head to the next point where it waits or ends. */
  function Loop(c: Config, s: State, now: int, jitter: nat): State {
    if s.shuttingDown || s.queue == [] then s.(isProcessing := false, worker := Idle)
    else Take(c, s, now, jitter)
  }

  function Take(c: Config, s: State, now: int, jitter: nat): State
    requires s.queue != []
  {
    var job := s.queue[0];
    var taken := s.(queue := s.queue[1..]);
    if s.lastSentAt.Some? && c.minDelay + jitter - (now - s.lastSentAt.value) > 0
    then taken.(worker := Sleeping(job, s.lastSentAt.value + c.minDelay + jitter))
    else taken.(worker := Sending(job))
  }

  function EnqueueTurn(c: Config, s: State, job: Job, connected: bool, now: int, jitter: nat): (State, Result) {
    if !connected then (s, NotConnected)
    else if |s.queue| >= c.maxSize then (s, QueueFull)
    else
      var pushed := s.(queue := s.queue + [job]);
      var out := if s.isProcessing then pushed else Loop(c, pushed.(isProcessing := true), now, jitter);
      (out, Accepted(|out.queue|))
  }

  function WakeTurn(s: State): State
    requires s.worker.Sleeping?
  {
    if s.shuttingDown then s.(isProcessing := false, worker := Idle) else s.(worker := Sending(s.worker.job))
  }

  /** A send has finished, well or badly. */
  function SettleTurn(c: Config, s: State, now: int, jitter: nat): State
    requires s.worker.Sending?
  {
    Loop(c, s.(lastSentAt := Some(now)), now, jitter)
  }

  // ---------- The service ----------

  class WhatsappQueueService {
    const config: Config
    var queue: seq<Job>
    var isProcessing: bool
    var shuttingDown: bool
    var lastSentAt: Option<int>
    var worker: Worker

    constructor (config: Config)
      ensures this.config == config && Current() == INITIAL
    {
      this.config := config;
      queue, isProcessing, shuttingDown, lastSentAt, worker := [], false, false, None, Idle;
    }

    function Current(): State
      reads this
    {
      State(queue, isProcessing, shuttingDown, lastSentAt, worker)
    }

    /** `jitter` is the random part of the delay, should the worker draw one in this turn. */
    method EnqueueText(job: Job, connected: bool, now: int, jitter: nat) returns (r: Result)
      requires jitter <= config.maxDelay - config.minDelay
      modifies this
      ensures (Current(), r) == EnqueueTurn(config, old(Current()), job, connected, now, jitter)
    {
      if !connected {
        return NotConnected;
      }
      if |queue| >= config.maxSize {
        return QueueFull;
      }
      queue := queue + [job];
      StartWorker(now, jitter);
      return Accepted(|queue|);
    }

    method StartWorker(now: int, jitter: nat)
      requires jitter <= config.maxDelay - config.minDelay
      modifies this
      ensures Current() == if old(isProcessing) then old(Current()) else Loop(config, old(Current()).(isProcessing := true), now, jitter)
    {
      if isProcessing {
        return;
      }
      isProcessing := true;
      ProcessLoop(now, jitter);
    }

    /** The loop up to its next wait. */
    method ProcessLoop(now: int, jitter: nat)
      requires jitter <= config.maxDelay - config.minDelay
      modifies this
      ensures Current() == Loop(config, old(Current()), now, jitter)
    {
      if shuttingDown || queue == [] {
        isProcessing, worker := false, Idle;
        return;
      }
      var job := queue[0];
      queue := queue[1..];
      if lastSentAt.Some? {
        var delay := config.minDelay + jitter;
        var elapsed := now - lastSentAt.value;
        var remaining := delay - elapsed;
        if remaining > 0 {
          worker := Sleeping(job, now + remaining);
          return;
        }
      }
      worker := Sending(job);
    }

    /** The loop resumes after its sleep. */
    method WakeUp()
      requires worker.Sleeping?
      modifies this
      ensures Current() == WakeTurn(old(Current()))
    {
      if shuttingDown {
        isProcessing, worker := false, Idle;
        return;
      }
      worker := Sending(worker.job);
    }

    /** The loop resumes after `sendText` has settled. */
    method SendSettled(now: int, jitter: nat)
      requires worker.Sending? && jitter <= config.maxDelay - config.minDelay
      modifies this
      ensures Current() == SettleTurn(config, old(Current()), now, jitter)
    {
      lastSentAt := Some(now);
      ProcessLoop(now, jitter);
    }

    method OnModuleDestroy()
      modifies this
      ensures Current() == old(Current()).(shuttingDown := true)
    {
      shuttingDown := true;
    }
  }

  // ---------- Runs ----------

  /** A send, with the instant it settled. */
  datatype Send = Send(job: Job, start: int, end: Option<int>)

  /** `dropped` holds the jobs taken from the queue and never sent. */
  datatype World = World(state: State, now: int, accepted: seq<Job>, sends: seq<Send>, dropped: seq<Job>)

  datatype Step =
    | Enqueue(job: Job, connected: bool, jitter: nat)
    | Wake
    | Settle(jitter: nat)
    | Destroy
    | Wait(until: int)

  /** The jitter is drawn from the span, the sleep is never short, and only a send settles. */
  predicate Enabled(c: Config, w: World, step: Step) {
    match step
    case Enqueue(_, _, jitter) => jitter <= c.maxDelay - c.minDelay
    case Wake => w.state.worker.Sleeping? && w.now >= w.state.worker.until
    case Settle(jitter) => w.state.worker.Sending? && jitter <= c.maxDelay - c.minDelay
    case Destroy => true
    case Wait(until) => until >= w.now
  }

  /** Record the send that a turn has started, if any. */
  function Started(sends: seq<Send>, worker: Worker, now: int): seq<Send> {
    if worker.Sending? then sends + [Send(worker.job, now, None)] else sends
  }

  function Ended(sends: seq<Send>, now: int): seq<Send> {
    if sends == [] then [] else sends[|sends| - 1 := sends[|sends| - 1].(end := Some(now))]
  }

  function Turn(c: Config, w: World, step: Step): World
    requires Enabled(c, w, step)
  {
    match step
    case Enqueue(job, connected, jitter) =>
      var (out, r) := EnqueueTurn(c, w.state, job, connected, w.now, jitter);
      World(out, w.now, if r.Accepted? then w.accepted + [job] else w.accepted,
            if w.state.worker.Sending? then w.sends else Started(w.sends, out.worker, w.now), w.dropped)
    case Wake =>
      var out := WakeTurn(w.state);
      World(out, w.now, w.accepted, Started(w.sends, out.worker, w.now),
            if out.worker.Idle? then w.dropped + [w.state.worker.job] else w.dropped)
    case Settle(jitter) =>
      var out := SettleTurn(c, w.state, w.now, jitter);
      World(out, w.now, w.accepted, Started(Ended(w.sends, w.now), out.worker, w.now), w.dropped)
    case Destroy => w.(state := w.state.(shuttingDown := true))
    case Wait(until) => w.(now := until)
  }

  /** A step that is not enabled does not happen. */
  function Apply(c: Config, w: World, step: Step): World {
    if Enabled(c, w, step) then Turn(c, w, step) else w
  }

  function Continue(c: Config, w: World, steps: seq<Step>): World {
    if steps == [] then w else Apply(c, Continue(c, w, steps[..|steps| - 1]), steps[|steps| - 1])
  }

  function Start(now: int): World {
    World(INITIAL, now, [], [], [])
  }

  // ---------- Invariant ----------

  function Jobs(sends: seq<Send>): seq<Job> {
    seq(|sends|, i requires 0 <= i < |sends| => sends[i].job)
  }

  /** The job the worker holds while it sleeps. */
  function InHand(worker: Worker): seq<Job> {
    if worker.Sleeping? then [worker.job] else []
  }

  /** No wake-up is lost: before shutdown, whenever a job waits the worker is at it. */
  ghost predicate WorkerSound(s: State) {
    && (s.isProcessing <==> !s.worker.Idle?)
    && (!s.shuttingDown && s.queue != [] ==> !s.worker.Idle?)
  }

  /** Accepted jobs are, in order: sent or being sent, in hand, dropped at shutdown, waiting. */
  ghost predicate Conserved(w: World) {
    && w.accepted == Jobs(w.sends) + InHand(w.state.worker) + w.dropped + w.state.queue
    && |w.dropped| <= 1
    && (w.dropped != [] ==> w.state.shuttingDown && w.state.worker.Idle?)
  }

  /** Only the last send can be unfinished, and it is unfinished while the worker waits for it. */
  ghost predicate OneInFlight(worker: Worker, sends: seq<Send>) {
    && (forall i :: 0 <= i < |sends| - 1 ==> sends[i].end.Some?)
    && (sends != [] ==> (sends[|sends| - 1].end.None? <==> worker.Sending?))
    && (worker.Sending? ==> sends != [] && sends[|sends| - 1].job == worker.job)
  }

  /** A send starts no earlier than the minimum delay after the previous one settled. */
  ghost predicate Spaced(c: Config, sends: seq<Send>) {
    && (forall i :: 0 <= i < |sends| && sends[i].end.Some? ==> sends[i].start <= sends[i].end.value)
    && (forall i :: 0 <= i < |sends| - 1 ==> sends[i].end.Some? && sends[i].end.value + c.minDelay <= sends[i + 1].start)
  }

  ghost predicate Clocked(c: Config, s: State, sends: seq<Send>, now: int) {
    && (s.lastSentAt.Some? ==> s.lastSentAt.value <= now)
    && (forall i :: 0 <= i < |sends| ==> sends[i].start <= now)
    && (sends != [] && sends[|sends| - 1].end.Some? ==> s.lastSentAt == sends[|sends| - 1].end)
    && (s.worker.Sleeping? ==> s.lastSentAt.Some? && s.worker.until >= s.lastSentAt.value + c.minDelay)
  }

  ghost predicate Invariant(c: Config, w: World) {
    && WorkerSound(w.state)
    && |w.state.queue| <= c.maxSize
    && Conserved(w)
    && OneInFlight(w.state.worker, w.sends)
    && Spaced(c, w.sends)
    && Clocked(c, w.state, w.sends, w.now)
  }

  // ---------- The loop from its head ----------

  /** All sends have settled and no job is in hand: the worker is at the head of its loop. */
  ghost predicate AtHead(c: Config, w: World) {
    && |w.state.queue| <= c.maxSize
    && w.accepted == Jobs(w.sends) + w.dropped + w.state.queue && |w.dropped| <= 1
    && (w.dropped != [] ==> w.state.shuttingDown)
    && AllEnded(c, w.state.lastSentAt, w.sends, w.now)
  }

  ghost predicate AllEnded(c: Config, lastSentAt: Option<int>, sends: seq<Send>, now: int) {
    && (forall i :: 0 <= i < |sends| ==> sends[i].end.Some?)
    && Spaced(c, sends)
    && (forall i :: 0 <= i < |sends| ==> sends[i].start <= now)
    && (lastSentAt.Some? ==> lastSentAt.value <= now)
    && (sends != [] ==> lastSentAt == sends[|sends| - 1].end)
  }

  function Looped(c: Config, w: World, jitter: nat): World {
    var out := Loop(c, w.state, w.now, jitter);
    World(out, w.now, w.accepted, Started(w.sends, out.worker, w.now), w.dropped)
  }

  lemma JobsStarted(sends: seq<Send>, job: Job, now: int)
    ensures Jobs(sends + [Send(job, now, None)]) == Jobs(sends) + [job]
  {
  }

  lemma StartKeepsSpacing(c: Config, lastSentAt: Option<int>, sends: seq<Send>, job: Job, now: int)
    requires AllEnded(c, lastSentAt, sends, now)
    requires lastSentAt.Some? ==> lastSentAt.value + c.minDelay <= now
    ensures Spaced(c, sends + [Send(job, now, None)])
  {
  }

  lemma TakeFirst(sent: seq<Job>, queue: seq<Job>)
    requires queue != []
    ensures sent + [queue[0]] + [] + queue[1..] == sent + [] + queue
    ensures (sent + [queue[0]]) + [] + [] + queue[1..] == sent + [] + queue
  {
  }

  lemma LoopConserves(c: Config, w: World, jitter: nat)
    requires AtHead(c, w)
    ensures Conserved(Looped(c, w, jitter)) && |Looped(c, w, jitter).state.queue| <= c.maxSize
  {
    var s := w.state;
    if !s.shuttingDown && s.queue != [] {
      assert w.dropped == [];
      TakeFirst(Jobs(w.sends), s.queue);
      JobsStarted(w.sends, s.queue[0], w.now);
    } else {
      assert Jobs(w.sends) + [] + w.dropped == Jobs(w.sends) + w.dropped;
    }
  }

  lemma LoopKeepsSends(c: Config, w: World, jitter: nat)
    requires AtHead(c, w)
    ensures var v := Looped(c, w, jitter);
            OneInFlight(v.state.worker, v.sends) && Spaced(c, v.sends) && Clocked(c, v.state, v.sends, w.now)
  {
    var v := Looped(c, w, jitter);
    if v.state.worker.Sending? {
      StartKeepsSpacing(c, w.state.lastSentAt, w.sends, v.state.worker.job, w.now);
    }
  }

  lemma LoopKeepsInvariant(c: Config, w: World, jitter: nat)
    requires AtHead(c, w) && w.state.isProcessing
    ensures Invariant(c, Looped(c, w, jitter))
  {
    LoopConserves(c, w, jitter);
    LoopKeepsSends(c, w, jitter);
  }

  // ---------- Every run ----------

  /** The worker is busy, so a job is only appended. */
  lemma AppendKeepsInvariant(c: Config, w: World, job: Job)
    requires Invariant(c, w) && |w.state.queue| < c.maxSize && w.state.isProcessing
    ensures Invariant(c, w.(state := w.state.(queue := w.state.queue + [job]), accepted := w.accepted + [job]))
  {
    AppendConserves(w, job);
  }

  lemma AppendConserves(w: World, job: Job)
    requires Conserved(w)
    ensures Conserved(w.(state := w.state.(queue := w.state.queue + [job]), accepted := w.accepted + [job]))
  {
  }

  lemma IdleIsAtHead(c: Config, w: World, job: Job)
    requires Invariant(c, w) && |w.state.queue| < c.maxSize && w.state.worker.Idle?
    ensures AtHead(c, w.(state := w.state.(queue := w.state.queue + [job], isProcessing := true), accepted := w.accepted + [job]))
  {
    AppendConserves(w, job);
    assert Jobs(w.sends) + [] + w.dropped == Jobs(w.sends) + w.dropped;
  }

  lemma EnqueueKeepsInvariant(c: Config, w: World, job: Job, jitter: nat)
    requires Invariant(c, w) && |w.state.queue| < c.maxSize && Enabled(c, w, Enqueue(job, true, jitter))
    ensures Invariant(c, Turn(c, w, Enqueue(job, true, jitter)))
  {
    if w.state.isProcessing {
      AppendKeepsInvariant(c, w, job);
    } else {
      IdleIsAtHead(c, w, job);
      LoopKeepsInvariant(c, w.(state := w.state.(queue := w.state.queue + [job], isProcessing := true), accepted := w.accepted + [job]), jitter);
    }
  }

  lemma WakeToSend(c: Config, w: World, job: Job)
    requires Invariant(c, w) && w.state.worker.Sleeping? && w.now >= w.state.worker.until
    requires job == w.state.worker.job && !w.state.shuttingDown
    ensures Invariant(c, w.(state := w.state.(worker := Sending(job)), sends := w.sends + [Send(job, w.now, None)]))
  {
    JobsStarted(w.sends, job, w.now);
    StartKeepsSpacing(c, w.state.lastSentAt, w.sends, job, w.now);
    assert Jobs(w.sends) + [job] + w.dropped == Jobs(w.sends) + [job] + [] + w.dropped;
  }

  lemma WakeToStop(c: Config, w: World, job: Job)
    requires Invariant(c, w) && w.state.worker.Sleeping? && job == w.state.worker.job && w.state.shuttingDown
    ensures Invariant(c, w.(state := w.state.(isProcessing := false, worker := Idle), dropped := w.dropped + [job]))
  {
    assert w.dropped == [];
    assert Jobs(w.sends) + [job] + [] + w.state.queue == Jobs(w.sends) + [] + [job] + w.state.queue;
  }

  lemma WakeKeepsInvariant(c: Config, w: World)
    requires Invariant(c, w) && Enabled(c, w, Wake)
    ensures Invariant(c, Turn(c, w, Wake))
  {
    if w.state.shuttingDown {
      WakeToStop(c, w, w.state.worker.job);
    } else {
      WakeToSend(c, w, w.state.worker.job);
    }
  }

  lemma SettledIsAtHead(c: Config, w: World)
    requires Invariant(c, w) && w.state.worker.Sending?
    ensures AtHead(c, w.(state := w.state.(lastSentAt := Some(w.now)), sends := Ended(w.sends, w.now)))
  {
    assert Jobs(Ended(w.sends, w.now)) == Jobs(w.sends);
    assert Jobs(w.sends) + [] + w.dropped == Jobs(w.sends) + w.dropped;
  }

  lemma SettleKeepsInvariant(c: Config, w: World, jitter: nat)
    requires Invariant(c, w) && Enabled(c, w, Settle(jitter))
    ensures Invariant(c, Turn(c, w, Settle(jitter)))
  {
    SettledIsAtHead(c, w);
    LoopKeepsInvariant(c, w.(state := w.state.(lastSentAt := Some(w.now)), sends := Ended(w.sends, w.now)), jitter);
  }

  lemma StepKeepsInvariant(c: Config, w: World, step: Step)
    requires Invariant(c, w)
    ensures Invariant(c, Apply(c, w, step))
  {
    if Enabled(c, w, step) {
      match step {
        case Enqueue(job, connected, jitter) =>
          if connected && |w.state.queue| < c.maxSize {
            EnqueueKeepsInvariant(c, w, job, jitter);
          }
        case Wake => WakeKeepsInvariant(c, w);
        case Settle(jitter) => SettleKeepsInvariant(c, w, jitter);
        case Destroy =>
        case Wait(until) =>
      }
    }
  }

  lemma StartInvariant(c: Config, now: int)
    ensures Invariant(c, Start(now))
  {
    assert Jobs([]) == [];
  }

  lemma {:induction false} ContinueKeepsInvariant(c: Config, w: World, steps: seq<Step>)
    requires Invariant(c, w)
    ensures Invariant(c, Continue(c, w, steps))
  {
    if steps != [] {
      ContinueKeepsInvariant(c, w, steps[..|steps| - 1]);
      StepKeepsInvariant(c, Continue(c, w, steps[..|steps| - 1]), steps[|steps| - 1]);
    }
  }

  /**
   * No wake-up is lost: the worker runs exactly while `isProcessing` says so, and before
   * shutdown it runs whenever a job waits. The queue never exceeds its size.
   */
  lemma {:induction false} NoLostWakeUp(c: Config, start: int, steps: seq<Step>)
    ensures var s := Continue(c, Start(start), steps).state;
            WorkerSound(s) && |s.queue| <= c.maxSize
  {
    StartInvariant(c, start);
    ContinueKeepsInvariant(c, Start(start), steps);
  }

  /** Jobs go out in the order they were accepted, one at a time and each at most once; only shutdown loses one, at most. */
  lemma InOrderOnce(c: Config, start: int, steps: seq<Step>)
    ensures var w := Continue(c, Start(start), steps);
            && Conserved(w) && OneInFlight(w.state.worker, w.sends)
            && (!w.state.shuttingDown ==> w.accepted == Jobs(w.sends) + InHand(w.state.worker) + w.state.queue)
  {
    StartInvariant(c, start);
    ContinueKeepsInvariant(c, Start(start), steps);
    FromConserved(Continue(c, Start(start), steps));
  }

  lemma FromConserved(w: World)
    requires Conserved(w)
    ensures !w.state.shuttingDown ==> w.accepted == Jobs(w.sends) + InHand(w.state.worker) + w.state.queue
  {
    if !w.state.shuttingDown {
      assert w.dropped == [];
    }
  }

  // ---------- Pacing ----------

  /** Sends that start within [from, from + length]. */
  function StartsWithin(sends: seq<Send>, from: int, length: int): nat {
    if sends == [] then 0
    else
      var last := sends[|sends| - 1];
      StartsWithin(sends[..|sends| - 1], from, length) + if from <= last.start <= from + length then 1 else 0
  }

  lemma {:induction false} StartsApart(c: Config, sends: seq<Send>, i: nat, j: nat)
    requires Spaced(c, sends) && i < j < |sends|
    ensures sends[i].start + c.minDelay <= sends[j].start
    decreases j
  {
    assert sends[j - 1].start + c.minDelay <= sends[j].start;
    if i < j - 1 {
      StartsApart(c, sends, i, j - 1);
    }
  }

  /** A window may be cut short where no send starts any more. */
  lemma {:induction false} CutShort(sends: seq<Send>, from: int, length: int, shorter: int)
    requires forall i :: 0 <= i < |sends| ==> sends[i].start <= from + shorter
    ensures StartsWithin(sends, from, length) <= StartsWithin(sends, from, shorter)
  {
    if sends != [] {
      CutShort(sends[..|sends| - 1], from, length, shorter);
    }
  }

  lemma {:induction false} PacedWindow(c: Config, sends: seq<Send>, from: int, length: int)
    requires Spaced(c, sends)
    ensures var n := StartsWithin(sends, from, length); n > 0 ==> (n - 1) * c.minDelay <= length
  {
    if sends != [] {
      var k := |sends| - 1;
      if from <= sends[k].start <= from + length {
        var shorter := sends[k].start - c.minDelay - from;
        forall i | 0 <= i < k
          ensures sends[..k][i].start <= from + shorter
        {
          StartsApart(c, sends, i, k);
        }
        CutShort(sends[..k], from, length, shorter);
        PacedWindow(c, sends[..k], from, shorter);
        OneMore(StartsWithin(sends[..k], from, length), StartsWithin(sends[..k], from, shorter), c.minDelay, shorter, length);
      } else {
        PacedWindow(c, sends[..k], from, length);
      }
    }
  }

  lemma OneMore(n: nat, m: nat, delay: nat, shorter: int, length: int)
    requires n <= m && shorter + delay <= length && 0 <= length
    requires m > 0 ==> (m - 1) * delay <= shorter
    ensures n * delay <= length
  {
    if n > 0 {
      assert (n - 1) * delay <= (m - 1) * delay;
      assert n * delay == (n - 1) * delay + delay;
    }
  }

  /**
   * Pacing, across idle gaps and failed sends: each send starts at least the minimum delay
   * after the previous one settled, so a window holds at most its length over the minimum
   * delay, and one more.
   */
  lemma Paced(c: Config, start: int, steps: seq<Step>, from: int, length: nat)
    requires c.minDelay > 0
    ensures Spaced(c, Continue(c, Start(start), steps).sends)
    ensures StartsWithin(Continue(c, Start(start), steps).sends, from, length) <= length / c.minDelay + 1
  {
    StartInvariant(c, start);
    ContinueKeepsInvariant(c, Start(start), steps);
    WindowCount(c, Continue(c, Start(start), steps).sends, from, length);
  }

  lemma WindowCount(c: Config, sends: seq<Send>, from: int, length: nat)
    requires c.minDelay > 0 && Spaced(c, sends)
    ensures StartsWithin(sends, from, length) <= length / c.minDelay + 1
  {
    PacedWindow(c, sends, from, length);
    var n := StartsWithin(sends, from, length);
    if n > 0 {
      QuotientAtLeast(n - 1, c.minDelay, length);
    }
  }

  lemma QuotientAtLeast(k: nat, d: nat, length: nat)
    requires d > 0 && k * d <= length
    ensures k <= length / d
  {
    var q := length / d;
    assert length < q * d + d == (q + 1) * d;
    SmallerFactor(k, q + 1, d);
  }

  lemma SmallerFactor(k: nat, m: nat, d: nat)
    ensures k * d < m * d ==> k < m
  {
    if k >= m {
      assert k * d == m * d + (k - m) * d;
    }
  }

  // ---------- Shutdown ----------

  /** After shutdown no send starts. */
  lemma {:induction false} NoSendAfterShutdown(c: Config, w: World, steps: seq<Step>)
    requires w.state.shuttingDown
    ensures Continue(c, w, steps).state.shuttingDown && |Continue(c, w, steps).sends| == |w.sends|
  {
    if steps != [] {
      NoSendAfterShutdown(c, w, steps[..|steps| - 1]);
    }
  }

  // ---------- Progress ----------

  /** What still has to happen to drain the queue: each job is woken for, perhaps, and settles. */
  function Pending(s: State): nat {
    2 * |s.queue| + match s.worker case Idle => 0 case Sleeping(_, _) => 2 case Sending(_) => 1
  }

  /** The turn that ends the worker's present wait, and how to get to it. */
  function Due(w: World): seq<Step> {
    match w.state.worker
    case Idle => []
    case Sleeping(_, until) => [Wait(if until >= w.now then until else w.now), Wake]
    case Sending(_) => [Settle(0)]
  }

  lemma ContinueAll(c: Config, w: World, a: seq<Step>, b: seq<Step>)
    ensures Continue(c, Continue(c, w, a), b) == Continue(c, w, a + b)
    decreases |b|
  {
    if b == [] {
      assert a + b == a;
    } else {
      var n := |b| - 1;
      ContinueAll(c, w, a, b[..n]);
      assert (a + b)[..|a + b| - 1] == a + b[..n];
    }
  }

  lemma DueAdvances(c: Config, w: World)
    requires ValidConfig(c) && Invariant(c, w) && !w.state.shuttingDown && !w.state.worker.Idle?
    ensures var v := Continue(c, w, Due(w));
            Pending(v.state) < Pending(w.state) && v.accepted == w.accepted && !v.state.shuttingDown
  {
    match w.state.worker {
      case Sleeping(_, until) =>
        var waited := Apply(c, w, Due(w)[0]);
        assert Due(w)[..1] == [Due(w)[0]] && Due(w)[..1][..0] == [];
        assert Continue(c, w, Due(w)[..1]) == waited;
      case Sending(_) =>
        assert Due(w)[..0] == [];
    }
  }

  /** From any point before shutdown, some steps that only end waits send exactly the accepted jobs, in order. */
  lemma {:induction false} Drains(c: Config, w: World) returns (steps: seq<Step>)
    requires ValidConfig(c) && Invariant(c, w) && !w.state.shuttingDown
    ensures Continue(c, w, steps).accepted == w.accepted
    ensures Jobs(Continue(c, w, steps).sends) == w.accepted
    ensures forall step :: step in steps ==> step.Wait? || step.Wake? || step.Settle?
    decreases Pending(w.state)
  {
    if w.state.worker.Idle? {
      steps := [];
      FromConserved(w);
      assert w.state.queue == [];
    } else {
      var due := Due(w);
      DueAdvances(c, w);
      ContinueKeepsInvariant(c, w, due);
      var rest := Drains(c, Continue(c, w, due));
      steps := due + rest;
      ContinueAll(c, w, due, rest);
    }
  }

  /** A sleep that ends or a send that settles. */
  predicate EndsWait(c: Config, w: World, step: Step) {
    (step.Wake? || step.Settle?) && Enabled(c, w, step)
  }

  /** The waits that end along the steps. */
  function WaitsEnded(c: Config, w: World, steps: seq<Step>): nat {
    if steps == [] then 0
    else
      var n := |steps| - 1;
      WaitsEnded(c, w, steps[..n]) + if EndsWait(c, Continue(c, w, steps[..n]), steps[n]) then 1 else 0
  }

  lemma WaitLowersPending(c: Config, w: World, step: Step)
    requires !w.state.shuttingDown && (step.Wake? || step.Settle? || step.Wait?)
    ensures var v := Apply(c, w, step);
            && v.accepted == w.accepted && !v.state.shuttingDown
            && if EndsWait(c, w, step) then Pending(v.state) < Pending(w.state) else v.state == w.state
  {
  }

  lemma {:induction false} WaitsLowerPending(c: Config, w: World, steps: seq<Step>)
    requires !w.state.shuttingDown && forall step :: step in steps ==> step.Wake? || step.Settle? || step.Wait?
    ensures var v := Continue(c, w, steps);
            && WaitsEnded(c, w, steps) + Pending(v.state) <= Pending(w.state)
            && v.accepted == w.accepted && !v.state.shuttingDown
  {
    if steps != [] {
      var n := |steps| - 1;
      assert steps[n] in steps;
      WaitsLowerPending(c, w, steps[..n]);
      WaitLowersPending(c, Continue(c, w, steps[..n]), steps[n]);
    }
  }

  lemma IdleHasSent(c: Config, w: World)
    requires Invariant(c, w) && !w.state.shuttingDown && w.state.worker.Idle?
    ensures Jobs(w.sends) == w.accepted
  {
    FromConserved(w);
    assert w.state.queue == [];
  }

  /**
   * Every schedule drains the queue: from any point of a run before shutdown, only so many
   * waits can end before the worker is idle, whichever end when, and the worker is idle only
   * when exactly the accepted jobs have been sent, in order.
   */
  lemma EveryScheduleDrains(c: Config, start: int, before: seq<Step>, steps: seq<Step>)
    requires !Continue(c, Start(start), before).state.shuttingDown
    requires forall step :: step in steps ==> step.Wake? || step.Settle? || step.Wait?
    ensures var w := Continue(c, Start(start), before);
            var v := Continue(c, w, steps);
            && WaitsEnded(c, w, steps) + Pending(v.state) <= Pending(w.state)
            && (Pending(v.state) == 0 <==> v.state.worker.Idle?)
            && (v.state.worker.Idle? ==> Jobs(v.sends) == w.accepted)
  {
    var w := Continue(c, Start(start), before);
    StartInvariant(c, start);
    ContinueKeepsInvariant(c, Start(start), before);
    ContinueKeepsInvariant(c, w, steps);
    WaitsLowerPending(c, w, steps);
    DrainedIffIdle(c, Continue(c, w, steps));
  }

  lemma DrainedIffIdle(c: Config, v: World)
    requires Invariant(c, v) && !v.state.shuttingDown
    ensures Pending(v.state) == 0 <==> v.state.worker.Idle?
    ensures v.state.worker.Idle? ==> Jobs(v.sends) == v.accepted
  {
    if v.state.worker.Idle? {
      IdleHasSent(c, v);
    }
  }

  // ---------- What an enqueue does ----------

  /** The worker has taken the job, and sends it at once only if the delay since the last send is over. */
  predicate Takes(c: Config, lastSentAt: Option<int>, worker: Worker, job: Job, now: int, jitter: nat) {
    if lastSentAt.None? || now >= lastSentAt.value + c.minDelay + jitter then worker == Sending(job)
    else worker == Sleeping(job, lastSentAt.value + c.minDelay + jitter)
  }

  /** Refused without a connection, refused when full, and otherwise last in line for the worker. */
  lemma EnqueueAnswers(c: Config, s: State, job: Job, connected: bool, now: int, jitter: nat)
    ensures var (out, r) := EnqueueTurn(c, s, job, connected, now, jitter);
            && (r == NotConnected <==> !connected)
            && (r == QueueFull <==> connected && |s.queue| >= c.maxSize)
            && (!r.Accepted? ==> out == s)
            && (r.Accepted? && s.isProcessing ==> out == s.(queue := s.queue + [job]))
            && (r.Accepted? && !s.isProcessing && !s.shuttingDown ==>
                  && out.queue == (s.queue + [job])[1..] && out.isProcessing && out.lastSentAt == s.lastSentAt
                  && Takes(c, s.lastSentAt, out.worker, (s.queue + [job])[0], now, jitter))
  {
  }

  /** And after a send that settles, the worker takes the next job in line. */
  lemma SettleTakesNext(c: Config, s: State, now: int, jitter: nat)
    requires s.worker.Sending? && !s.shuttingDown && s.queue != []
    ensures var out := SettleTurn(c, s, now, jitter);
            && out.queue == s.queue[1..] && out.lastSentAt == Some(now)
            && Takes(c, Some(now), out.worker, s.queue[0], now, jitter)
  {
  }

  /** A sleeping worker waits for no longer than the maximum delay after the last send. */
  ghost predicate SleepBounded(c: Config, s: State) {
    s.worker.Sleeping? ==> s.lastSentAt.Some? && s.lastSentAt.value + c.minDelay <= s.worker.until <= s.lastSentAt.value + c.maxDelay
  }

  lemma StepKeepsSleepBounded(c: Config, w: World, step: Step)
    requires ValidConfig(c) && SleepBounded(c, w.state)
    ensures SleepBounded(c, Apply(c, w, step).state)
  {
  }

  lemma {:induction false} SleepsWithinDelays(c: Config, start: int, steps: seq<Step>)
    requires ValidConfig(c)
    ensures SleepBounded(c, Continue(c, Start(start), steps).state)
  {
    if steps != [] {
      SleepsWithinDelays(c, start, steps[..|steps| - 1]);
      StepKeepsSleepBounded(c, Continue(c, Start(start), steps[..|steps| - 1]), steps[|steps| - 1]);
    }
  }

  // ---------- The reported position ----------

  /**
   * The position reported for an accepted job counts the jobs still in the queue, itself
   * included: 0 exactly when the idle worker has taken it at once, which is not the 1 for
   * "next to be sent" that the response's field comment announces.
   */
  lemma ReportedPosition(c: Config, w: World, job: Job, jitter: nat)
    requires Invariant(c, w) && !w.state.shuttingDown && |w.state.queue| < c.maxSize
    ensures EnqueueTurn(c, w.state, job, true, w.now, jitter).1
         == Accepted(if w.state.worker.Idle? then 0 else |w.state.queue| + 1)
  {
  }
}
