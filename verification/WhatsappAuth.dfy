/**
 * The WhatsApp credential store: an in-memory snapshot written behind, debounced, to remote
 * storage. Storage operations take effect in the order they are issued, and uploads succeed.
 */
module WhatsappAuth {
  import opened Options

  /**
   * `uploads` tells, upload by upload, which have settled; `waiting` lists the flushes
   * suspended on an upload, and `loads` what each load in flight has read.
   */
  datatype State = State(
    cached: Option<string>,
    hydrated: bool,
    pending: Option<string>,
    timerArmed: bool,
    flushInFlight: Option<nat>,
    store: Option<string>,
    uploads: seq<bool>,
    waiting: seq<nat>,
    loads: seq<Option<string>>)

  /** A fresh process beside a store. */
  function Fresh(store: Option<string>): State {
    State(None, false, None, false, None, store, [], [], [])
  }

  // ---------- Specification of one turn ----------

  function SaveTurn(s: State, serialized: string): State {
    s.(cached := Some(serialized), hydrated := true, pending := Some(serialized), timerArmed := true)
  }

  /** The rest of a flush once no upload is waited for; other uploads may have started since. */
  function Proceed(s: State): State {
    if s.pending.None? then s
    else s.(pending := None, store := s.pending, uploads := s.uploads + [false], flushInFlight := Some(|s.uploads|))
  }

  function FlushTurn(s: State): State {
    var cleared := s.(timerArmed := false);
    if s.flushInFlight.Some? then cleared.(waiting := s.waiting + [s.flushInFlight.value]) else Proceed(cleared)
  }

  function ResumeTurn(s: State, i: nat): State
    requires i < |s.waiting|
  {
    Proceed(s.(waiting := s.waiting[..i] + s.waiting[i + 1..]))
  }

  /** Whichever upload settles, the in-flight marker goes. */
  function SettleTurn(s: State, upload: nat): State
    requires upload < |s.uploads|
  {
    s.(uploads := s.uploads[upload := true], flushInFlight := None)
  }

  function ClearTurn(s: State): State {
    s.(cached := None, hydrated := true, pending := None, timerArmed := false, store := None)
  }

  function BeginLoadTurn(s: State): State {
    if s.hydrated then s else s.(loads := s.loads + [s.store])
  }

  function EndLoadTurn(s: State, i: nat): State
    requires i < |s.loads|
  {
    s.(cached := s.loads[i], hydrated := true, loads := s.loads[..i] + s.loads[i + 1..])
  }

  function Exists(s: State): bool {
    if s.hydrated then s.cached.Some? else s.store.Some?
  }

  // ---------- The service ----------

  class WhatsappAuthService {
    var cached: Option<string>
    var hydrated: bool
    var pending: Option<string>
    var flushTimer: bool
    var flushInFlight: Option<nat>
    var store: Option<string>
    var uploads: seq<bool>
    var waiting: seq<nat>
    var loads: seq<Option<string>>

    constructor (store: Option<string>)
      ensures Current() == Fresh(store)
    {
      cached, hydrated, pending, flushTimer, flushInFlight := None, false, None, false, None;
      this.store, uploads, waiting, loads := store, [], [], [];
    }

    function Current(): State
      reads this
    {
      State(cached, hydrated, pending, flushTimer, flushInFlight, store, uploads, waiting, loads)
    }

    /** The blob when it is in memory already; otherwise the read is issued and the load waits. */
    method BeginLoad() returns (ready: Option<Option<string>>)
      modifies this
      ensures Current() == BeginLoadTurn(old(Current()))
      ensures ready == if old(hydrated) then Some(old(cached)) else None
    {
      if hydrated {
        return Some(cached);
      }
      loads := loads + [store];
      return None;
    }

    method EndLoad(i: nat) returns (blob: Option<string>)
      requires i < |loads|
      modifies this
      ensures Current() == EndLoadTurn(old(Current()), i)
      ensures blob == cached
    {
      cached := loads[i];
      hydrated := true;
      loads := loads[..i] + loads[i + 1..];
      return cached;
    }

    method Save(serialized: string)
      modifies this
      ensures Current() == SaveTurn(old(Current()), serialized)
    {
      cached := Some(serialized);
      hydrated := true;
      pending := Some(serialized);
      if flushTimer {
        return;
      }
      flushTimer := true;
    }

    method TimerFired()
      requires flushTimer
      modifies this
      ensures Current() == FlushTurn(old(Current()))
    {
      flushTimer := false;
      Flush();
    }

    method Flush()
      modifies this
      ensures Current() == FlushTurn(old(Current()))
    {
      if flushTimer {
        flushTimer := false;
      }
      if flushInFlight.Some? {
        waiting := waiting + [flushInFlight.value];
        return;
      }
      Upload();
    }

    method Upload()
      modifies this
      ensures Current() == Proceed(old(Current()))
    {
      var payload := pending;
      if payload.None? {
        return;
      }
      pending := None;
      store := payload;
      flushInFlight := Some(|uploads|);
      uploads := uploads + [false];
    }

    method Resume(i: nat)
      requires i < |waiting| && waiting[i] < |uploads| && uploads[waiting[i]]
      modifies this
      ensures Current() == ResumeTurn(old(Current()), i)
    {
      waiting := waiting[..i] + waiting[i + 1..];
      Upload();
    }

    method UploadSettled(upload: nat)
      requires upload < |uploads|
      modifies this
      ensures Current() == SettleTurn(old(Current()), upload)
    {
      uploads := uploads[upload := true];
      flushInFlight := None;
    }

    method Clear()
      modifies this
      ensures Current() == ClearTurn(old(Current()))
    {
      if flushTimer {
        flushTimer := false;
      }
      pending := None;
      cached := None;
      hydrated := true;
      store := None;
    }

    method SessionExists() returns (r: bool)
      ensures r == Exists(Current())
    {
      if hydrated {
        return cached.Some?;
      }
      return store.Some?;
    }

    method OnModuleDestroy()
      modifies this
      ensures Current() == FlushTurn(old(Current()))
    {
      Flush();
    }
  }

  // ---------- Runs ----------

  datatype Step =
    | Save(serialized: string)
    | Clear
    | Timer
    | Flush
    | Resume(waiter: nat)
    | Settle(upload: nat)
    | BeginLoad
    | EndLoad(load: nat)

  predicate Enabled(s: State, step: Step) {
    match step
    case Timer => s.timerArmed
    case Resume(i) => i < |s.waiting| && s.waiting[i] < |s.uploads| && s.uploads[s.waiting[i]]
    case Settle(upload) => upload < |s.uploads| && !s.uploads[upload]
    case EndLoad(i) => i < |s.loads|
    case _ => true
  }

  function Turn(s: State, step: Step): State
    requires Enabled(s, step)
  {
    match step
    case Save(serialized) => SaveTurn(s, serialized)
    case Clear => ClearTurn(s)
    case Timer => FlushTurn(s)
    case Flush => FlushTurn(s)
    case Resume(i) => ResumeTurn(s, i)
    case Settle(upload) => SettleTurn(s, upload)
    case BeginLoad => BeginLoadTurn(s)
    case EndLoad(i) => EndLoadTurn(s, i)
  }

  function Apply(s: State, step: Step): State {
    if Enabled(s, step) then Turn(s, step) else s
  }

  function Continue(s: State, steps: seq<Step>): State {
    if steps == [] then s else Apply(Continue(s, steps[..|steps| - 1]), steps[|steps| - 1])
  }

  /** The value of the last save or clear; None when there was none. */
  function LastWrite(steps: seq<Step>): Option<Option<string>> {
    if steps == [] then None
    else
      match steps[|steps| - 1]
      case Save(serialized) => Some(Some(serialized))
      case Clear => Some(None)
      case _ => LastWrite(steps[..|steps| - 1])
  }

  function Saves(steps: seq<Step>): nat {
    if steps == [] then 0 else Saves(steps[..|steps| - 1]) + if steps[|steps| - 1].Save? then 1 else 0
  }

  /** A load that ends does not overwrite a newer value. */
  predicate Timely(s: State, step: Step) {
    step.EndLoad? && Enabled(s, step) && s.hydrated ==> s.loads[step.load] == s.cached
  }

  ghost predicate AllTimely(s: State, steps: seq<Step>) {
    forall n :: 0 <= n < |steps| ==> Timely(Continue(s, steps[..n]), steps[n])
  }

  // ---------- Invariant ----------

  /** An armed timer or a suspended flush will still write what is pending. */
  predicate Covered(s: State) {
    s.timerArmed || s.waiting != []
  }

  ghost predicate Coherent(s: State) {
    && (s.pending.Some? ==> s.hydrated && s.pending == s.cached && Covered(s))
    && (s.hydrated && s.pending.None? ==> s.store == s.cached)
  }

  /** Before hydration nothing has been written, so every read is current. */
  ghost predicate LoadsSound(s: State) {
    !s.hydrated ==> forall i :: 0 <= i < |s.loads| ==> s.loads[i] == s.store
  }

  ghost predicate UploadsSound(s: State) {
    && (s.flushInFlight.Some? ==> s.flushInFlight.value < |s.uploads|)
    && (forall i :: 0 <= i < |s.waiting| ==> s.waiting[i] < |s.uploads|)
  }

  ghost predicate Invariant(s: State) {
    Coherent(s) && LoadsSound(s) && UploadsSound(s)
  }

  lemma ProceedKeepsInvariant(s: State)
    requires LoadsSound(s) && UploadsSound(s)
    requires s.pending.Some? ==> s.hydrated && s.pending == s.cached
    requires s.hydrated && s.pending.None? ==> s.store == s.cached
    ensures Invariant(Proceed(s)) && Proceed(s).pending.None?
  {
  }

  /** Exactly the loads that overwrite a newer value break the invariant. */
  lemma EndLoadKeepsInvariantIff(s: State, i: nat)
    requires Invariant(s) && i < |s.loads|
    ensures Invariant(EndLoadTurn(s, i)) <==> Timely(s, EndLoad(i))
  {
  }

  lemma StepKeepsInvariant(s: State, step: Step)
    requires Invariant(s) && Timely(s, step)
    ensures Invariant(Apply(s, step))
  {
    if Enabled(s, step) {
      match step {
        case Resume(i) => ProceedKeepsInvariant(s.(waiting := s.waiting[..i] + s.waiting[i + 1..]));
        case EndLoad(i) => EndLoadKeepsInvariantIff(s, i);
        case Timer => FlushKeepsInvariant(s);
        case Flush => FlushKeepsInvariant(s);
        case _ =>
      }
    }
  }

  lemma FlushKeepsInvariant(s: State)
    requires Invariant(s)
    ensures Invariant(FlushTurn(s))
  {
    if s.flushInFlight.None? {
      ProceedKeepsInvariant(s.(timerArmed := false));
    }
  }

  lemma {:induction false} ContinueKeepsInvariant(s: State, steps: seq<Step>)
    requires Invariant(s) && AllTimely(s, steps)
    ensures Invariant(Continue(s, steps))
  {
    if steps != [] {
      var n := |steps| - 1;
      AllTimelyPrefix(s, steps);
      ContinueKeepsInvariant(s, steps[..n]);
      StepKeepsInvariant(Continue(s, steps[..n]), steps[n]);
    }
  }

  lemma AllTimelyPrefix(s: State, steps: seq<Step>)
    requires AllTimely(s, steps) && steps != []
    ensures AllTimely(s, steps[..|steps| - 1])
  {
    var front := steps[..|steps| - 1];
    forall n | 0 <= n < |front|
      ensures Timely(Continue(s, front[..n]), front[n])
    {
      assert front[..n] == steps[..n];
      assert Timely(Continue(s, steps[..n]), steps[n]);
    }
  }

  /**
   * However saves, timers, flushes, uploads and clears interleave: what is pending is the
   * snapshot and will still be written; when nothing is pending, the store is the snapshot.
   */
  lemma WriteBehind(store: Option<string>, steps: seq<Step>)
    requires AllTimely(Fresh(store), steps)
    ensures Coherent(Continue(Fresh(store), steps))
  {
    ContinueKeepsInvariant(Fresh(store), steps);
  }

  /** The discipline of the callers: nothing is saved or cleared while a load is in flight. */
  ghost predicate WritesApart(s: State, steps: seq<Step>) {
    forall n :: 0 <= n < |steps| && (steps[n].Save? || steps[n].Clear?) ==> Continue(s, steps[..n]).loads == []
  }

  /** While a load is in flight, nothing is pending and the store, what was read and the snapshot agree. */
  ghost predicate LoadsCurrent(s: State) {
    && (s.pending.Some? ==> s.hydrated)
    && (s.loads != [] ==> s.pending.None? && (s.hydrated ==> s.cached == s.store) && forall i :: 0 <= i < |s.loads| ==> s.loads[i] == s.store)
  }

  lemma StepKeepsCurrent(s: State, step: Step)
    requires LoadsCurrent(s) && (step.Save? || step.Clear? ==> s.loads == [])
    ensures LoadsCurrent(Apply(s, step)) && Timely(s, step)
  {
  }

  lemma {:induction false} ApartKeepsCurrent(s: State, steps: seq<Step>)
    requires LoadsCurrent(s) && WritesApart(s, steps)
    ensures LoadsCurrent(Continue(s, steps)) && AllTimely(s, steps)
  {
    if steps != [] {
      var n := |steps| - 1;
      forall m | 0 <= m < n
        ensures steps[..n][..m] == steps[..m]
      {
      }
      ApartKeepsCurrent(s, steps[..n]);
      StepKeepsCurrent(Continue(s, steps[..n]), steps[n]);
      forall m | 0 <= m < |steps|
        ensures Timely(Continue(s, steps[..m]), steps[m])
      {
        assert m < n ==> steps[..n][..m] == steps[..m] && steps[..n][m] == steps[m];
      }
    }
  }

  /** Under that discipline no load ever overwrites a newer value, so every guarantee below holds. */
  lemma ApartIsTimely(store: Option<string>, steps: seq<Step>)
    requires WritesApart(Fresh(store), steps)
    ensures AllTimely(Fresh(store), steps) && Coherent(Continue(Fresh(store), steps))
  {
    ApartKeepsCurrent(Fresh(store), steps);
    WriteBehind(store, steps);
  }

  /** The snapshot is what was last saved or cleared. */
  lemma {:induction false} SnapshotIsLastWrite(s: State, steps: seq<Step>)
    requires AllTimely(s, steps)
    ensures LastWrite(steps).Some? ==> Continue(s, steps).hydrated && Continue(s, steps).cached == LastWrite(steps).value
  {
    if steps != [] {
      var n := |steps| - 1;
      AllTimelyPrefix(s, steps);
      SnapshotIsLastWrite(s, steps[..n]);
      assert Timely(Continue(s, steps[..n]), steps[n]);
      StepKeepsSnapshot(Continue(s, steps[..n]), steps[n]);
    }
  }

  lemma StepKeepsSnapshot(s: State, step: Step)
    requires Timely(s, step)
    ensures s.hydrated ==> Apply(s, step).hydrated
    ensures s.hydrated && !step.Save? && !step.Clear? ==> Apply(s, step).cached == s.cached
    ensures step.Save? ==> Apply(s, step).hydrated && Apply(s, step).cached == Some(step.serialized)
    ensures step.Clear? ==> Apply(s, step).hydrated && Apply(s, step).cached == None
  {
  }

  /** Once no timer is armed and no flush suspended, the store holds the last write, and a new process loads it. */
  lemma QuiescentIsDurable(store: Option<string>, steps: seq<Step>)
    requires AllTimely(Fresh(store), steps) && LastWrite(steps).Some?
    requires !Covered(Continue(Fresh(store), steps))
    ensures var s := Continue(Fresh(store), steps);
            && s.store == LastWrite(steps).value
            && EndLoadTurn(BeginLoadTurn(Fresh(s.store)), 0).cached == LastWrite(steps).value
  {
    ContinueKeepsInvariant(Fresh(store), steps);
    SnapshotIsLastWrite(Fresh(store), steps);
  }

  lemma ContinueAll(s: State, a: seq<Step>, b: seq<Step>)
    ensures Continue(Continue(s, a), b) == Continue(s, a + b)
    decreases |b|
  {
    if b == [] {
      assert a + b == a;
    } else {
      ContinueAll(s, a, b[..|b| - 1]);
      assert (a + b)[..|a + b| - 1] == a + b[..|b| - 1];
    }
  }

  /** The steps that end one wait: the timer fires, or an upload settles and a flush resumes. */
  function Due(s: State): seq<Step> {
    if s.waiting == [] then [Timer]
    else if s.waiting[0] < |s.uploads| && s.uploads[s.waiting[0]] then [Resume(0)]
    else [Settle(s.waiting[0]), Resume(0)]
  }

  function Waits(s: State): nat {
    |s.waiting| + if s.timerArmed then 2 else 0
  }

  lemma DueAdvances(s: State)
    requires Invariant(s) && Covered(s)
    ensures var t := Continue(s, Due(s)); Invariant(t) && Waits(t) < Waits(s) && t.cached == s.cached && t.hydrated == s.hydrated
  {
    var due := Due(s);
    assert due[..1] == [due[0]] && due[..1][..0] == [];
    var t := Apply(s, due[0]);
    assert Continue(s, due[..1]) == t;
    StepKeepsInvariant(s, due[0]);
    if |due| == 2 {
      StepKeepsInvariant(t, due[1]);
    }
  }

  /** Nothing stays pending for ever: when the timer fires and uploads settle, the store becomes the snapshot. */
  lemma {:induction false} Quiesces(s: State) returns (steps: seq<Step>)
    requires Invariant(s)
    ensures forall step :: step in steps ==> step.Timer? || step.Settle? || step.Resume?
    ensures !Covered(Continue(s, steps)) && Continue(s, steps).cached == s.cached
    ensures s.hydrated ==> Continue(s, steps).store == s.cached
    decreases Waits(s)
  {
    if Covered(s) {
      DueAdvances(s);
      var rest := Quiesces(Continue(s, Due(s)));
      steps := Due(s) + rest;
      ContinueAll(s, Due(s), rest);
    } else {
      steps := [];
    }
  }

  /** A flush that is not held up leaves nothing pending and the snapshot in the store; so does one resumed. */
  lemma FlushPersists(s: State, i: nat)
    requires Invariant(s) && s.hydrated
    ensures s.flushInFlight.None? ==> FlushTurn(s).pending.None? && FlushTurn(s).store == s.cached
    ensures Enabled(s, Resume(i)) ==> ResumeTurn(s, i).pending.None? && ResumeTurn(s, i).store == s.cached
  {
    if s.flushInFlight.None? {
      ProceedKeepsInvariant(s.(timerArmed := false));
    }
    if Enabled(s, Resume(i)) {
      ProceedKeepsInvariant(s.(waiting := s.waiting[..i] + s.waiting[i + 1..]));
    }
  }

  /** Never more uploads than saves, whatever the number of timers and flushes. */
  lemma {:induction false} UploadsAtMostSaves(store: Option<string>, steps: seq<Step>)
    ensures var s := Continue(Fresh(store), steps);
            |s.uploads| + (if s.pending.Some? then 1 else 0) <= Saves(steps)
  {
    if steps != [] {
      UploadsAtMostSaves(store, steps[..|steps| - 1]);
      StepUploads(Continue(Fresh(store), steps[..|steps| - 1]), steps[|steps| - 1]);
    }
  }

  function Owed(s: State): nat {
    |s.uploads| + if s.pending.Some? then 1 else 0
  }

  lemma StepUploads(s: State, step: Step)
    ensures Owed(Apply(s, step)) <= Owed(s) + if step.Save? then 1 else 0
  {
  }

  /** Timers that fire. */
  function Firings(s: State, steps: seq<Step>): nat {
    if steps == [] then 0
    else
      var n := |steps| - 1;
      Firings(s, steps[..n]) + if steps[n].Timer? && Continue(s, steps[..n]).timerArmed then 1 else 0
  }

  /** Flushes asked for. */
  function Flushes(steps: seq<Step>): nat {
    if steps == [] then 0 else Flushes(steps[..|steps| - 1]) + if steps[|steps| - 1].Flush? then 1 else 0
  }

  /** Bursts of saves: those that find no timer armed. */
  function Bursts(s: State, steps: seq<Step>): nat {
    if steps == [] then 0
    else
      var n := |steps| - 1;
      Bursts(s, steps[..n]) + if steps[n].Save? && !Continue(s, steps[..n]).timerArmed then 1 else 0
  }

  /** Uploads made, and those that suspended flushes may still make. */
  function Granted(s: State): nat {
    |s.uploads| + |s.waiting|
  }

  function Armed(s: State): nat {
    if s.timerArmed then 1 else 0
  }

  lemma StepDebounces(s: State, step: Step)
    ensures Granted(Apply(s, step)) <= Granted(s) + if (step.Timer? && s.timerArmed) || step.Flush? then 1 else 0
    ensures Armed(Apply(s, step)) + (if step.Timer? && s.timerArmed then 1 else 0) <= Armed(s) + if step.Save? && !s.timerArmed then 1 else 0
  {
  }

  /**
   * The debounce: however many saves there are, no more uploads than timers that fire and
   * flushes asked for; and a timer fires at most once for each burst of saves.
   */
  lemma {:induction false} UploadsDebounced(store: Option<string>, steps: seq<Step>)
    ensures var s := Continue(Fresh(store), steps);
            && |s.uploads| + |s.waiting| <= Firings(Fresh(store), steps) + Flushes(steps)
            && Firings(Fresh(store), steps) + Armed(s) <= Bursts(Fresh(store), steps)
  {
    if steps != [] {
      var n := |steps| - 1;
      UploadsDebounced(store, steps[..n]);
      StepDebounces(Continue(Fresh(store), steps[..n]), steps[n]);
    }
  }

  /** `exists` tells whether the store holds a session whenever nothing is pending, hydrated or not. */
  lemma ExistsAgrees(store: Option<string>, steps: seq<Step>)
    requires AllTimely(Fresh(store), steps) && Continue(Fresh(store), steps).pending.None?
    ensures Exists(Continue(Fresh(store), steps)) <==> Continue(Fresh(store), steps).store.Some?
  {
    ContinueKeepsInvariant(Fresh(store), steps);
  }

  /** Whether anything is pending or not: after a save or clear, `exists` tells which of the two came last. */
  lemma ExistsIsLastWrite(store: Option<string>, steps: seq<Step>)
    requires AllTimely(Fresh(store), steps) && LastWrite(steps).Some?
    ensures Exists(Continue(Fresh(store), steps)) <==> LastWrite(steps).value.Some?
  {
    SnapshotIsLastWrite(Fresh(store), steps);
  }

  /** Nothing has been written: whatever is read or was loaded is what the store held at the start. */
  ghost predicate Untouched(s: State, store: Option<string>) {
    && s.store == store && s.pending.None? && (s.hydrated ==> s.cached == store)
    && forall i :: 0 <= i < |s.loads| ==> s.loads[i] == store
  }

  lemma {:induction false} StaysUntouched(store: Option<string>, steps: seq<Step>)
    requires LastWrite(steps).None?
    ensures Untouched(Continue(Fresh(store), steps), store)
  {
    if steps != [] {
      StaysUntouched(store, steps[..|steps| - 1]);
    }
  }

  /** What a load answers: the last save or clear, and before any the stored session; and so does `exists`. */
  lemma LoadAnswers(store: Option<string>, steps: seq<Step>)
    requires AllTimely(Fresh(store), steps)
    ensures var s := Continue(Fresh(store), steps);
            var current := if LastWrite(steps).Some? then LastWrite(steps).value else store;
            && (s.hydrated ==> s.cached == current)
            && (LastWrite(steps).None? ==> forall i :: 0 <= i < |s.loads| ==> EndLoadTurn(s, i).cached == store)
            && (Exists(s) <==> current.Some?)
  {
    if LastWrite(steps).Some? {
      SnapshotIsLastWrite(Fresh(store), steps);
    } else {
      StaysUntouched(store, steps);
    }
  }

  /** A save that a load in flight overwrites: the run on which the invariant fails. */
  lemma LateLoadOverwrites(earlier: string, later: string)
    requires earlier != later
    ensures !Coherent(Continue(Fresh(Some(earlier)), [BeginLoad, Save(later), EndLoad(0)]))
  {
    var steps := [BeginLoad, Save(later), EndLoad(0)];
    var s := Fresh(Some(earlier));
    assert steps[..2][..1][..0] == [] && steps[..2][..1] == [BeginLoad] && steps[..2] == [BeginLoad, Save(later)];
    assert Continue(s, steps[..2][..1]) == BeginLoadTurn(s);
    assert Continue(s, steps[..2]) == SaveTurn(BeginLoadTurn(s), later);
  }
}
