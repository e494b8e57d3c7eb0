/** Completing a background refresh task: the work, its expiration and the
    notification callbacks race, and one latch decides who completes. */
module BackgroundTask {

  /** Thread-safe latch: true for the first caller only. */
  class OnceFlag {
    var fired: bool

    constructor ()
      ensures !fired
    {
      fired := false;
    }

    method TryFire() returns (first: bool)
      modifies this
      ensures first <==> !old(fired)
      ensures fired
    {
      if fired {
        return false;
      }
      fired := true;
      return true;
    }
  }

  /** Where the work item stands. It latches after its checks, records, and then
      completes, directly or after the two notification-centre callbacks. Dropped:
      cancelled before it started, so never executed. An orphan starts after the
      service is gone: it only latches and reports failure. */
  datatype Work =
    | Queued | Checking | Latching(findings: nat) | Recording(findings: nat) | Completing(findings: nat)
    | AskingPermission | Posting | OrphanLatching | OrphanCompleting | Finished | Dropped

  /** Where the expiration handler stands: it cancels the work item, latches,
      records if the service exists, and completes. */
  datatype Expiry = Idle | Cancelled | Latched | Recorded | Done

  datatype Record = Record(findings: nat, success: bool)

  /** alive: the service object still exists. */
  datatype State = State(work: Work, expiry: Expiry, fired: bool, alive: bool, completions: seq<bool>,
                         records: seq<Record>)

  const INIT := State(Queued, Idle, false, true, [], [])

  datatype Step =
    | Start
    | ChecksDone(findings: nat)
    | WorkLatches
    | WorkRecords
    | WorkCompletes
    | Permission(granted: bool)
    | Posted
    | ExpiryCancels
    | ExpiryLatches
    | ExpiryRecords
    | ExpiryCompletes
      /** The service is deallocated; a started work item holds it while it runs. */
    | ServiceGone

  function Complete(s: State, success: bool): State {
    s.(completions := s.completions + [success])
  }

  /** The body of the work item runs and keeps the service alive. */
  predicate HoldsService(work: Work) {
    work.Checking? || work.Latching? || work.Recording? || work.Completing?
  }

  /** One atomic action of the work item, of its callbacks, or of the handler. */
  function Next(s: State, step: Step): State {
    match step
    case Start =>
      if !s.work.Queued? then s
      else if s.expiry != Idle then s.(work := Dropped)
      else s.(work := if s.alive then Checking else OrphanLatching)
    case ChecksDone(findings) => if s.work.Checking? then s.(work := Latching(findings)) else s
    case WorkLatches =>
      if s.work.Latching? && !s.fired then s.(work := Recording(s.work.findings), fired := true)
      else if s.work.OrphanLatching? && !s.fired then s.(work := OrphanCompleting, fired := true)
      else if s.work.Latching? || s.work.OrphanLatching? then s.(work := Finished)
      else s
    case WorkRecords =>
      if !s.work.Recording? then s
      else s.(work := Completing(s.work.findings), records := s.records + [Record(s.work.findings, true)])
    case WorkCompletes =>
      if s.work.Completing? && s.work.findings == 0 then Complete(s, true).(work := Finished)
      else if s.work.Completing? then s.(work := AskingPermission)
      else if s.work.OrphanCompleting? then Complete(s, false).(work := Finished)
      else s
    case Permission(granted) =>
      if !s.work.AskingPermission? then s
      else if granted then s.(work := Posting)
      else Complete(s, true).(work := Finished)
    case Posted => if s.work.Posting? then Complete(s, true).(work := Finished) else s
    case ExpiryCancels => if s.expiry == Idle then s.(expiry := Cancelled) else s
    case ExpiryLatches =>
      if s.expiry != Cancelled then s
      else if s.fired then s.(expiry := Done)
      else s.(expiry := Latched, fired := true)
    case ExpiryRecords =>
      if s.expiry != Latched then s
      else s.(expiry := Recorded, records := if s.alive then s.records + [Record(0, false)] else s.records)
    case ExpiryCompletes => if s.expiry == Recorded then Complete(s, false).(expiry := Done) else s
    case ServiceGone => if HoldsService(s.work) then s else s.(alive := false)
  }

  function Exec(steps: seq<Step>): State {
    if steps == [] then INIT else Next(Exec(steps[..|steps| - 1]), steps[|steps| - 1])
  }

  // ---------------------------------------------------------------------------
  // One completion
  // ---------------------------------------------------------------------------

  /** The work item has fired the latch and still owes the completion. */
  predicate WorkOwes(s: State) {
    s.work.Recording? || s.work.Completing? || s.work.AskingPermission? || s.work.Posting? || s.work.OrphanCompleting?
  }

  predicate ExpiryOwes(s: State) {
    s.expiry == Latched || s.expiry == Recorded
  }

  /** The latch has been fired exactly if one completion is made or owed, by one
      side only. */
  predicate OneOwner(s: State) {
    |s.completions| + (if WorkOwes(s) then 1 else 0) + (if ExpiryOwes(s) then 1 else 0) == if s.fired then 1 else 0
  }

  /** What has been recorded so far, given who owns the latch. */
  predicate RecordsMatch(s: State) {
    && |s.records| <= 1
    && (!s.fired || s.work.Recording? || s.work.OrphanCompleting? || s.expiry == Latched ==> s.records == [])
    && (s.work.Completing? || s.work.AskingPermission? || s.work.Posting? ==> |s.records| == 1 && s.records[0].success)
    && (s.expiry == Recorded ==> (s.alive ==> |s.records| == 1) && (|s.records| == 1 ==> !s.records[0].success))
    && (|s.completions| == 1 ==>
          (s.alive ==> |s.records| == 1) && s.completions[0] == (|s.records| == 1 && s.records[0].success))
  }

  predicate Valid(s: State) {
    && OneOwner(s) && RecordsMatch(s)
    && (HoldsService(s.work) ==> s.alive)
    && (s.work.OrphanLatching? || s.work.OrphanCompleting? ==> !s.alive)
    && (s.work.Dropped? ==> s.expiry != Idle)
    && (s.work.Finished? || s.expiry == Done ==> s.fired)
  }

  lemma StepKeepsValid(s: State, step: Step)
    requires Valid(s)
    ensures Valid(Next(s, step))
  {}

  lemma {:induction false} RunsValid(steps: seq<Step>)
    ensures Valid(Exec(steps))
  {
    if steps != [] {
      RunsValid(steps[..|steps| - 1]);
      StepKeepsValid(Exec(steps[..|steps| - 1]), steps[|steps| - 1]);
    }
  }

  /** Neither side has anything left to do. */
  predicate Quiescent(s: State) {
    (s.work.Finished? || s.work.Dropped?) && (s.expiry == Idle || s.expiry == Done)
  }

  /** In every interleaving of the single actions the task is completed at most once
      and the run recorded at most once; when both sides are done, exactly one
      completion has been made, and exactly one record if the service still
      exists, and they agree. */
  lemma ExactlyOnce(steps: seq<Step>)
    ensures var s := Exec(steps);
            && |s.completions| <= 1 && |s.records| <= 1
            && (Quiescent(s) ==> |s.completions| == 1)
            && (Quiescent(s) && s.alive ==> |s.records| == 1 && s.completions == [s.records[0].success])
  {
    RunsValid(steps);
  }

  // ---------------------------------------------------------------------------
  // Honest success
  // ---------------------------------------------------------------------------

  /** The finished checks reach the latch before the expiration handler does, even
      if that has already cancelled the work item. */
  predicate WorkWinsAt(steps: seq<Step>, k: nat)
    requires k < |steps|
  {
    var s := Exec(steps[..k]);
    steps[k].WorkLatches? && s.work.Latching? && (s.expiry == Idle || s.expiry == Cancelled)
  }

  predicate ChecksWin(steps: seq<Step>) {
    exists k :: 0 <= k < |steps| && WorkWinsAt(steps, k)
  }

  /** A success is in the record, or about to be written. */
  predicate SuccessDue(s: State) {
    s.work.Recording? || exists r :: r in s.records && r.success
  }

  /** Until the work item latches, only the expiration can have fired. */
  predicate FiredBy(s: State) {
    s.work.Queued? || s.work.Checking? || s.work.Latching? ==> (s.fired <==> ExpiryOwes(s) || s.expiry == Done)
  }

  lemma StepKeepsFiredBy(s: State, step: Step)
    requires FiredBy(s)
    ensures FiredBy(Next(s, step))
  {}

  lemma {:induction false} OnlyExpiryFires(steps: seq<Step>)
    ensures FiredBy(Exec(steps))
  {
    if steps != [] {
      OnlyExpiryFires(steps[..|steps| - 1]);
      StepKeepsFiredBy(Exec(steps[..|steps| - 1]), steps[|steps| - 1]);
    }
  }

  lemma StepSuccess(s: State, step: Step)
    requires Valid(s) && FiredBy(s)
    ensures SuccessDue(Next(s, step))
       <==> SuccessDue(s) || (step.WorkLatches? && s.work.Latching? && (s.expiry == Idle || s.expiry == Cancelled))
  {
    if s.work.Recording? && step.WorkRecords? {
      assert Record(s.work.findings, true) in Next(s, step).records;
    }
    assert forall r :: r in s.records ==> r in Next(s, step).records;
  }

  lemma ChecksWinSnoc(steps: seq<Step>)
    requires steps != []
    ensures ChecksWin(steps) <==> ChecksWin(steps[..|steps| - 1]) || WorkWinsAt(steps, |steps| - 1)
  {
    var before := steps[..|steps| - 1];
    forall k | 0 <= k < |before|
      ensures WorkWinsAt(before, k) <==> WorkWinsAt(steps, k)
    {
      assert before[..k] == steps[..k];
    }
  }

  /** A run is recorded as successful exactly when the finished checks came first. */
  lemma {:induction false} SuccessIsHonest(steps: seq<Step>)
    ensures SuccessDue(Exec(steps)) <==> ChecksWin(steps)
  {
    if steps != [] {
      var before := steps[..|steps| - 1];
      SuccessIsHonest(before);
      RunsValid(before);
      OnlyExpiryFires(before);
      StepSuccess(Exec(before), steps[|steps| - 1]);
      ChecksWinSnoc(steps);
    }
  }

  lemma ExecSnoc(steps: seq<Step>, step: Step)
    ensures Exec(steps + [step]) == Next(Exec(steps), step)
  {
    assert (steps + [step])[..|steps|] == steps;
  }

  lemma ExecFour(steps: seq<Step>, a: Step, b: Step, c: Step, d: Step)
    ensures Exec(steps + [a] + [b] + [c]) == Next(Next(Next(Exec(steps), a), b), c)
    ensures Exec(steps + [a] + [b] + [c] + [d]) == Next(Next(Next(Next(Exec(steps), a), b), c), d)
  {
    ExecSnoc(steps, a);
    ExecSnoc(steps + [a], b);
    ExecSnoc(steps + [a] + [b], c);
    ExecSnoc(steps + [a] + [b] + [c], d);
  }

  /** The handler cancels the work item, which latches first all the same. */
  function Race(): seq<Step> {
    [] + [Start] + [ChecksDone(0)] + [ExpiryCancels] + [WorkLatches]
  }

  lemma RaceLatched()
    ensures Exec(Race()) == State(Recording(0), Cancelled, true, true, [], [])
  {
    ExecFour([], Start, ChecksDone(0), ExpiryCancels, WorkLatches);
  }

  /** The race in one run from the start: the task ends in success. */
  lemma CancelledYetSuccessful()
    ensures var s := Exec(Race() + [ExpiryLatches] + [WorkRecords] + [WorkCompletes]);
            Quiescent(s) && s.expiry == Done && s.completions == [true] && s.records == [Record(0, true)]
  {
    RaceLatched();
    ExecFour(Race(), ExpiryLatches, WorkRecords, WorkCompletes, Start);
  }

  // ---------------------------------------------------------------------------
  // Every way through
  // ---------------------------------------------------------------------------

  /** A work item starts unless it was cancelled; without the service it is an orphan. */
  lemma WorkStarts(s: State)
    requires s.work.Queued?
    ensures var started := Next(s, Start);
            && started == s.(work := started.work)
            && started.work == if s.expiry != Idle then Dropped else if s.alive then Checking else OrphanLatching
  {}

  /** Checks that reach the latch first are recorded with their findings; the task is
      completed at once without findings, and otherwise when permission is refused or
      the notification has been posted, not before. */
  lemma WorkGoesThrough(s: State, findings: nat)
    requires Valid(s) && s.work.Checking? && !s.fired
    ensures var latched := Next(Next(s, ChecksDone(findings)), WorkLatches);
            var recorded := Next(latched, WorkRecords);
            var over := Next(recorded, WorkCompletes);
            && latched.fired && latched.records == [] && latched.completions == []
            && recorded.records == [Record(findings, true)] && recorded.completions == []
            && (findings == 0 ==> over.completions == [true] && over.work == Finished)
            && (findings > 0 ==>
                  var refused, granted := Next(over, Permission(false)), Next(over, Permission(true));
                  var posted := Next(granted, Posted);
                  && over.completions == [] && !over.work.Finished?
                  && refused.completions == [true] && refused.work == Finished
                  && granted.completions == [] && !granted.work.Finished?
                  && posted.completions == [true] && posted.work == Finished)
  {}

  /** Checks, and an orphan, that find the latch fired end without a trace. */
  lemma WorkTooLate(s: State, findings: nat)
    requires Valid(s) && s.fired
    ensures s.work.Checking? ==>
      Next(Next(s, ChecksDone(findings)), WorkLatches) == s.(work := Finished)
    ensures s.work.OrphanLatching? ==> Next(s, WorkLatches) == s.(work := Finished)
  {}

  /** An orphan that reaches the latch first reports failure and records nothing. */
  lemma OrphanFails(s: State)
    requires Valid(s) && s.work.OrphanLatching? && !s.fired
    ensures var latched := Next(s, WorkLatches);
            var over := Next(latched, WorkCompletes);
            latched.fired && latched.completions == [] && over.completions == [false] && over.records == []
            && over.work == Finished
  {}

  /** An expiration that reaches the latch first is recorded as a failed run while the
      service exists, and completes the task as failed. */
  lemma ExpiryGoesThrough(s: State)
    requires Valid(s) && s.expiry == Idle && !s.fired
    ensures var latched := Next(Next(s, ExpiryCancels), ExpiryLatches);
            var recorded := Next(latched, ExpiryRecords);
            var over := Next(recorded, ExpiryCompletes);
            && latched.fired && latched.records == [] && latched.completions == []
            && recorded.records == (if s.alive then [Record(0, false)] else []) && recorded.completions == []
            && over.completions == [false] && over.records == recorded.records && over.expiry == Done
            && over.work == s.work
  {}

  /** One that finds the latch fired only cancels the work item. */
  lemma ExpiryTooLate(s: State)
    requires Valid(s) && s.expiry == Idle && s.fired
    ensures Next(Next(s, ExpiryCancels), ExpiryLatches) == s.(expiry := Done)
  {}

  /** The service lives on while a started work item holds it, and only then. */
  lemma ServiceLifetime(s: State)
    ensures Next(s, ServiceGone) == s.(alive := Next(s, ServiceGone).alive)
    ensures Next(s, ServiceGone).alive
       <==> s.alive && (s.work.Checking? || s.work.Latching? || s.work.Recording? || s.work.Completing?)
  {}

  /** How many actions are left to the two sides at most. */
  function ActionsLeft(s: State): nat {
    (match s.work
     case Queued => 7
     case Checking => 6
     case Latching(_) => 5
     case OrphanLatching => 5
     case Recording(_) => 4
     case Completing(_) => 3
     case OrphanCompleting => 3
     case AskingPermission => 2
     case Posting => 1
     case Finished => 0
     case Dropped => 0)
    + (match s.expiry
       case Idle => 0
       case Cancelled => 3
       case Latched => 2
       case Recorded => 1
       case Done => 0)
  }

  /** No state is a dead end: what is under way can always be brought to its end. */
  lemma {:induction false} CanFinish(steps: seq<Step>) returns (more: seq<Step>)
    ensures Quiescent(Exec(steps + more))
    decreases ActionsLeft(Exec(steps))
  {
    var s := Exec(steps);
    if Quiescent(s) {
      more := [];
      assert steps + more == steps;
    } else {
      var step := NextAction(s);
      ExecSnoc(steps, step);
      var rest := CanFinish(steps + [step]);
      more := [step] + rest;
      assert steps + more == steps + [step] + rest;
    }
  }

  lemma NextAction(s: State) returns (step: Step)
    requires !Quiescent(s)
    ensures ActionsLeft(Next(s, step)) < ActionsLeft(s)
  {
    match s.expiry
    case Cancelled => step := ExpiryLatches;
    case Latched => step := ExpiryRecords;
    case Recorded => step := ExpiryCompletes;
    case _ =>
      match s.work
      case Queued => step := Start;
      case Checking => step := ChecksDone(0);
      case Recording(_) => step := WorkRecords;
      case Completing(_) => step := WorkCompletes;
      case OrphanCompleting => step := WorkCompletes;
      case AskingPermission => step := Permission(true);
      case Posting => step := Posted;
      case _ => step := WorkLatches;
  }
}
