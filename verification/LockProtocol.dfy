/** The aggregator's distributed lock: a key with a time to live, taken with
    set-if-absent, extended by refreshers, and deleted without any owner check,
    under arbitrary interleavings of any number of workers, with calls that fail
    and may still be executed later. Durations count nanoseconds. */
module LockProtocol {
  import opened Text

  const SECOND: nat := 1_000_000_000
  const LOCK_TTL: nat := 300 * SECOND

  type Worker = nat

  datatype Key = Absent | Present(expiry: nat)

  /** A command whose call has failed; it may reach the store at any later time. */
  datatype Command = SetIfAbsent | Delete

  /** held maps every worker between its acquire and its release to the time at
      which its last acquire or refresh landed. */
  datatype State = State(now: nat, key: Key, held: map<Worker, nat>, late: multiset<Command>)

  datatype Step =
    | Tick(elapsed: nat)
    | Acquire(w: Worker)
    | AcquireFails(w: Worker)
      /** An Expire call lands: w may be running, or have released long ago. */
    | Refresh(w: Worker)
    | Release(w: Worker)
      /** The call fails, for instance because the context is done. */
    | ReleaseFails(w: Worker)
    | Lands(command: Command)

  const INIT := State(0, Absent, map[], multiset{})

  predicate Live(s: State) {
    s.key.Present? && s.now < s.key.expiry
  }

  function Without(held: map<Worker, nat>, w: Worker): map<Worker, nat> {
    map v | v in held && v != w :: held[v]
  }

  function Land(s: State, command: Command): State {
    match command
    case SetIfAbsent => if Live(s) then s else s.(key := Present(s.now + LOCK_TTL))
    case Delete => s.(key := Absent)
  }

  function Next(s: State, step: Step): State {
    match step
    case Tick(elapsed) => s.(now := s.now + elapsed)
    case Acquire(w) =>
      if w in s.held || Live(s) then s
      else s.(key := Present(s.now + LOCK_TTL), held := s.held[w := s.now])
    case AcquireFails(w) => if w in s.held then s else s.(late := s.late + multiset{SetIfAbsent})
    case Refresh(w) =>
      if !Live(s) then s
      else s.(key := Present(s.now + LOCK_TTL), held := if w in s.held then s.held[w := s.now] else s.held)
    case Release(w) => if w in s.held then s.(key := Absent, held := Without(s.held, w)) else s
    case ReleaseFails(w) => if w in s.held then s.(held := Without(s.held, w), late := s.late + multiset{Delete}) else s
    case Lands(command) => if command in s.late then Land(s, command).(late := s.late - multiset{command}) else s
  }

  function ExecFrom(s: State, steps: seq<Step>): State {
    if steps == [] then s else Next(ExecFrom(s, steps[..|steps| - 1]), steps[|steps| - 1])
  }

  function Exec(steps: seq<Step>): State {
    ExecFrom(INIT, steps)
  }

  lemma {:induction false} ExecAppend(s: State, first: seq<Step>, second: seq<Step>)
    ensures ExecFrom(s, first + second) == ExecFrom(ExecFrom(s, first), second)
  {
    if second == [] {
      assert first + second == first;
    } else {
      ExecAppend(s, first, second[..|second| - 1]);
      assert (first + second)[..|first + second| - 1] == first + second[..|second| - 1];
    }
  }

  lemma ExecSnoc(s: State, steps: seq<Step>, step: Step)
    ensures ExecFrom(s, steps + [step]) == Next(ExecFrom(s, steps), step)
  {
    assert (steps + [step])[..|steps|] == steps;
  }

  // ---------------------------------------------------------------------------
  // Mutual exclusion
  // ---------------------------------------------------------------------------

  predicate Exclusive(s: State) {
    forall v, w :: v in s.held && w in s.held ==> v == w
  }

  /** While anybody is inside, the key is live. */
  predicate Guarded(s: State) {
    s.held != map[] ==> Live(s)
  }

  lemma StepKeepsExclusive(s: State, step: Step)
    requires Exclusive(s) && Guarded(s)
    ensures Exclusive(Next(s, step))
  {
    if s.held == map[] {
      assert Exclusive(Next(s, step));
    }
  }

  /** With a worker inside, the next step can let a second one in if and only if the
      key is not live. */
  lemma ExclusionExact(s: State)
    requires Exclusive(s)
    ensures (forall step :: Exclusive(Next(s, step))) <==> Guarded(s)
  {
    if Guarded(s) {
      forall step
        ensures Exclusive(Next(s, step))
      {
        StepKeepsExclusive(s, step);
      }
    } else {
      var w :| w in s.held;
      var next := Next(s, Acquire(w + 1));
      assert w + 1 !in s.held;
      assert w in next.held && w + 1 in next.held;
      assert !Exclusive(Next(s, Acquire(w + 1)));
    }
  }

  lemma {:induction false} GuardedRun(steps: seq<Step>)
    requires forall k :: 0 <= k < |steps| ==> Guarded(Exec(steps[..k]))
    ensures Exclusive(Exec(steps))
  {
    if steps != [] {
      var before := steps[..|steps| - 1];
      assert forall k :: 0 <= k < |before| ==> before[..k] == steps[..k];
      GuardedRun(before);
      StepKeepsExclusive(Exec(before), steps[|steps| - 1]);
    }
  }

  /** No step anywhere along a run can let a second worker in if and only if the key
      is live at every point of it where a worker is inside. */
  ghost predicate Protected(steps: seq<Step>) {
    forall k :: 0 <= k <= |steps| ==> forall step :: Exclusive(Next(Exec(steps[..k]), step))
  }

  lemma {:induction false} ExclusionOverRuns(steps: seq<Step>)
    ensures Protected(steps) <==> forall k :: 0 <= k <= |steps| ==> Guarded(Exec(steps[..k]))
  {
    if Protected(steps) {
      forall k | 0 <= k <= |steps|
        ensures Guarded(Exec(steps[..k]))
      {
        ProtectedPrefix(steps, k);
        ExclusionExact(Exec(steps[..k]));
      }
    }
    if forall k :: 0 <= k <= |steps| ==> Guarded(Exec(steps[..k])) {
      forall k | 0 <= k <= |steps|
        ensures forall step :: Exclusive(Next(Exec(steps[..k]), step))
      {
        assert forall j :: 0 <= j < k ==> steps[..k][..j] == steps[..j];
        GuardedRun(steps[..k]);
        ExclusionExact(Exec(steps[..k]));
      }
    }
  }

  lemma ProtectedPrefix(steps: seq<Step>, k: nat)
    requires Protected(steps) && k <= |steps|
    ensures Exclusive(Exec(steps[..k]))
  {
    if k > 0 {
      assert steps[..k] == steps[..k - 1] + [steps[k - 1]];
      ExecSnoc(INIT, steps[..k - 1], steps[k - 1]);
      assert Exclusive(Next(Exec(steps[..k - 1]), steps[k - 1]));
    }
  }

  // ---------------------------------------------------------------------------
  // Punctual workers
  // ---------------------------------------------------------------------------

  /** Every holder acquired or refreshed less than the time to live ago. */
  predicate Timely(s: State) {
    forall w :: w in s.held ==> s.now < s.held[w] + LOCK_TTL
  }

  /** The key outlives the last sign of life of its holder. */
  predicate Safe(s: State) {
    && Exclusive(s)
    && (forall w :: w in s.held ==> s.key.Present? && s.held[w] <= s.now && s.held[w] + LOCK_TTL <= s.key.expiry)
  }

  lemma SafeIsGuarded(s: State)
    requires Safe(s) && Timely(s)
    ensures Guarded(s)
  {
    if s.held != map[] {
      var w :| w in s.held;
    }
  }

  /** A failed deletion may land only while nobody is inside. */
  predicate Harmless(s: State, step: Step) {
    step == Lands(Delete) ==> s.held == map[]
  }

  lemma StepKeepsHolder(s: State, step: Step, w: Worker)
    requires Safe(s) && Timely(s) && Guarded(s) && Harmless(s, step) && w in Next(s, step).held
    ensures var next := Next(s, step);
            next.key.Present? && next.held[w] <= next.now && next.held[w] + LOCK_TTL <= next.key.expiry
  {
    if w in s.held {
      OldHolder(s, step, w);
    } else {
      NewHolder(s, step, w);
    }
  }

  lemma NewHolder(s: State, step: Step, w: Worker)
    requires w !in s.held && w in Next(s, step).held
    ensures Next(s, step).key == Present(s.now + LOCK_TTL) && Next(s, step).held[w] == s.now == Next(s, step).now
  {}

  lemma OldHolder(s: State, step: Step, w: Worker)
    requires Exclusive(s) && Live(s) && w in s.held && w in Next(s, step).held && Harmless(s, step)
    requires s.held[w] <= s.now && s.held[w] + LOCK_TTL <= s.key.expiry
    ensures var next := Next(s, step);
            next.key.Present? && next.held[w] <= next.now && next.held[w] + LOCK_TTL <= next.key.expiry
  {}

  lemma StepKeepsSafe(s: State, step: Step)
    requires Safe(s) && Timely(s) && Harmless(s, step)
    ensures Safe(Next(s, step))
  {
    SafeIsGuarded(s);
    StepKeepsExclusive(s, step);
    forall w | w in Next(s, step).held
      ensures var next := Next(s, step);
              next.key.Present? && next.held[w] <= next.now && next.held[w] + LOCK_TTL <= next.key.expiry
    {
      StepKeepsHolder(s, step, w);
    }
  }

  /** Mutual exclusion over every run: if no holder is silent for the whole time to
      live, and no failed deletion lands on a holder, at most one worker is between
      acquire and release, whatever late refreshes, failed releases and lost
      replies the run contains. */
  lemma {:induction false} MutualExclusion(steps: seq<Step>)
    requires forall k :: 0 <= k < |steps| ==> Timely(Exec(steps[..k])) && Harmless(Exec(steps[..k]), steps[k])
    ensures Safe(Exec(steps))
  {
    if steps != [] {
      var before := steps[..|steps| - 1];
      assert forall k :: 0 <= k < |before| ==> before[..k] == steps[..k] && before[k] == steps[k];
      MutualExclusion(before);
      assert Timely(Exec(steps[..|steps| - 1])) && Harmless(Exec(steps[..|steps| - 1]), steps[|steps| - 1]);
      StepKeepsSafe(Exec(before), steps[|steps| - 1]);
    }
  }

  // ---------------------------------------------------------------------------
  // The clock
  // ---------------------------------------------------------------------------

  /** Whether worker w would get the lock at this moment. */
  predicate Granted(s: State, w: Worker) {
    w !in s.held && w in Next(s, Acquire(w)).held
  }

  lemma GrantedUnlessLive(s: State, w: Worker)
    requires w !in s.held
    ensures Granted(s, w) <==> !Live(s)
  {}

  /** A refresh of a live key, by its holder or by one that released long ago, gives
      the key a whole time to live from now: after it, another worker is refused
      until exactly that time has passed. */
  lemma RefreshExtends(steps: seq<Step>, v: Worker, elapsed: nat, w: Worker)
    requires w !in Exec(steps).held && Live(Exec(steps))
    ensures Granted(Exec(steps + [Refresh(v)] + [Tick(elapsed)]), w) <==> elapsed >= LOCK_TTL
  {
    ExecSnoc(INIT, steps, Refresh(v));
    ExecSnoc(INIT, steps + [Refresh(v)], Tick(elapsed));
  }

  /** So does an acquire. */
  lemma AcquireLasts(steps: seq<Step>, v: Worker, elapsed: nat, w: Worker)
    requires Granted(Exec(steps), v) && w !in Exec(steps).held && w != v
    ensures Granted(Exec(steps + [Acquire(v)] + [Tick(elapsed)]), w) <==> elapsed >= LOCK_TTL
  {
    ExecSnoc(INIT, steps, Acquire(v));
    ExecSnoc(INIT, steps + [Acquire(v)], Tick(elapsed));
  }

  /** A key that has run out is not revived by a refresh. */
  lemma RefreshTooLate(steps: seq<Step>, v: Worker, w: Worker)
    requires Granted(Exec(steps), w)
    ensures Granted(Exec(steps + [Refresh(v)]), w)
  {
    ExecSnoc(INIT, steps, Refresh(v));
  }

  /** A release frees the key, whatever time is left on it, when its deletion is
      executed: at once, or after the call has failed. */
  lemma ReleaseFrees(steps: seq<Step>, v: Worker, w: Worker)
    requires v in Exec(steps).held && w !in Exec(steps).held
    ensures Granted(Exec(steps + [Release(v)]), v) && Granted(Exec(steps + [Release(v)]), w)
    ensures v !in Exec(steps + [ReleaseFails(v)]).held
    ensures Live(Exec(steps)) ==> !Granted(Exec(steps + [ReleaseFails(v)]), w)
    ensures Granted(Exec(steps + [ReleaseFails(v)] + [Lands(Delete)]), w)
  {
    ExecSnoc(INIT, steps, Release(v));
    ExecSnoc(INIT, steps, ReleaseFails(v));
    ExecSnoc(INIT, steps + [ReleaseFails(v)], Lands(Delete));
  }

  /** An acquire whose reply was lost may be executed later, for nobody: it then
      blocks everyone for a whole time to live. */
  lemma LostAcquireBlocks(steps: seq<Step>, v: Worker, elapsed: nat, w: Worker)
    requires v !in Exec(steps).held && w !in Exec(steps).held && !Live(Exec(steps))
    ensures v !in Exec(steps + [AcquireFails(v)] + [Lands(SetIfAbsent)]).held
    ensures Granted(Exec(steps + [AcquireFails(v)] + [Lands(SetIfAbsent)] + [Tick(elapsed)]), w)
            <==> elapsed >= LOCK_TTL
  {
    var lost, landed := steps + [AcquireFails(v)], steps + [AcquireFails(v)] + [Lands(SetIfAbsent)];
    ExecSnoc(INIT, steps, AcquireFails(v));
    ExecSnoc(INIT, lost, Lands(SetIfAbsent));
    ExecSnoc(INIT, landed, Tick(elapsed));
  }

  /** A worker outside releases nothing, one inside asks for nothing, and only a
      command in flight lands, once. */
  lemma NothingOutOfTurn(s: State, w: Worker, command: Command)
    ensures w !in s.held ==> Next(s, Release(w)) == s && Next(s, ReleaseFails(w)) == s
    ensures w in s.held ==> Next(s, Acquire(w)) == s && Next(s, AcquireFails(w)) == s
    ensures command !in s.late ==> Next(s, Lands(command)) == s
    ensures s.late[command] > 0 ==> Next(s, Lands(command)).late[command] == s.late[command] - 1
  {}

  /** The time that has passed in the run. */
  function Clock(steps: seq<Step>): nat {
    if steps == [] then 0
    else
      var before, last := steps[..|steps| - 1], steps[|steps| - 1];
      Clock(before) + if last.Tick? then last.elapsed else 0
  }

  /** When the worker last showed a sign of life since it got the lock: the time of
      its granted acquire, or of a later refresh of its own that found the key live.
      None while it is outside. */
  function LastSign(steps: seq<Step>, w: Worker): Option<nat> {
    if steps == [] then None
    else
      var before, last := steps[..|steps| - 1], steps[|steps| - 1];
      if last == Acquire(w) && LastSign(before, w) == None && !Live(Exec(before)) then Some(Clock(before))
      else if last == Refresh(w) && LastSign(before, w).Some? && Live(Exec(before)) then Some(Clock(before))
      else if last == Release(w) || last == ReleaseFails(w) then None
      else LastSign(before, w)
  }

  lemma {:induction false} ClockIsNow(steps: seq<Step>)
    ensures Exec(steps).now == Clock(steps)
  {
    if steps != [] {
      ClockIsNow(steps[..|steps| - 1]);
    }
  }

  function Sign(s: State, w: Worker): Option<nat> {
    if w in s.held then Some(s.held[w]) else None
  }

  lemma StepSign(s: State, step: Step, w: Worker)
    ensures Sign(Next(s, step), w)
         == if step == Acquire(w) && Sign(s, w) == None && !Live(s) then Some(s.now)
            else if step == Refresh(w) && Sign(s, w).Some? && Live(s) then Some(s.now)
            else if step == Release(w) || step == ReleaseFails(w) then None
            else Sign(s, w)
  {}

  lemma {:induction false} HeldIsLastSign(steps: seq<Step>, w: Worker)
    ensures LastSign(steps, w) == Sign(Exec(steps), w)
  {
    if steps != [] {
      var before, last := steps[..|steps| - 1], steps[|steps| - 1];
      HeldIsLastSign(before, w);
      ClockIsNow(before);
      StepSign(Exec(before), last, w);
    }
  }

  /** At every moment before the last step, every worker inside has shown a sign of
      life within the time to live, and no failed deletion lands on one inside. */
  ghost predicate Punctual(steps: seq<Step>) {
    forall k, w :: 0 <= k < |steps| && LastSign(steps[..k], w).Some? ==>
      Clock(steps[..k]) < LastSign(steps[..k], w).value + LOCK_TTL && steps[k] != Lands(Delete)
  }

  /** Mutual exclusion from the run alone: if every holder acquires or refreshes less
      than a time to live before each moment, no two workers are inside at once. */
  lemma ExclusionByClock(steps: seq<Step>, v: Worker, w: Worker)
    requires Punctual(steps) && LastSign(steps, v).Some? && LastSign(steps, w).Some?
    ensures v == w
  {
    forall k | 0 <= k < |steps|
      ensures Timely(Exec(steps[..k])) && Harmless(Exec(steps[..k]), steps[k])
    {
      PunctualIsTimely(steps, k);
    }
    MutualExclusion(steps);
    HeldIsLastSign(steps, v);
    HeldIsLastSign(steps, w);
  }

  lemma PunctualIsTimely(steps: seq<Step>, k: nat)
    requires Punctual(steps) && k < |steps|
    ensures Timely(Exec(steps[..k])) && Harmless(Exec(steps[..k]), steps[k])
  {
    var s := Exec(steps[..k]);
    ClockIsNow(steps[..k]);
    forall w | w in s.held
      ensures s.now < s.held[w] + LOCK_TTL && steps[k] != Lands(Delete)
    {
      HeldIsLastSign(steps[..k], w);
    }
  }

  lemma ExecFour(a: Step, b: Step, c: Step, d: Step)
    ensures Exec([a] + [b] + [c]) == Next(Next(Next(INIT, a), b), c)
    ensures Exec([a] + [b] + [c] + [d]) == Next(Next(Next(Next(INIT, a), b), c), d)
  {
    assert [] + [a] == [a];
    ExecSnoc(INIT, [], a);
    ExecSnoc(INIT, [a], b);
    ExecSnoc(INIT, [a] + [b], c);
    ExecSnoc(INIT, [a] + [b] + [c], d);
  }

  /** One late holder costs two exclusions: its own, and, because the deletion
      names no owner, that of the punctual worker that came after it. */
  lemma LateReleaseStealsLock(a: Worker, b: Worker, c: Worker)
    requires a != b && b != c && a != c
    ensures var late := [Acquire(a)] + [Tick(LOCK_TTL)] + [Acquire(b)];
            && Exec(late).held == map[a := 0, b := LOCK_TTL]
            && var stolen := Next(Next(Exec(late), Release(a)), Acquire(c));
               Timely(stolen) && stolen.held == map[b := LOCK_TTL, c := LOCK_TTL]
  {
    ExecFour(Acquire(a), Tick(LOCK_TTL), Acquire(b), Release(a));
  }

  /** A failed deletion that lands late does the same, though every holder was
      punctual: the other hypothesis of mutual exclusion is needed, too. */
  lemma LateDeletionStealsLock(a: Worker, b: Worker, c: Worker)
    requires a != b && b != c && a != c
    ensures var punctual := [Acquire(a)] + [ReleaseFails(a)] + [Tick(LOCK_TTL)] + [Acquire(b)];
            && Timely(Exec(punctual)) && Exec(punctual).held == map[b := LOCK_TTL]
            && Next(Next(Exec(punctual), Lands(Delete)), Acquire(c)).held == map[b := LOCK_TTL, c := LOCK_TTL]
  {
    ExecFour(Acquire(a), ReleaseFails(a), Tick(LOCK_TTL), Acquire(b));
  }

  /** The key never lives longer than its time to live from now. */
  lemma {:induction false} KeyBounded(steps: seq<Step>)
    ensures Exec(steps).key.Present? ==> Exec(steps).key.expiry <= Exec(steps).now + LOCK_TTL
  {
    if steps != [] {
      KeyBounded(steps[..|steps| - 1]);
    }
  }

  /** Nobody is locked out for good: in every run, a quiet time to live lets any
      worker in that is not inside already. */
  lemma FreeAfterTTL(steps: seq<Step>, w: Worker)
    requires w !in Exec(steps).held
    ensures w in Next(Next(Exec(steps), Tick(LOCK_TTL)), Acquire(w)).held
  {
    KeyBounded(steps);
  }

  // ---------------------------------------------------------------------------
  // The retry loop
  // ---------------------------------------------------------------------------

  newtype int64 = x: int | -0x8000_0000_0000_0000 <= x < 0x8000_0000_0000_0000

  const MAX_RETRIES: nat := 3
  const BASE_RETRY_DELAY: nat := 30 * SECOND
  const MAX_RETRY_DELAY: nat := 300 * SECOND

  function Pow2(k: nat): nat {
    if k == 0 then 1 else 2 * Pow2(k - 1)
  }

  lemma {:induction false} Pow2Monotone(j: nat, k: nat)
    requires j <= k
    ensures Pow2(j) <= Pow2(k)
  {
    if j < k {
      Pow2Monotone(j, k - 1);
    }
  }

  lemma Pow2At28()
    ensures Pow2(28) == 0x1000_0000
  {
    assert Pow2(7) == 0x80;
    assert Pow2(14) == 0x4000;
    assert Pow2(21) == 0x20_0000;
  }

  function Backoff(attempt: nat): nat
    requires attempt >= 1
  {
    var delay := BASE_RETRY_DELAY * Pow2(attempt - 1);
    if delay > MAX_RETRY_DELAY then MAX_RETRY_DELAY else delay
  }

  /** Two's complement wrap-around. */
  function Wrap64(x: int): int64 {
    ((x + 0x8000_0000_0000_0000) % 0x1_0000_0000_0000_0000 - 0x8000_0000_0000_0000) as int64
  }

  /** One shifted left in 64 bits; a negative count reads as a huge one. */
  function ShiftOne(count: int): int64 {
    if 0 <= count < 64 then Wrap64(Pow2(count)) else 0
  }

  /** The product before the cap. */
  function Product(attempt: int): int64 {
    Wrap64(BASE_RETRY_DELAY * ShiftOne(attempt - 1) as int)
  }

  lemma ProductFits(attempt: int)
    requires 1 <= attempt <= 29
    ensures Product(attempt) as int == BASE_RETRY_DELAY * Pow2(attempt - 1)
  {
    Pow2Monotone(attempt - 1, 28);
    Pow2At28();
  }

  lemma ProductWraps()
    ensures Product(30) < 0
  {
    Pow2At28();
    assert Pow2(29) == 0x2000_0000;
  }

  lemma ProductOutside(attempt: int)
    requires attempt < 1 || attempt > 64
    ensures Product(attempt) == 0
  {}

  function Delay(attempt: int): int {
    if Product(attempt) as int > MAX_RETRY_DELAY then MAX_RETRY_DELAY else Product(attempt) as int
  }

  /** The delay for any attempt number. */
  method CalculateBackoff(attempt: int) returns (delay: int64)
    ensures 1 <= attempt <= 29 ==> delay as int == Backoff(attempt)
    ensures attempt == 30 ==> delay < 0
    ensures attempt < 1 || attempt > 64 ==> delay == 0
    ensures delay as int <= MAX_RETRY_DELAY
    ensures delay as int == Delay(attempt)
  {
    if 1 <= attempt <= 29 {
      ProductFits(attempt);
    } else if attempt == 30 {
      ProductWraps();
    } else if attempt < 1 || attempt > 64 {
      ProductOutside(attempt);
    }
    delay := Product(attempt);
    if delay > MAX_RETRY_DELAY as int64 {
      delay := MAX_RETRY_DELAY as int64;
    }
  }

  /** The computed delays are the capped exponential ones for all attempts up to n
      if and only if n is at most 29: at 30 the 64-bit product turns negative. */
  lemma BackoffExactly(n: nat)
    ensures (forall k :: 1 <= k <= n ==> Delay(k) == Backoff(k)) <==> n <= 29
  {
    if n <= 29 {
      forall k | 1 <= k <= n
        ensures Delay(k) == Backoff(k)
      {
        ProductFits(k);
      }
    } else {
      ProductWraps();
      assert Backoff(30) >= 0;
    }
  }

  /** Delays grow with the attempts; from the fifth on they sit at the cap. */
  lemma BackoffGrows(j: nat, k: nat)
    requires 1 <= j <= k
    ensures Backoff(j) <= Backoff(k)
    ensures Backoff(k) == MAX_RETRY_DELAY <==> k >= 5
  {
    Pow2Monotone(j - 1, k - 1);
    if k >= 5 {
      Pow2Monotone(4, k - 1);
    } else {
      Pow2Monotone(k - 1, 3);
    }
    assert Pow2(3) == 8 && Pow2(4) == 16;
  }

  /** The waiting before attempt number n, counting from 0. */
  function WaitBefore(n: nat): nat {
    if n == 0 then 0 else WaitBefore(n - 1) + Backoff(n)
  }

  lemma {:induction false} WaitMonotone(j: nat, k: nat)
    requires j <= k
    ensures WaitBefore(j) <= WaitBefore(k)
  {
    if j < k {
      WaitMonotone(j, k - 1);
    }
  }

  lemma TotalWait()
    ensures WaitBefore(MAX_RETRIES) == 210 * SECOND < LOCK_TTL
  {
    assert Pow2(0) == 1 && Pow2(1) == 2 && Pow2(2) == 4;
    assert WaitBefore(1) == 30 * SECOND;
    assert WaitBefore(2) == 90 * SECOND;
  }

  // ---------------------------------------------------------------------------
  // One worker's run
  // ---------------------------------------------------------------------------

  /** How the call that asks for the lock comes back. */
  datatype Reply = Answered | Failed

  function Attempt(w: Worker, reply: Reply): Step {
    match reply
    case Answered => Acquire(w)
    case Failed => AcquireFails(w)
  }

  /** Steps of time, of other workers, of any refresher, and of late commands. */
  predicate NotOwn(w: Worker, steps: seq<Step>) {
    forall i :: 0 <= i < |steps| ==> steps[i] !in {Acquire(w), AcquireFails(w), Release(w), ReleaseFails(w)}
  }

  lemma OthersKeepHolder(w: Worker, s: State, step: Step)
    requires w in s.held && NotOwn(w, [step])
    ensures w in Next(s, step).held
  {
    assert [step][0] == step;
  }

  function Elapsed(steps: seq<Step>): nat {
    if steps == [] then 0
    else Elapsed(steps[..|steps| - 1]) + if steps[|steps| - 1].Tick? then steps[|steps| - 1].elapsed else 0
  }

  const MAX_ATTEMPTS: nat := MAX_RETRIES + 1

  /** What the other parties do, by the worker's own progress: during the wait before
      its n-th attempt at aggregation and during that attempt, counting from 0. */
  datatype Others = Others(waiting: seq<seq<Step>>, working: seq<seq<Step>>) {
    predicate Complete() {
      |waiting| == MAX_ATTEMPTS && |working| == MAX_ATTEMPTS
    }
  }

  predicate AllNotOwn(w: Worker, others: Others) {
    && others.Complete()
    && forall n :: 0 <= n < MAX_ATTEMPTS ==> NotOwnAround(w, others, n)
  }

  predicate NotOwnAround(w: Worker, others: Others, n: nat)
    requires others.Complete() && n < MAX_ATTEMPTS
  {
    NotOwn(w, others.waiting[n]) && NotOwn(w, others.working[n])
  }

  /** A wait of at least the delay, whatever happens meanwhile. */
  function Waited(steps: seq<Step>, delay: nat): (r: seq<Step>)
    ensures Elapsed(r) >= delay
  {
    var rest := if Elapsed(steps) < delay then delay - Elapsed(steps) else 0;
    assert (steps + [Tick(rest)])[..|steps|] == steps;
    steps + [Tick(rest)]
  }

  /** The first n attempts, each but the first after its wait. */
  function Attempts(others: Others, n: nat): seq<Step>
    requires others.Complete() && n <= MAX_ATTEMPTS
  {
    if n == 0 then []
    else Attempts(others, n - 1) + BeforeAttempt(others, n - 1) + others.working[n - 1]
  }

  function BeforeAttempt(others: Others, n: nat): seq<Step>
    requires others.Complete() && n < MAX_ATTEMPTS
  {
    if n == 0 then [] else Waited(others.waiting[n], Backoff(n))
  }

  datatype Finish = Succeeded | Cancelled | Exhausted

  /** The steps of a whole retry loop: a cancelled one ends within a wait. */
  function RetrySteps(others: Others, finish: Finish, attempts: nat): seq<Step>
    requires others.Complete() && attempts <= MAX_ATTEMPTS && (finish == Cancelled ==> attempts < MAX_ATTEMPTS)
  {
    Attempts(others, attempts) + if finish == Cancelled then others.waiting[attempts] else []
  }

  /** The worker's own path: its acquire, its attempts, its release. */
  function WorkerSteps(w: Worker, others: Others, finish: Finish, attempts: nat, released: bool): seq<Step>
    requires others.Complete() && attempts <= MAX_ATTEMPTS && (finish == Cancelled ==> attempts < MAX_ATTEMPTS)
  {
    [Acquire(w)] + RetrySteps(others, finish, attempts) + [if released then Release(w) else ReleaseFails(w)]
  }

  function AfterAttempt(s: State, others: Others, n: nat): State
    requires others.Complete() && n < MAX_ATTEMPTS
  {
    ExecFrom(ExecFrom(s, BeforeAttempt(others, n)), others.working[n])
  }

  /** The state after the first n attempts. */
  function AfterAttempts(s: State, others: Others, n: nat): State
    requires others.Complete() && n <= MAX_ATTEMPTS
  {
    if n == 0 then s else AfterAttempt(AfterAttempts(s, others, n - 1), others, n - 1)
  }

  function AfterRetries(s: State, others: Others, finish: Finish, attempts: nat): State
    requires others.Complete() && attempts <= MAX_ATTEMPTS && (finish == Cancelled ==> attempts < MAX_ATTEMPTS)
  {
    if finish == Cancelled then ExecFrom(AfterAttempts(s, others, attempts), others.waiting[attempts])
    else AfterAttempts(s, others, attempts)
  }

  lemma {:induction false} AttemptsAreSteps(s: State, others: Others, n: nat)
    requires others.Complete() && n <= MAX_ATTEMPTS
    ensures AfterAttempts(s, others, n) == ExecFrom(s, Attempts(others, n))
  {
    if n > 0 {
      AttemptsAreSteps(s, others, n - 1);
      ExecAppend(s, Attempts(others, n - 1), BeforeAttempt(others, n - 1));
      ExecAppend(s, Attempts(others, n - 1) + BeforeAttempt(others, n - 1), others.working[n - 1]);
    }
  }

  /** What the retry loop makes of the store is a run of single steps. */
  lemma RetriesAreSteps(s: State, others: Others, finish: Finish, attempts: nat)
    requires others.Complete() && attempts <= MAX_ATTEMPTS && (finish == Cancelled ==> attempts < MAX_ATTEMPTS)
    ensures AfterRetries(s, others, finish, attempts) == ExecFrom(s, RetrySteps(others, finish, attempts))
  {
    AttemptsAreSteps(s, others, attempts);
    ExecAppend(s, Attempts(others, attempts), if finish == Cancelled then others.waiting[attempts] else []);
  }

  lemma {:induction false} StepsTakeTime(s: State, steps: seq<Step>)
    ensures ExecFrom(s, steps).now == s.now + Elapsed(steps)
  {
    if steps != [] {
      StepsTakeTime(s, steps[..|steps| - 1]);
    }
  }

  lemma {:induction false} AttemptsTakeTime(s: State, others: Others, n: nat)
    requires others.Complete() && n <= MAX_ATTEMPTS
    ensures AfterAttempts(s, others, n).now >= s.now + if n == 0 then 0 else WaitBefore(n - 1)
  {
    if n > 0 {
      var before := AfterAttempts(s, others, n - 1);
      AttemptsTakeTime(s, others, n - 1);
      StepsTakeTime(before, BeforeAttempt(others, n - 1));
      StepsTakeTime(ExecFrom(before, BeforeAttempt(others, n - 1)), others.working[n - 1]);
    }
  }

  /** The loop takes at least the delays before its attempts. */
  lemma RetriesTakeTime(s: State, others: Others, finish: Finish, attempts: nat)
    requires others.Complete() && 1 <= attempts <= MAX_ATTEMPTS && (finish == Cancelled ==> attempts < MAX_ATTEMPTS)
    ensures AfterRetries(s, others, finish, attempts).now >= s.now + WaitBefore(attempts - 1)
  {
    AttemptsTakeTime(s, others, attempts);
    if finish == Cancelled {
      StepsTakeTime(AfterAttempts(s, others, attempts), others.waiting[attempts]);
    }
  }

  /** The outcome of every attempt, and whether the context is done during the wait
      before it. */
  datatype Fate = Fate(succeeds: seq<bool>, cancelled: seq<bool>) {
    predicate Complete() {
      |succeeds| == MAX_ATTEMPTS && |cancelled| == MAX_ATTEMPTS
    }
  }

  /** How the loop ends. */
  predicate RetryOutcome(fate: Fate, finish: Finish, attempts: nat)
    requires fate.Complete()
  {
    && 1 <= attempts <= MAX_ATTEMPTS
    && (forall k :: 0 <= k < attempts - 1 ==> !fate.succeeds[k])
    && (forall k :: 1 <= k < attempts ==> !fate.cancelled[k])
    && match finish
       case Succeeded => fate.succeeds[attempts - 1]
       case Cancelled => attempts < MAX_ATTEMPTS && !fate.succeeds[attempts - 1] && fate.cancelled[attempts]
       case Exhausted => attempts == MAX_ATTEMPTS && !fate.succeeds[attempts - 1]
  }

  datatype End = End(finish: Finish, attempts: nat)

  /** The end of the loop, from its n-th turn on. */
  function EndFrom(fate: Fate, n: nat): End
    requires fate.Complete() && n <= MAX_ATTEMPTS
    decreases MAX_ATTEMPTS - n
  {
    if n == MAX_ATTEMPTS then End(Exhausted, n)
    else if n > 0 && fate.cancelled[n] then End(Cancelled, n)
    else if fate.succeeds[n] then End(Succeeded, n + 1)
    else EndFrom(fate, n + 1)
  }

  lemma {:induction false} EndMeaning(fate: Fate, n: nat)
    requires fate.Complete() && n <= MAX_ATTEMPTS
    requires (forall k :: 0 <= k < n ==> !fate.succeeds[k]) && (forall k :: 1 <= k < n ==> !fate.cancelled[k])
    ensures RetryOutcome(fate, EndFrom(fate, n).finish, EndFrom(fate, n).attempts)
    decreases MAX_ATTEMPTS - n
  {
    if n < MAX_ATTEMPTS && !(n > 0 && fate.cancelled[n]) && !fate.succeeds[n] {
      EndMeaning(fate, n + 1);
    }
  }

  lemma WaitBounded(n: nat)
    requires n <= MAX_RETRIES
    ensures WaitBefore(n) <= 210 * SECOND
  {
    WaitMonotone(n, MAX_RETRIES);
    TotalWait();
  }

  lemma EndStep(fate: Fate, n: nat)
    requires fate.Complete() && n < MAX_ATTEMPTS && (n > 0 ==> !fate.cancelled[n])
    ensures EndFrom(fate, n) == if fate.succeeds[n] then End(Succeeded, n + 1) else EndFrom(fate, n + 1)
  {}

  lemma LoopEnds(fate: Fate, finish: Finish, attempts: nat)
    requires fate.Complete() && EndFrom(fate, 0) == End(finish, attempts)
    ensures RetryOutcome(fate, finish, attempts) && WaitBefore(attempts - 1) <= 210 * SECOND
  {
    EndMeaning(fate, 0);
    WaitBounded(attempts - 1);
  }

  /** The shared key and clock, with the calls a worker makes on them. */
  class LockStore {
    var state: State

    constructor ()
      ensures state == INIT
    {
      state := INIT;
    }

    method TryAcquire(w: Worker, reply: Reply) returns (acquired: bool)
      requires w !in state.held
      modifies this
      ensures state == Next(old(state), Attempt(w, reply))
      ensures acquired <==> reply == Answered && !old(Live(state))
      ensures acquired <==> w in state.held
    {
      if reply == Failed {
        state := state.(late := state.late + multiset{SetIfAbsent});
        return false;
      }
      acquired := !(state.key.Present? && state.now < state.key.expiry);
      if acquired {
        state := state.(key := Present(state.now + LOCK_TTL), held := state.held[w := state.now]);
      }
    }

    method Sleep(elapsed: nat)
      modifies this
      ensures state == Next(old(state), Tick(elapsed))
    {
      state := state.(now := state.now + elapsed);
    }

    method ReleaseLock(w: Worker, executed: bool)
      requires w in state.held
      modifies this
      ensures state == Next(old(state), if executed then Release(w) else ReleaseFails(w))
      ensures w !in state.held
    {
      state := state.(held := map v | v in state.held && v != w :: state.held[v]);
      if executed {
        state := state.(key := Absent);
      } else {
        state := state.(late := state.late + multiset{Delete});
      }
    }

    /** The others' steps while the worker aggregates or waits. */
    method Interfere(w: Worker, steps: seq<Step>)
      requires NotOwn(w, steps) && w in state.held
      modifies this
      ensures state == ExecFrom(old(state), steps) && w in state.held
    {
      ghost var start := state;
      for i := 0 to |steps|
        invariant state == ExecFrom(start, steps[..i]) && w in state.held
      {
        assert steps[..i + 1] == steps[..i] + [steps[i]];
        ExecSnoc(start, steps[..i], steps[i]);
        OthersKeepHolder(w, state, steps[i]);
        state := Next(state, steps[i]);
      }
      assert steps[..|steps|] == steps;
    }

    /** A wait ends no earlier than its delay. */
    method WaitOut(w: Worker, steps: seq<Step>, delay: nat)
      requires NotOwn(w, steps) && w in state.held
      modifies this
      ensures state == ExecFrom(old(state), Waited(steps, delay)) && w in state.held
    {
      ghost var start := state;
      Interfere(w, steps);
      var elapsed := ElapsedTime(steps);
      var rest := if elapsed < delay then delay - elapsed else 0;
      ExecSnoc(start, steps, Tick(rest));
      Sleep(rest);
    }

    /** waited sums the completed delays. */
    method RunWithRetry(w: Worker, fate: Fate, others: Others) returns (finish: Finish, attempts: nat, waited: nat)
      requires w in state.held && AllNotOwn(w, others) && fate.Complete()
      modifies this
      ensures RetryOutcome(fate, finish, attempts) && 1 <= attempts <= 4
      ensures forall k :: 0 <= k < attempts - 1 ==> !fate.succeeds[k] && (k > 0 ==> !fate.cancelled[k])
      ensures attempts > 1 ==> !fate.cancelled[attempts - 1]
      ensures finish == Succeeded ==> fate.succeeds[attempts - 1]
      ensures finish == Cancelled ==> attempts < 4 && !fate.succeeds[attempts - 1] && fate.cancelled[attempts]
      ensures finish == Exhausted ==> attempts == 4 && !fate.succeeds[3]
      ensures waited == WaitBefore(attempts - 1) <= 210 * SECOND && state.now >= old(state).now + waited
      ensures state == AfterRetries(old(state), others, finish, attempts) && w in state.held
    {
      ghost var start := state;
      attempts, waited, finish := 0, 0, Exhausted;
      while attempts <= MAX_RETRIES
        invariant 0 <= attempts <= MAX_ATTEMPTS && w in state.held
        invariant waited == if attempts == 0 then 0 else WaitBefore(attempts - 1)
        invariant EndFrom(fate, 0) == EndFrom(fate, attempts)
        invariant state == AfterAttempts(start, others, attempts)
      {
        if attempts > 0 && fate.cancelled[attempts] {
          GiveUp(w, others, start, attempts);
          RetriesTakeTime(start, others, Cancelled, attempts);
          LoopEnds(fate, Cancelled, attempts);
          return Cancelled, attempts, waited;
        }
        var succeeded := fate.succeeds[attempts];
        EndStep(fate, attempts);
        var delay := GoOn(w, others, start, attempts);
        waited, attempts := waited + delay, attempts + 1;
        if succeeded {
          LoopEnds(fate, Succeeded, attempts);
          RetriesTakeTime(start, others, Succeeded, attempts);
          return Succeeded, attempts, waited;
        }
      }
      LoopEnds(fate, Exhausted, attempts);
      RetriesTakeTime(start, others, Exhausted, attempts);
    }

    /** A wait that the context ends. */
    method GiveUp(w: Worker, others: Others, ghost start: State, attempts: nat)
      requires w in state.held && AllNotOwn(w, others) && attempts < MAX_ATTEMPTS
      requires state == AfterAttempts(start, others, attempts)
      modifies this
      ensures state == AfterRetries(start, others, Cancelled, attempts) && w in state.held
    {
      assert NotOwnAround(w, others, attempts);
      Interfere(w, others.waiting[attempts]);
    }

    /** One attempt, after its wait unless it is the first. */
    method GoOn(w: Worker, others: Others, ghost start: State, attempts: nat) returns (waited: nat)
      requires w in state.held && AllNotOwn(w, others) && attempts < MAX_ATTEMPTS
      requires state == AfterAttempts(start, others, attempts)
      modifies this
      ensures waited == if attempts == 0 then 0 else Backoff(attempts)
      ensures state == AfterAttempts(start, others, attempts + 1) && w in state.held
    {
      waited := 0;
      assert NotOwnAround(w, others, attempts);
      if attempts > 0 {
        var delay := CalculateBackoff(attempts);
        waited := delay as int;
        WaitOut(w, others.waiting[attempts], waited);
      }
      Interfere(w, others.working[attempts]);
    }

    /** One release attempt follows a successful acquire, and none follows a refused
        or failed one. */
    method RunWithLockAndRetry(w: Worker, reply: Reply, fate: Fate, others: Others, released: bool)
      returns (acquired: bool, finish: Finish, attempts: nat, waited: nat)
      requires w !in state.held && AllNotOwn(w, others) && fate.Complete()
      modifies this
      ensures acquired <==> reply == Answered && !old(Live(state))
      ensures w !in state.held
      ensures !acquired ==> state == Next(old(state), Attempt(w, reply))
      ensures waited <= 210 * SECOND && state.now >= old(state).now + waited
      ensures acquired ==> RetryOutcome(fate, finish, attempts) && waited == WaitBefore(attempts - 1)
      ensures acquired ==> state == ExecFrom(old(state), WorkerSteps(w, others, finish, attempts, released))
    {
      ghost var start := state;
      acquired := TryAcquire(w, reply);
      if !acquired {
        return false, Exhausted, 0, 0;
      }
      finish, attempts, waited := RunWithRetry(w, fate, others);
      ReleaseLock(w, released);
      WorkerStepsInOrder(start, w, others, finish, attempts, released);
    }
  }

  lemma WorkerStepsInOrder(s: State, w: Worker, others: Others, finish: Finish, attempts: nat, released: bool)
    requires others.Complete() && attempts <= MAX_ATTEMPTS && (finish == Cancelled ==> attempts < MAX_ATTEMPTS)
    ensures ExecFrom(s, WorkerSteps(w, others, finish, attempts, released))
         == Next(AfterRetries(Next(s, Acquire(w)), others, finish, attempts),
                 if released then Release(w) else ReleaseFails(w))
  {
    var steps := RetrySteps(others, finish, attempts);
    assert [] + [Acquire(w)] == [Acquire(w)];
    ExecSnoc(s, [], Acquire(w));
    ExecAppend(s, [Acquire(w)], steps);
    RetriesAreSteps(Next(s, Acquire(w)), others, finish, attempts);
    ExecSnoc(s, [Acquire(w)] + steps, if released then Release(w) else ReleaseFails(w));
  }

  method ElapsedTime(steps: seq<Step>) returns (elapsed: nat)
    ensures elapsed == Elapsed(steps)
  {
    elapsed := 0;
    for i := 0 to |steps|
      invariant elapsed == Elapsed(steps[..i])
    {
      assert steps[..i + 1][..i] == steps[..i];
      if steps[i].Tick? {
        elapsed := elapsed + steps[i].elapsed;
      }
    }
    assert steps[..|steps|] == steps;
  }
}
