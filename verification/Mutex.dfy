/** The reader-writer mutex of mutex.hpp as a transition system over any number of threads.

    The shared word is -1 for a writer, 0 when free and otherwise the number of readers.  A
    thread takes one step per load, compare-and-swap, exchange, store, wait check and
    notification.  Waiting follows section 31.6 of ISO/IEC 14882:2020: a thread goes to sleep
    only if the word still has the value it waits on, a woken thread compares again, it may
    wake up by itself, and a notification owes a wake-up only to threads that went to sleep
    before the change of the word that the notifying thread made itself. */
module Mutex {
  const WRITER := -1

  /** `spin_iterations` and `use_wait`. */
  datatype Config = Config(spin: nat, useWait: bool)

  /** Where a thread is.  `i` is the loop counter, `known` the value of the word it has seen. */
  datatype PC =
    | Idle
    | Reading
    | Writing
    | LockTop(i: nat)
    | LockTry(i: nat, strong: bool)
    | LockWait(known: int)
    | LockAsleep(known: int, since: nat)
    | SharedTop(i: nat)
    | SharedTry(i: nat, known: int)
    | SharedWait(known: int)
    | SharedAsleep(known: int, since: nat)
    | TryShared(known: int)
    | Relocking
    | OweAll(keepsShare: bool, at: nat)
    | OweOne(relock: bool, at: nat)

  /** `stamp` counts the changes of the word; a sleeping thread knows the one `since` which it
      sleeps, a thread that owes a notification the one that it made itself.  `version` stands for the guarded data, and
      `seen[t]` for the version that thread `t` has known since it took its lock. */
  datatype State = State(word: int, stamp: nat, version: nat, pc: seq<PC>, seen: seq<nat>)

  datatype Act =
    | BeginLock
    | BeginTryLock
    | BeginShared
    | BeginTryShared
    | Unlock
    | UnlockShared
    | Downgrade
    | Upgrade(relock: bool)
    | Modify
    | Go(spurious: bool)
    | Notify(woken: set<int>)
    | WakeUp

  function Init(n: nat): State {
    State(0, 0, 0, seq(n, _ => Idle), seq(n, _ => 0))
  }

  function Jump(s: State, t: int, pc: PC): State
    requires 0 <= t < |s.pc|
  {
    s.(pc := s.pc[t := pc])
  }

  /** A step that writes the word. */
  function Change(s: State, t: int, word: int, pc: PC): State
    requires 0 <= t < |s.pc|
  {
    s.(word := word, stamp := s.stamp + 1, pc := s.pc[t := pc])
  }

  /** A step that takes the lock: from now on the thread knows the data. */
  function Take(s: State, t: int, word: int, pc: PC): State
    requires 0 <= t < |s.pc| == |s.seen|
  {
    Change(s, t, word, pc).(seen := s.seen[t := s.version])
  }

  predicate Spinning(c: Config, i: nat) { i < c.spin || !c.useWait }

  predicate Asleep(pc: PC) { pc.LockAsleep? || pc.SharedAsleep? }

  /** Asleep since before the change `at` of the word. */
  predicate Eligible(s: State, u: int, at: nat)
    requires 0 <= u < |s.pc|
  {
    Asleep(s.pc[u]) && s.pc[u].since < at
  }

  function Woken(pc: PC): PC {
    match pc
    case LockAsleep(known, _) => LockWait(known)
    case SharedAsleep(known, _) => SharedWait(known)
    case _ => pc
  }

  function WakeAll(pc: seq<PC>, woken: set<int>): seq<PC> {
    seq(|pc|, u requires 0 <= u < |pc| => if u in woken then Woken(pc[u]) else pc[u])
  }

  /** `notify_all` wakes every eligible thread, `notify_one` at least one if there is one. */
  predicate MayWake(s: State, all: bool, at: nat, woken: set<int>) {
    && (all ==> forall u :: 0 <= u < |s.pc| && Eligible(s, u, at) ==> u in woken)
    && (!all ==> (exists u :: 0 <= u < |s.pc| && Eligible(s, u, at)) ==>
      exists u :: 0 <= u < |s.pc| && Eligible(s, u, at) && u in woken)
  }

  predicate Enabled(s: State, t: int, a: Act) {
    && 0 <= t < |s.pc| == |s.seen|
    && match a
       case BeginLock => s.pc[t].Idle?
       case BeginTryLock => s.pc[t].Idle?
       case BeginShared => s.pc[t].Idle?
       case BeginTryShared => s.pc[t].Idle?
       case Unlock => s.pc[t].Writing?
       case UnlockShared => s.pc[t].Reading?
       case Downgrade => s.pc[t].Writing?
       case Upgrade(_) => s.pc[t].Reading?
       case Modify => s.pc[t].Writing?
       case Go(_) => s.pc[t].LockTop? || s.pc[t].LockTry? || s.pc[t].LockWait? || s.pc[t].SharedTop?
         || s.pc[t].SharedTry?
                     || s.pc[t].SharedWait? || s.pc[t].TryShared? || s.pc[t].Relocking?
       case Notify(woken) => Owes(s.pc[t]) && MayWake(s, s.pc[t].OweAll?, s.pc[t].at, woken)
       case WakeUp => Asleep(s.pc[t])
  }

  /** Giving up a share: the last reader owes a notification. */
  function ReleaseShare(c: Config, s: State, t: int, relock: bool): State
    requires 0 <= t < |s.pc|
  {
    Change(s, t, s.word - 1,
           if c.useWait && s.word == 1 then OweOne(relock, s.stamp + 1) else if relock then LockTop(0) else Idle)
  }

  /** One step inside `lock`, `lock_shared`, `try_lock_shared` or `upgrade_or_relock`. */
  function Advance(c: Config, s: State, t: int, spurious: bool): State
    requires 0 <= t < |s.pc| == |s.seen|
  {
    match s.pc[t]
    case LockTop(i) =>
      if Spinning(c, i) then Jump(s, t, if s.word == 0 then LockTry(i, false) else LockTop(i + 1))
      else Jump(s, t, if s.word == 0 then LockTry(i, true) else LockWait(s.word))
    case LockTry(i, strong) =>
      if s.word == 0 && (strong || !spurious) then Take(s, t, WRITER, Writing)
      else Jump(s, t, if strong then LockWait(s.word) else LockTop(i + 1))
    case LockWait(known) =>
      Jump(s, t, if s.word == known then LockAsleep(known, s.stamp) else LockTop(1))
    case SharedTop(i) =>
      if s.word >= 0 then Jump(s, t, SharedTry(i, s.word))
      else Jump(s, t, if Spinning(c, i) then SharedTop(i + 1) else SharedWait(s.word))
    case SharedTry(i, known) =>
      if s.word == known && !spurious then Take(s, t, known + 1, Reading)
      else Jump(s, t, if Spinning(c, i) then SharedTop(i + 1) else SharedTop(1))
    case SharedWait(known) =>
      Jump(s, t, if s.word == known then SharedAsleep(known, s.stamp) else SharedTop(1))
    case TryShared(known) =>
      if s.word == known && !spurious then Take(s, t, known + 1, Reading)
      else Jump(s, t, if s.word >= 0 then TryShared(s.word) else Idle)
    case Relocking => ReleaseShare(c, s, t, true)
    case _ => s
  }

  function Apply(c: Config, s: State, t: int, a: Act): State
    requires Enabled(s, t, a)
  {
    match a
    case BeginLock => Jump(s, t, LockTop(0))
    case BeginTryLock => if s.word == 0 then Take(s, t, WRITER, Writing) else s
    case BeginShared => Jump(s, t, SharedTop(0))
    case BeginTryShared => if s.word >= 0 then Jump(s, t, TryShared(s.word)) else s
    case Unlock => Change(s, t, 0, if c.useWait then OweAll(false, s.stamp + 1) else Idle)
    case UnlockShared => ReleaseShare(c, s, t, false)
    case Downgrade => Change(s, t, 1, if c.useWait then OweAll(true, s.stamp + 1) else Reading)
    case Upgrade(relock) =>
      if s.word == 1 then Change(s, t, WRITER, Writing) else Jump(s, t, if relock then Relocking else Reading)
    case Modify => s.(version := s.version + 1, seen := s.seen[t := s.version + 1])
    case Go(spurious) => Advance(c, s, t, spurious)
    case Notify(woken) =>
      Jump(s.(pc := WakeAll(s.pc, woken)), t,
           match s.pc[t]
           case OweAll(keepsShare, _) => if keepsShare then Reading else Idle
           case OweOne(relock, _) => if relock then LockTop(0) else Idle
           case other => other)
    case WakeUp => Jump(s, t, Woken(s.pc[t]))
  }

  ghost predicate Next(c: Config, s: State, s': State) {
    exists t, a :: Enabled(s, t, a) && s' == Apply(c, s, t, a)
  }

  /** A run of `n` threads, with any interleaving. */
  ghost predicate IsRun(c: Config, n: nat, run: seq<State>) {
    && |run| > 0 && run[0] == Init(n)
    && (forall i :: 0 <= i < |run| - 1 ==> Next(c, run[i], run[i + 1]))
  }

  // ---------------------------------------------------------------- who holds what

  predicate Shares(pc: PC) { pc.Reading? || pc.Relocking? || (pc.OweAll? && pc.keepsShare) }

  predicate Owns(pc: PC) { pc.Writing? }

  predicate Holds(pc: PC) { Shares(pc) || Owns(pc) }

  function Readers(pc: seq<PC>): (n: nat)
    ensures n <= |pc|
  {
    if pc == [] then 0 else Readers(pc[..|pc| - 1]) + if Shares(pc[|pc| - 1]) then 1 else 0
  }

  function Writers(pc: seq<PC>): (n: nat)
    ensures n <= |pc|
  {
    if pc == [] then 0 else Writers(pc[..|pc| - 1]) + if Owns(pc[|pc| - 1]) then 1 else 0
  }

  lemma {:induction false} CountUpdate(pc: seq<PC>, t: int, p: PC)
    requires 0 <= t < |pc|
    ensures Readers(pc[t := p]) == Readers(pc) - (if Shares(pc[t]) then 1 else 0) + (if Shares(p) then 1 else 0)
    ensures Writers(pc[t := p]) == Writers(pc) - (if Owns(pc[t]) then 1 else 0) + (if Owns(p) then 1 else 0)
  {
    var n := |pc| - 1;
    if t == n {
      assert pc[t := p][..n] == pc[..n];
    } else {
      assert pc[t := p][..n] == pc[..n][t := p];
      CountUpdate(pc[..n], t, p);
    }
  }

  lemma {:induction false} CountSame(pc: seq<PC>, qc: seq<PC>)
    requires |pc| == |qc| && forall u :: 0 <= u < |pc| ==> Shares(pc[u]) == Shares(qc[u]) && Owns(pc[u]) == Owns(qc[u])
    ensures Readers(pc) == Readers(qc) && Writers(pc) == Writers(qc)
  {
    if pc != [] { CountSame(pc[..|pc| - 1], qc[..|qc| - 1]); }
  }

  lemma {:induction false} CountBounds(pc: seq<PC>, t: int)
    requires 0 <= t < |pc|
    ensures Shares(pc[t]) ==> Readers(pc) >= 1
    ensures Owns(pc[t]) ==> Writers(pc) >= 1
    ensures !Shares(pc[t]) ==> Readers(pc) < |pc|
  {
    if t < |pc| - 1 { CountBounds(pc[..|pc| - 1], t); }
  }

  lemma {:induction false} CountWitness(pc: seq<PC>) returns (r: int, w: int)
    ensures Readers(pc) > 0 ==> 0 <= r < |pc| && Shares(pc[r])
    ensures Writers(pc) > 0 ==> 0 <= w < |pc| && Owns(pc[w])
  {
    if pc != [] {
      r, w := CountWitness(pc[..|pc| - 1]);
      if Shares(pc[|pc| - 1]) { r := |pc| - 1; }
      if Owns(pc[|pc| - 1]) { w := |pc| - 1; }
    } else {
      r, w := 0, 0;
    }
  }

  /** The word tells exactly who is in. */
  ghost predicate Exact(s: State) {
    if s.word == WRITER then Writers(s.pc) == 1 && Readers(s.pc) == 0
    else s.word >= 0 && Writers(s.pc) == 0 && Readers(s.pc) == s.word
  }

  /** What is known about the values that a thread carries around. */
  predicate SanePC(c: Config, word: int, stamp: nat, n: nat, pc: PC) {
    match pc
    case LockWait(known) => c.useWait && known != 0
    case LockAsleep(known, since) => c.useWait && known != 0 && since <= stamp && (since == stamp ==> word == known)
    case SharedTry(_, known) => 0 <= known < n
    case TryShared(known) => 0 <= known < n
    case SharedWait(known) => c.useWait && known == WRITER
    case SharedAsleep(known, since) => c.useWait && known == WRITER && since <= stamp
      && (since == stamp ==> word == known)
    case OweAll(_, at) => c.useWait && at <= stamp
    case OweOne(_, at) => c.useWait && at <= stamp
    case LockTry(_, strong) => strong ==> c.useWait
    case _ => true
  }

  ghost predicate Sane(c: Config, s: State) {
    && |s.seen| == |s.pc|
    && (forall u :: 0 <= u < |s.pc| ==> SanePC(c, s.word, s.stamp, |s.pc|, s.pc[u]))
  }

  /** Nobody who holds the lock has missed a change of the data. */
  ghost predicate UpToDate(s: State)
    requires |s.seen| == |s.pc|
  {
    forall u :: 0 <= u < |s.pc| && Holds(s.pc[u]) ==> s.seen[u] == s.version
  }

  predicate InLock(pc: PC) { pc.LockTop? || pc.LockTry? || pc.LockWait? }

  predicate Owes(pc: PC) { pc.OweAll? || pc.OweOne? }

  predicate InShared(pc: PC) { pc.SharedTop? || pc.SharedTry? || pc.SharedWait? }

  /** A `notify_all` that reaches a thread asleep since `since` is on its way. */
  ghost predicate AllOwed(s: State, since: nat) { exists u :: 0 <= u < |s.pc| && s.pc[u].OweAll? && since < s.pc[u].at }

  /** So is some notification. */
  ghost predicate SomeOwed(s: State, since: nat) { exists u :: 0 <= u < |s.pc| && Owes(s.pc[u]) && since < s.pc[u].at }

  ghost predicate SomeoneInLock(s: State) { exists u :: 0 <= u < |s.pc| && InLock(s.pc[u]) }

  ghost predicate SomeoneInShared(s: State) { exists u :: 0 <= u < |s.pc| && InShared(s.pc[u]) }

  /** A sleeping reader still has a writer to wait for, or a `notify_all` is on its way to it. */
  ghost predicate ReadersWake(s: State) {
    forall r :: 0 <= r < |s.pc| && s.pc[r].SharedAsleep? ==> s.word == WRITER || AllOwed(s, s.pc[r].since)
  }

  /** A sleeping writer has something to wait for, or a notification is on its way to it, or
      another thread is awake in `lock` or in `lock_shared`. */
  ghost predicate WritersWake(s: State) {
    forall w :: 0 <= w < |s.pc| && s.pc[w].LockAsleep? ==>
        s.word != 0 || SomeOwed(s, s.pc[w].since) || SomeoneInLock(s) || SomeoneInShared(s)
  }

  ghost predicate Inv(c: Config, s: State) {
    Sane(c, s) && Exact(s) && UpToDate(s) && ReadersWake(s) && WritersWake(s)
  }

  // ---------------------------------------------------------------- every step keeps it

  lemma InitInv(c: Config, n: nat)
    ensures Inv(c, Init(n))
  {
    NobodyIn(n);
  }

  lemma {:induction false} NobodyIn(n: nat)
    ensures Readers(Init(n).pc) == 0 && Writers(Init(n).pc) == 0
  {
    if n > 0 {
      assert Init(n).pc[..n - 1] == Init(n - 1).pc;
      NobodyIn(n - 1);
    }
  }

  /** What a step that is not a notification can do to the word, and to whom. */
  ghost predicate Shape(c: Config, s: State, s': State, t: int) {
    && 0 <= t < |s.pc| && |s'.pc| == |s.pc| && s'.pc == s.pc[t := s'.pc[t]]
    && var p, q := s.pc[t], s'.pc[t];
       || (s'.word == s.word && s'.stamp == s.stamp && Shares(p) == Shares(q) && Owns(p) == Owns(q))
       || (s'.stamp == s.stamp + 1
           && (|| (s.word == 0 && s'.word == WRITER && !Holds(p) && Owns(q))
               || (s.word >= 0 && s'.word == s.word + 1 && !Holds(p) && Shares(q))
               || (Owns(p) && s'.word == 0 && !Holds(q) && (c.useWait ==> q.OweAll? && q.at == s'.stamp))
               || (Owns(p) && s'.word == 1 && Shares(q) && (c.useWait ==> q.OweAll? && q.at == s'.stamp))
               || (Shares(p) && s'.word == s.word - 1 && !Holds(q)
               && (c.useWait && s.word == 1 ==> q.OweOne? && q.at == s'.stamp))
               || (Shares(p) && s.word == 1 && s'.word == WRITER && Owns(q))))
  }

  lemma StepShape(c: Config, s: State, t: int, a: Act)
    requires Sane(c, s) && Enabled(s, t, a) && !a.Notify?
    ensures Shape(c, s, Apply(c, s, t, a), t)
  {
    assert SanePC(c, s.word, s.stamp, |s.pc|, s.pc[t]);
    if a.Go? { AdvanceShape(c, s, t, a.spurious); }
  }

  lemma AdvanceShape(c: Config, s: State, t: int, spurious: bool)
    requires Enabled(s, t, Go(spurious)) && SanePC(c, s.word, s.stamp, |s.pc|, s.pc[t])
    ensures Shape(c, s, Advance(c, s, t, spurious), t)
  {
  }

  lemma WakeShape(c: Config, s: State, t: int, woken: set<int>)
    requires Enabled(s, t, Notify(woken))
    ensures var s' := Apply(c, s, t, Notify(woken));
      && s'.word == s.word && s'.stamp == s.stamp && s'.version == s.version && s'.seen == s.seen && |s'.pc| == |s.pc|
      && (forall u :: 0 <= u < |s.pc| && u != t ==> s'.pc[u] == if u in woken then Woken(s.pc[u]) else s.pc[u])
      && Shares(s'.pc[t]) == Shares(s.pc[t]) && Owns(s'.pc[t]) == Owns(s.pc[t]) && !Asleep(s'.pc[t]) && !Owes(s'.pc[t])
  {
  }

  lemma ExactStep(c: Config, s: State, t: int, a: Act)
    requires Sane(c, s) && Exact(s) && Enabled(s, t, a)
    ensures Exact(Apply(c, s, t, a))
  {
    hide Apply, Enabled, Advance, Sane;
    var s' := Apply(c, s, t, a);
    if a.Notify? {
      WakeShape(c, s, t, a.woken);
      CountSame(s.pc, s'.pc);
    } else {
      StepShape(c, s, t, a);
      CountBounds(s.pc, t);
      CountUpdate(s.pc, t, s'.pc[t]);
    }
  }

  /** The thread that takes the step carries sane values. */
  lemma SaneMine(c: Config, s: State, t: int, a: Act)
    requires Sane(c, s) && Exact(s) && Enabled(s, t, a) && !a.Notify?
    ensures var s' := Apply(c, s, t, a);
              |s'.seen| == |s'.pc| == |s.pc| && SanePC(c, s'.word, s'.stamp, |s.pc|, s'.pc[t])
  {
    CountBounds(s.pc, t);
    assert SanePC(c, s.word, s.stamp, |s.pc|, s.pc[t]);
  }

  lemma SaneStep(c: Config, s: State, t: int, a: Act)
    requires Sane(c, s) && Exact(s) && Enabled(s, t, a)
    ensures Sane(c, Apply(c, s, t, a))
  {
    hide Apply, Enabled, Advance, Exact;
    if a.Notify? {
      WakeSane(c, s, t, a.woken);
    } else {
      StepShape(c, s, t, a);
      SaneMine(c, s, t, a);
    }
  }

  lemma WakeSane(c: Config, s: State, t: int, woken: set<int>)
    requires Sane(c, s) && Enabled(s, t, Notify(woken))
    ensures Sane(c, Apply(c, s, t, Notify(woken)))
  {
    WakeShape(c, s, t, woken);
    var s' := Apply(c, s, t, Notify(woken));
    forall u | 0 <= u < |s'.pc| ensures SanePC(c, s'.word, s'.stamp, |s'.pc|, s'.pc[u]) {
      assert SanePC(c, s.word, s.stamp, |s.pc|, s.pc[u]);
    }
  }

  /** Which threads know the data, and whether it changed. */
  lemma SeenStep(c: Config, s: State, t: int, a: Act)
    requires Enabled(s, t, a)
    ensures var s' := Apply(c, s, t, a);
      && |s'.seen| == |s.seen| == |s'.pc| == |s.pc| && 0 <= t < |s.pc|
      && (forall u :: 0 <= u < |s.pc| && u != t ==> s'.seen[u] == s.seen[u] && Holds(s'.pc[u]) == Holds(s.pc[u]))
      && (s'.version != s.version ==> Owns(s.pc[t]))
      && (Holds(s'.pc[t]) ==>
        s'.seen[t] == s'.version || (Holds(s.pc[t]) && s'.seen[t] == s.seen[t] && s'.version == s.version))
  {
  }

  lemma UpToDateStep(c: Config, s: State, t: int, a: Act)
    requires |s.seen| == |s.pc| && Exact(s) && UpToDate(s) && Enabled(s, t, a)
    ensures |Apply(c, s, t, a).seen| == |Apply(c, s, t, a).pc| && UpToDate(Apply(c, s, t, a))
  {
    hide Apply, Enabled, Advance;
    var s' := Apply(c, s, t, a);
    SeenStep(c, s, t, a);
    forall u | 0 <= u < |s'.pc| && Holds(s'.pc[u]) ensures s'.seen[u] == s'.version {
      if u != t && Owns(s.pc[t]) { WriterIsAlone(s, t, u); }
    }
  }

  lemma WriterIsAlone(s: State, t: int, u: int)
    requires Exact(s) && 0 <= t < |s.pc| && Owns(s.pc[t]) && 0 <= u < |s.pc| && u != t
    ensures !Holds(s.pc[u])
  {
    CountBounds(s.pc, t);
    CountUpdate(s.pc, t, Idle);
    CountBounds(s.pc[t := Idle], u);
  }

  // ---------------------------------------------------------------- nobody sleeps for ever unnoticed

  /** A thread goes to sleep only on the current value, and leaves `lock` and `lock_shared` only
      with the lock or asleep. */
  lemma SleepStep(c: Config, s: State, t: int, a: Act)
    requires Sane(c, s) && Enabled(s, t, a) && !a.Notify?
    ensures var s' := Apply(c, s, t, a);
      && 0 <= t < |s.pc| == |s'.pc|
      && (s'.pc[t].LockAsleep? ==> s'.word == s.word != 0)
      && (s'.pc[t].SharedAsleep? ==> s'.word == s.word == WRITER)
      && (InLock(s.pc[t]) && s'.word == 0 ==> InLock(s'.pc[t]))
      && (InShared(s.pc[t]) && s'.word == 0 ==> InShared(s'.pc[t]))
      && !Owes(s.pc[t])
  {
    assert SanePC(c, s.word, s.stamp, |s.pc|, s.pc[t]);
  }

  lemma ReadersWakeStep(c: Config, s: State, t: int, a: Act)
    requires Sane(c, s) && Exact(s) && ReadersWake(s) && Enabled(s, t, a) && !a.Notify?
    ensures ReadersWake(Apply(c, s, t, a))
  {
    hide Apply, Enabled, Advance, Sane;
    var s' := Apply(c, s, t, a);
    StepShape(c, s, t, a);
    SleepStep(c, s, t, a);
    CountBounds(s.pc, t);
    forall r | 0 <= r < |s'.pc| && s'.pc[r].SharedAsleep? && s'.word != WRITER ensures AllOwed(s', s'.pc[r].since) {
      assert r != t && s.pc[r].SharedAsleep?;
      KnownValue(c, s, r);
      if s.word == WRITER {
        assert s'.pc[t].OweAll?;
      } else {
        var u :| 0 <= u < |s.pc| && s.pc[u].OweAll? && s.pc[r].since < s.pc[u].at;
        assert s'.pc[u].OweAll?;
      }
    }
  }

  lemma KnownValue(c: Config, s: State, u: int)
    requires Sane(c, s) && 0 <= u < |s.pc| && Asleep(s.pc[u])
    ensures c.useWait && s.pc[u].since <= s.stamp
    ensures if s.pc[u].SharedAsleep? then s.pc[u].known == WRITER else s.pc[u].known != 0
  {
    assert SanePC(c, s.word, s.stamp, |s.pc|, s.pc[u]);
  }

  lemma WritersWakeStep(c: Config, s: State, t: int, a: Act)
    requires Sane(c, s) && Exact(s) && WritersWake(s) && Enabled(s, t, a) && !a.Notify?
    ensures WritersWake(Apply(c, s, t, a))
  {
    hide Apply, Enabled, Advance, Sane, Exact;
    var s' := Apply(c, s, t, a);
    StepShape(c, s, t, a);
    SleepStep(c, s, t, a);
    forall w | 0 <= w < |s'.pc| && s'.pc[w].LockAsleep? && s'.word == 0
      ensures SomeOwed(s', s'.pc[w].since) || SomeoneInLock(s') || SomeoneInShared(s')
    {
      assert w != t && s.pc[w].LockAsleep?;
      KnownValue(c, s, w);
      if s.word != 0 {
        assert Owes(s'.pc[t]);
      } else if SomeOwed(s, s.pc[w].since) {
        var u :| 0 <= u < |s.pc| && Owes(s.pc[u]) && s.pc[w].since < s.pc[u].at;
        assert Owes(s'.pc[u]);
      } else if SomeoneInLock(s) {
        var u :| 0 <= u < |s.pc| && InLock(s.pc[u]);
        assert InLock(s'.pc[u]);
      } else {
        var u :| 0 <= u < |s.pc| && InShared(s.pc[u]);
        assert InShared(s'.pc[u]);
      }
    }
  }

  /** Whoever a notification leaves asleep is not eligible, or someone else was woken. */
  lemma StillAsleep(c: Config, s: State, t: int, woken: set<int>, u: int)
    requires Sane(c, s) && Enabled(s, t, Notify(woken))
    requires 0 <= u < |s.pc| && |Apply(c, s, t, Notify(woken)).pc| == |s.pc|
             && Asleep(Apply(c, s, t, Notify(woken)).pc[u])
    ensures 0 <= t < |s.pc| && u != t && u !in woken && s.pc[u] == Apply(c, s, t, Notify(woken)).pc[u] && Owes(s.pc[t])
    ensures s.pc[u].since < s.pc[t].at ==>
              s.pc[t].OweOne? && exists v :: 0 <= v < |s.pc| && v in woken && Asleep(s.pc[v])
  {
    hide Apply, Advance;
    WakeShape(c, s, t, woken);
    if s.pc[u].since < s.pc[t].at {
      assert Eligible(s, u, s.pc[t].at);
      var v :| 0 <= v < |s.pc| && Eligible(s, v, s.pc[t].at) && v in woken;
    }
  }

  lemma NotifyKeepsReaders(c: Config, s: State, t: int, woken: set<int>)
    requires Sane(c, s) && ReadersWake(s) && Enabled(s, t, Notify(woken))
    ensures ReadersWake(Apply(c, s, t, Notify(woken)))
  {
    hide Apply, Enabled, Advance, Sane;
    var s' := Apply(c, s, t, Notify(woken));
    WakeShape(c, s, t, woken);
    forall r | 0 <= r < |s'.pc| && s'.pc[r].SharedAsleep? && s'.word != WRITER ensures AllOwed(s', s'.pc[r].since) {
      StillAsleep(c, s, t, woken, r);
      var u :| 0 <= u < |s.pc| && s.pc[u].OweAll? && s.pc[r].since < s.pc[u].at;
      assert u != t && s'.pc[u].OweAll?;
    }
  }

  /** If the one thread that a `notify_one` wakes is a reader, it goes on in `lock_shared`. */
  lemma NotifyKeepsWriters(c: Config, s: State, t: int, woken: set<int>)
    requires Sane(c, s) && WritersWake(s) && Enabled(s, t, Notify(woken))
    ensures WritersWake(Apply(c, s, t, Notify(woken)))
  {
    hide Apply, Enabled, Advance, Sane;
    var s' := Apply(c, s, t, Notify(woken));
    WakeShape(c, s, t, woken);
    forall w | 0 <= w < |s'.pc| && s'.pc[w].LockAsleep? && s'.word == 0
      ensures SomeOwed(s', s'.pc[w].since) || SomeoneInLock(s') || SomeoneInShared(s')
    {
      StillAsleep(c, s, t, woken, w);
      if s.pc[w].since < s.pc[t].at {
        var v :| 0 <= v < |s.pc| && v in woken && Asleep(s.pc[v]);
        assert v != t && (InLock(s'.pc[v]) || InShared(s'.pc[v]));
      } else if SomeOwed(s, s.pc[w].since) {
        var u :| 0 <= u < |s.pc| && Owes(s.pc[u]) && s.pc[w].since < s.pc[u].at;
        assert u != t && Owes(s'.pc[u]);
      } else if SomeoneInLock(s) {
        var u :| 0 <= u < |s.pc| && InLock(s.pc[u]);
        assert InLock(s'.pc[u]);
      } else {
        var u :| 0 <= u < |s.pc| && InShared(s.pc[u]);
        assert InShared(s'.pc[u]);
      }
    }
  }

  /** Every step of every thread keeps the invariant. */
  lemma StepKeeps(c: Config, s: State, t: int, a: Act)
    requires Inv(c, s) && Enabled(s, t, a)
    ensures Inv(c, Apply(c, s, t, a))
  {
    hide Apply, Enabled, Sane, Exact, UpToDate, ReadersWake, WritersWake;
    SaneSeen(c, s);
    ExactStep(c, s, t, a);
    SaneStep(c, s, t, a);
    UpToDateStep(c, s, t, a);
    if a.Notify? {
      NotifyKeepsReaders(c, s, t, a.woken);
      NotifyKeepsWriters(c, s, t, a.woken);
    } else {
      ReadersWakeStep(c, s, t, a);
      WritersWakeStep(c, s, t, a);
    }
  }

  lemma SaneSeen(c: Config, s: State)
    requires Sane(c, s)
    ensures |s.seen| == |s.pc|
  {
  }

  lemma {:induction false} RunKeeps(c: Config, n: nat, run: seq<State>, i: nat)
    requires IsRun(c, n, run) && i < |run|
    ensures Inv(c, run[i]) && |run[i].pc| == n
  {
    if i == 0 {
      InitInv(c, n);
    } else {
      RunKeeps(c, n, run, i - 1);
      var t, a := RunStep(c, n, run, i - 1);
      StepKeeps(c, run[i - 1], t, a);
      SeenStep(c, run[i - 1], t, a);
    }
  }

  // ---------------------------------------------------------------- what holds in every run

  /** Mutual exclusion: the word is -1 exactly when one thread owns the lock and nobody
      shares it, and otherwise it is the number of threads that share it. */
  lemma Exclusion(c: Config, n: nat, run: seq<State>, i: nat)
    requires IsRun(c, n, run) && i < |run|
    ensures var s := run[i];
      && (s.word == WRITER <==> Writers(s.pc) == 1)
      && (s.word == WRITER ==> Readers(s.pc) == 0)
      && (s.word != WRITER ==> Writers(s.pc) == 0 && s.word == Readers(s.pc))
      && (forall t, u :: 0 <= t < n && 0 <= u < n && t != u && |s.pc| == n && Owns(s.pc[t]) ==> !Holds(s.pc[u]))
  {
    RunKeeps(c, n, run, i);
    var s := run[i];
    forall t, u | 0 <= t < n && 0 <= u < n && t != u && |s.pc| == n && Owns(s.pc[t]) ensures !Holds(s.pc[u]) {
      WriterIsAlone(s, t, u);
    }
  }

  /** No lost wake-up. */
  lemma NoLostWakeup(c: Config, n: nat, run: seq<State>, i: nat, u: int)
    requires IsRun(c, n, run) && i < |run| && 0 <= u < |run[i].pc| && Asleep(run[i].pc[u])
    ensures var s, since := run[i], run[i].pc[u].since;
      if s.pc[u].SharedAsleep? then s.word == WRITER || AllOwed(s, since)
      else s.word != 0 || SomeOwed(s, since) || SomeoneInLock(s) || SomeoneInShared(s)
  {
    RunKeeps(c, n, run, i);
  }

  /** As long as somebody sleeps, somebody else is inside the lock, about to notify, or
      awake in `lock` or `lock_shared`: the mutex is never free with only sleepers left. */
  lemma NeverOnlySleepers(c: Config, n: nat, run: seq<State>, i: nat)
    requires IsRun(c, n, run) && i < |run| && (exists u :: 0 <= u < |run[i].pc| && Asleep(run[i].pc[u]))
    ensures exists u ::
              && 0 <= u < |run[i].pc|
              && (Holds(run[i].pc[u]) || Owes(run[i].pc[u]) || InLock(run[i].pc[u]) || InShared(run[i].pc[u]))
  {
    hide IsRun;
    RunKeeps(c, n, run, i);
    var s := run[i];
    var r, w := CountWitness(s.pc);
    var u :| 0 <= u < |s.pc| && Asleep(s.pc[u]);
    if s.word == 0 {
      NoLostWakeup(c, n, run, i, u);
      if AllOwed(s, s.pc[u].since) {
        var v :| 0 <= v < |s.pc| && s.pc[v].OweAll? && s.pc[u].since < s.pc[v].at;
        assert Owes(s.pc[v]);
      }
    }
  }

  /** The assertions of the source: the word is negative when a writer leaves or downgrades,
      positive when a reader leaves, and a reader that is about to count itself in has seen
      fewer readers than there are threads. */
  lemma AssertionsHold(c: Config, n: nat, run: seq<State>, i: nat, t: int)
    requires IsRun(c, n, run) && i < |run| && 0 <= t < n
    ensures |run[i].pc| == n
    ensures Owns(run[i].pc[t]) ==> run[i].word < 0
    ensures Shares(run[i].pc[t]) ==> run[i].word > 0
    ensures run[i].pc[t].SharedTry? || run[i].pc[t].TryShared? ==> 0 <= run[i].pc[t].known < n
  {
    RunKeeps(c, n, run, i);
    CountBounds(run[i].pc, t);
    assert SanePC(c, run[i].word, run[i].stamp, |run[i].pc|, run[i].pc[t]);
  }

  /** While a thread keeps its share nobody changes the data: neither before a successful
      `try_upgrade` nor after a `downgrade` does another writer slip in. */
  lemma {:induction false} StableWhileShared(c: Config, n: nat, run: seq<State>, t: int, i: nat, j: nat)
    requires IsRun(c, n, run) && i <= j < |run| && 0 <= t < n
    requires forall k :: i <= k < j ==> |run[k].pc| == n && Shares(run[k].pc[t])
    ensures run[j].version == run[i].version
    decreases j
  {
    hide IsRun, Inv, Apply, Enabled;
    if i < j {
      StableWhileShared(c, n, run, t, i, j - 1);
      RunKeeps(c, n, run, j - 1);
      var u, a := RunStep(c, n, run, j - 1);
      StableStep(c, run[j - 1], u, a, t);
    }
  }

  lemma RunStep(c: Config, n: nat, run: seq<State>, i: nat) returns (t: int, a: Act)
    requires IsRun(c, n, run) && i < |run| - 1
    ensures Enabled(run[i], t, a) && run[i + 1] == Apply(c, run[i], t, a)
  {
    hide Apply, Enabled;
    assert Next(c, run[i], run[i + 1]);
    t, a :| Enabled(run[i], t, a) && run[i + 1] == Apply(c, run[i], t, a);
  }

  lemma StableStep(c: Config, s: State, u: int, a: Act, t: int)
    requires Inv(c, s) && Enabled(s, u, a) && 0 <= t < |s.pc| && Shares(s.pc[t])
    ensures Apply(c, s, u, a).version == s.version
  {
    hide Apply, Enabled, Sane, UpToDate, ReadersWake, WritersWake;
    SeenStep(c, s, u, a);
    CountBounds(s.pc, t);
    CountBounds(s.pc, u);
  }

  /** A conversion itself changes nothing but the word, and succeeds exactly when it should. */
  lemma Conversions(c: Config, n: nat, run: seq<State>, i: nat, t: int, a: Act)
    requires IsRun(c, n, run) && i < |run| && Enabled(run[i], t, a) && (a.Upgrade? || a.Downgrade?)
    ensures var s, s' := run[i], Apply(c, run[i], t, a);
      && |s'.pc| == |s.pc| && 0 <= t < |s.pc| && s'.version == s.version && s'.seen == s.seen
      && (a.Upgrade? ==>
        (Owns(s'.pc[t]) <==> Readers(s.pc) == 1) && (!Owns(s'.pc[t]) ==> Shares(s'.pc[t]) && s'.word == s.word))
      && (a.Downgrade? ==> Shares(s'.pc[t]) && s'.word == 1 && Readers(s'.pc) == 1)
  {
    RunKeeps(c, n, run, i);
    CountBounds(run[i].pc, t);
    StepKeeps(c, run[i], t, a);
  }

  /** `upgrade_or_relock` that cannot upgrade gives its share back in its next step, whatever
      the other threads do, and only then waits. */
  lemma RelockNeverBlocksSharing(c: Config, n: nat, run: seq<State>, i: nat, t: int)
    requires IsRun(c, n, run) && i < |run| && 0 <= t < n
    ensures |run[i].pc| == n
    ensures Asleep(run[i].pc[t]) || run[i].pc[t].LockWait? || run[i].pc[t].SharedWait? ==> !Holds(run[i].pc[t])
    ensures run[i].pc[t].Relocking? ==> Enabled(run[i], t, Go(false))
    ensures run[i].pc[t].Relocking? ==>
              var s' := Apply(c, run[i], t, Go(false));
              |s'.pc| == n && !Holds(s'.pc[t]) && Readers(s'.pc) == Readers(run[i].pc) - 1 && s'.word == run[i].word - 1
  {
    RunKeeps(c, n, run, i);
    CountBounds(run[i].pc, t);
    if run[i].pc[t].Relocking? { StepKeeps(c, run[i], t, Go(false)); }
  }

  // ---------------------------------------------------------------- coming in and going out

  ghost predicate Free(s: State) { forall u :: 0 <= u < |s.pc| ==> !Holds(s.pc[u]) }

  ghost predicate WriterIn(s: State) { exists u :: 0 <= u < |s.pc| && Owns(s.pc[u]) }

  lemma WordSaysWho(s: State)
    requires Exact(s)
    ensures s.word == 0 <==> Free(s)
    ensures s.word == WRITER <==> WriterIn(s)
  {
    var r, w := CountWitness(s.pc);
    if u :| 0 <= u < |s.pc| && Holds(s.pc[u]) { CountBounds(s.pc, u); }
    if u :| 0 <= u < |s.pc| && Owns(s.pc[u]) { CountBounds(s.pc, u); }
  }

  /** `try_lock` succeeds exactly on a free mutex, and otherwise changes nothing. */
  lemma TryLock(c: Config, n: nat, run: seq<State>, i: nat, t: int)
    requires IsRun(c, n, run) && i < |run| && Enabled(run[i], t, BeginTryLock)
    ensures var s, s' := run[i], Apply(c, run[i], t, BeginTryLock);
      && 0 <= t < |s'.pc| && |s'.pc| == |s'.seen|
      && (if Free(s) then Owns(s'.pc[t]) && s'.word == WRITER && s'.seen[t] == s'.version == s.version else s' == s)
  {
    hide IsRun;
    RunKeeps(c, n, run, i);
    WordSaysWho(run[i]);
  }

  /** A thread that takes `k` steps while nobody else takes one. */
  function Solo(c: Config, s: State, t: int, k: nat): (r: State)
    requires 0 <= t < |s.pc| == |s.seen|
    ensures |r.pc| == |s.pc| == |r.seen|
  {
    if k == 0 then s else Advance(c, Solo(c, s, t, k - 1), t, false)
  }

  lemma SoloThree(c: Config, s: State, t: int)
    requires 0 <= t < |s.pc| == |s.seen|
    ensures Solo(c, s, t, 1) == Advance(c, s, t, false)
    ensures Solo(c, s, t, 2) == Advance(c, Solo(c, s, t, 1), t, false)
    ensures Solo(c, s, t, 3) == Advance(c, Solo(c, s, t, 2), t, false)
  {
    assert Solo(c, s, t, 0) == s;
  }

  /** Undisturbed, a thread awake in `lock` comes to own a free mutex, and knows the data then. */
  lemma LockComesIn(c: Config, n: nat, run: seq<State>, i: nat, t: int)
    requires IsRun(c, n, run) && i < |run| && 0 <= t < n && |run[i].pc| == n && InLock(run[i].pc[t]) && Free(run[i])
    ensures |run[i].seen| == n
    ensures var s' := Solo(c, run[i], t, 3); Owns(s'.pc[t]) && s'.word == WRITER && s'.seen[t] == s'.version
  {
    hide IsRun, Exact;
    RunKeeps(c, n, run, i);
    var s := run[i];
    WordSaysWho(s);
    assert SanePC(c, s.word, s.stamp, |s.pc|, s.pc[t]);
    SoloThree(c, s, t);
  }

  /** So does one awake in `lock_shared`, or in `try_lock_shared`, come to share a mutex without a writer. */
  lemma SharedComesIn(c: Config, n: nat, run: seq<State>, i: nat, t: int)
    requires IsRun(c, n, run) && i < |run| && 0 <= t < n && |run[i].pc| == n && !WriterIn(run[i])
    requires InShared(run[i].pc[t]) || run[i].pc[t].TryShared?
    ensures |run[i].seen| == n
    ensures var s' := Solo(c, run[i], t, 3);
              s'.pc[t] == Reading && s'.word == run[i].word + 1 && s'.seen[t] == s'.version
  {
    hide IsRun, Exact;
    RunKeeps(c, n, run, i);
    var s := run[i];
    WordIsCount(s);
    WordSaysWho(s);
    assert SanePC(c, s.word, s.stamp, |s.pc|, s.pc[t]);
    SoloThree(c, s, t);
  }

  lemma WordIsCount(s: State)
    requires Exact(s)
    ensures s.word == WRITER || s.word >= 0
  {
  }

  /** `lock` and `lock_shared` begin awake; `try_lock_shared` goes on only without a writer, and gives up
      only when it finds one. */
  lemma Begins(c: Config, n: nat, run: seq<State>, i: nat, t: int, a: Act)
    requires IsRun(c, n, run) && i < |run| && Enabled(run[i], t, a)
    ensures var s, s' := run[i], Apply(c, run[i], t, a);
      && 0 <= t < |s.pc| == |s'.pc|
      && (a.BeginLock? ==> InLock(s'.pc[t]) && s'.word == s.word)
      && (a.BeginShared? ==> InShared(s'.pc[t]) && s'.word == s.word)
      && (a.BeginTryShared? ==> if WriterIn(s) then s' == s else s'.pc[t].TryShared? && s'.word == s.word)
      && (s.pc[t].TryShared? ==> (s'.pc[t].Idle? <==> WriterIn(s)) && (s'.pc[t].Idle? ==> s'.word == s.word))
  {
    hide IsRun, Exact;
    RunKeeps(c, n, run, i);
    WordIsCount(run[i]);
    WordSaysWho(run[i]);
    assert SanePC(c, run[i].word, run[i].stamp, |run[i].pc|, run[i].pc[t]);
  }

  /** `unlock` leaves the mutex free, `unlock_shared` leaves one reader less; whoever owes a notification
      then goes on as the operation it is in says. */
  lemma GoesOut(c: Config, n: nat, run: seq<State>, i: nat, t: int, a: Act)
    requires IsRun(c, n, run) && i < |run| && Enabled(run[i], t, a)
    ensures var s, s' := run[i], Apply(c, run[i], t, a);
      && 0 <= t < |s.pc| == |s'.pc|
      && (a.Unlock? ==> Free(s') && s'.word == 0 && (c.useWait ==> s'.pc[t].OweAll?) && (!c.useWait ==> s'.pc[t].Idle?))
      && (a.UnlockShared? ==>
            && !Holds(s'.pc[t]) && Readers(s'.pc) == Readers(s.pc) - 1
            && (if c.useWait && Free(s') then s'.pc[t].OweOne? else s'.pc[t].Idle?))
      && (a.Notify? ==>
            if Shares(s.pc[t]) then s'.pc[t].Reading?
            else if s.pc[t].OweOne? && s.pc[t].relock then InLock(s'.pc[t]) else s'.pc[t].Idle?)
  {
    hide IsRun, Exact;
    RunKeeps(c, n, run, i);
    StepKeeps(c, run[i], t, a);
    var s, s' := run[i], Apply(c, run[i], t, a);
    WordSaysWho(s');
    if a.UnlockShared? { ShareGoes(c, s, t, a); }
  }

  lemma ShareGoes(c: Config, s: State, t: int, a: Act)
    requires Exact(s) && Enabled(s, t, a) && a.UnlockShared?
    ensures 0 <= t < |s.pc| && Readers(Apply(c, s, t, a).pc) == Readers(s.pc) - 1
    ensures Apply(c, s, t, a).word == 0 <==> s.word == 1
  {
    var s' := Apply(c, s, t, a);
    CountBounds(s.pc, t);
    CountUpdate(s.pc, t, s'.pc[t]);
  }

  /** How many more iterations a thread spins that has made `i`. */
  function SpinsLeft(c: Config, i: nat): nat { if i < c.spin then c.spin - i else 0 }

  /** A thread in `lock` that finds the mutex taken every time goes to sleep after exactly `spin`
      iterations, fewer by those it has made; it waits for just the value it has seen. */
  lemma {:induction false} SpinsThenSleeps(c: Config, s: State, t: int, i: nat)
    requires 0 <= t < |s.pc| == |s.seen| && c.useWait && s.pc[t] == LockTop(i) && s.word != 0
    ensures forall k :: 0 <= k <= SpinsLeft(c, i) ==> Solo(c, s, t, k) == Jump(s, t, LockTop(i + k))
    ensures Solo(c, s, t, SpinsLeft(c, i) + 2) == Jump(s, t, LockAsleep(s.word, s.stamp))
  {
    forall k: nat | k <= SpinsLeft(c, i)
      ensures Solo(c, s, t, k) == Jump(s, t, LockTop(i + k)) { Spins(c, s, t, i, k); }
    var l := SpinsLeft(c, i);
    assert Solo(c, s, t, l + 1) == Advance(c, Solo(c, s, t, l), t, false);
    assert Solo(c, s, t, l + 2) == Advance(c, Solo(c, s, t, l + 1), t, false);
    assert Solo(c, s, t, l + 2).pc == s.pc[t := LockAsleep(s.word, s.stamp)];
  }

  lemma {:induction false} Spins(c: Config, s: State, t: int, i: nat, k: nat)
    requires 0 <= t < |s.pc| == |s.seen| && c.useWait && s.pc[t] == LockTop(i) && s.word != 0 && k <= SpinsLeft(c, i)
    ensures Solo(c, s, t, k) == Jump(s, t, LockTop(i + k))
  {
    if k > 0 { Spins(c, s, t, i, k - 1); }
    assert Solo(c, s, t, k).pc == s.pc[t := LockTop(i + k)];
  }

  /** The same in `lock_shared`, when there is a writer every time. */
  lemma SharedSpinsThenSleeps(c: Config, s: State, t: int, i: nat)
    requires 0 <= t < |s.pc| == |s.seen| && c.useWait && s.pc[t] == SharedTop(i) && s.word == WRITER
    ensures forall k :: 0 <= k <= SpinsLeft(c, i) ==> Solo(c, s, t, k) == Jump(s, t, SharedTop(i + k))
    ensures Solo(c, s, t, SpinsLeft(c, i) + 2) == Jump(s, t, SharedAsleep(WRITER, s.stamp))
  {
    forall k: nat | k <= SpinsLeft(c, i) ensures Solo(c, s, t, k) == Jump(s, t, SharedTop(i + k)) {
      SharedSpins(c, s, t, i, k);
    }
    var l := SpinsLeft(c, i);
    assert Solo(c, s, t, l + 1) == Advance(c, Solo(c, s, t, l), t, false);
    assert Solo(c, s, t, l + 2) == Advance(c, Solo(c, s, t, l + 1), t, false);
    assert Solo(c, s, t, l + 2).pc == s.pc[t := SharedAsleep(WRITER, s.stamp)];
  }

  lemma {:induction false} SharedSpins(c: Config, s: State, t: int, i: nat, k: nat)
    requires 0 <= t < |s.pc| == |s.seen| && c.useWait && s.pc[t] == SharedTop(i) && s.word == WRITER
             && k <= SpinsLeft(c, i)
    ensures Solo(c, s, t, k) == Jump(s, t, SharedTop(i + k))
  {
    if k > 0 { SharedSpins(c, s, t, i, k - 1); }
    assert Solo(c, s, t, k).pc == s.pc[t := SharedTop(i + k)];
  }

  /** A thread that wakes up to the value it waited on sleeps again at once; to another one, it spins one
      iteration less than a thread that has just begun. */
  lemma SpinsAgain(c: Config, s: State, t: int)
    requires 0 <= t < |s.pc| == |s.seen| && c.useWait && s.pc[t].LockAsleep? && s.word != 0
    ensures s.word == s.pc[t].known ==>
        Solo(c, Jump(s, t, Woken(s.pc[t])), t, 1) == Jump(s, t, LockAsleep(s.word, s.stamp))
    ensures s.word != s.pc[t].known ==>
        && Solo(c, Jump(s, t, Woken(s.pc[t])), t, 1) == Jump(s, t, LockTop(1))
        && Solo(c, Jump(s, t, Woken(s.pc[t])), t, SpinsLeft(c, 1) + 3) == Jump(s, t, LockAsleep(s.word, s.stamp))
  {
    var w := Jump(s, t, Woken(s.pc[t]));
    assert Solo(c, w, t, 0) == w;
    if s.word == s.pc[t].known {
      assert Solo(c, w, t, 1).pc == s.pc[t := LockAsleep(s.word, s.stamp)];
    } else {
      var u := Jump(s, t, LockTop(1));
      assert Solo(c, w, t, 1).pc == u.pc;
      SpinsThenSleeps(c, u, t, 1);
      SoloLater(c, w, t, 1, SpinsLeft(c, 1) + 2);
      assert u.pc[t := LockAsleep(s.word, s.stamp)] == s.pc[t := LockAsleep(s.word, s.stamp)];
    }
  }

  lemma {:induction false} SoloLater(c: Config, s: State, t: int, j: nat, k: nat)
    requires 0 <= t < |s.pc| == |s.seen|
    ensures Solo(c, s, t, j + k) == Solo(c, Solo(c, s, t, j), t, k)
  {
    hide Advance;
    if k > 0 { SoloLater(c, s, t, j, k - 1); }
  }

  // ---------------------------------------------------------------- relocking is not upgrading

  lemma Extend(c: Config, n: nat, run: seq<State>, t: int, a: Act) returns (more: seq<State>)
    requires IsRun(c, n, run) && Enabled(run[|run| - 1], t, a)
    ensures IsRun(c, n, more) && more == run + [Apply(c, run[|run| - 1], t, a)]
  {
    hide Apply, Enabled;
    more := run + [Apply(c, run[|run| - 1], t, a)];
    forall i | 0 <= i < |more| - 1 ensures Next(c, more[i], more[i + 1]) {
      if i < |run| - 1 {
        assert Next(c, run[i], run[i + 1]);
      } else {
        assert more[i] == run[|run| - 1];
      }
    }
  }

  /** Two readers, one of which has failed to upgrade. */
  lemma TwoReaders(c: Config) returns (run: seq<State>)
    ensures |run| > 0 && IsRun(c, 2, run) && run[|run| - 1] == State(2, 2, 0, [Relocking, Reading], [0, 0])
  {
    hide IsRun;
    run := Begin(c, 2);
    run := ReadLock(c, run, 0);
    run := ReadLock(c, run, 1);
    run := Extend(c, 2, run, 0, Upgrade(true));
    assert run[|run| - 1].pc == [Relocking, Reading];
  }

  /** The other one modifies the data while the first relocks. */
  lemma RelockMissesAChange() returns (c: Config, run: seq<State>, i: nat)
    ensures IsRun(c, 2, run) && i < |run| && |run[i].pc| == |run[|run| - 1].pc| == 2
    ensures Shares(run[i].pc[0]) && run[i].pc[0].Relocking? && Owns(run[|run| - 1].pc[0])
    ensures run[|run| - 1].version != run[i].version
  {
    hide IsRun;
    c := Config(64, true);
    run := TwoReaders(c);
    i := |run| - 1;
    ghost var at := run[i];
    run := Extend(c, 2, run, 0, Go(false));
    run := Extend(c, 2, run, 1, Upgrade(false));
    run := Extend(c, 2, run, 1, Modify);
    run := Extend(c, 2, run, 1, Unlock);
    run := Extend(c, 2, run, 0, Go(false));
    run := Extend(c, 2, run, 0, Go(false));
    assert run[i] == at;
  }

  lemma Begin(c: Config, n: nat) returns (run: seq<State>)
    ensures IsRun(c, n, run) && run == [Init(n)]
  {
    run := [Init(n)];
  }

  /** A reader comes in undisturbed. */
  lemma ReadLock(c: Config, run: seq<State>, t: int) returns (more: seq<State>)
    requires |run| > 0 && IsRun(c, 2, run) && 0 <= t < 2
    requires var s := run[|run| - 1]; |s.pc| == |s.seen| == 2 && s.pc[t].Idle? && s.word >= 0
    ensures |more| > 0 && IsRun(c, 2, more)
    ensures var s := run[|run| - 1];
      more[|more| - 1] == State(s.word + 1, s.stamp + 1, s.version, s.pc[t := Reading], s.seen[t := s.version])
  {
    hide IsRun;
    more := Extend(c, 2, run, t, BeginShared);
    more := Extend(c, 2, more, t, Go(false));
    more := Extend(c, 2, more, t, Go(false));
    var s := run[|run| - 1];
    assert more[|more| - 1].pc == s.pc[t := Reading];
  }

  // ---------------------------------------------------------------- a writer left to a reader

  /** What one would want for writers: only a notification that reaches them or a writer awake in
      `lock` is somebody to rely on. */
  ghost predicate Strict(s: State) {
    forall w :: 0 <= w < |s.pc| && s.pc[w].LockAsleep? ==>
        s.word != 0 || SomeOwed(s, s.pc[w].since) || SomeoneInLock(s)
  }

  lemma StrictStep(c: Config, s: State, t: int, a: Act)
    requires Sane(c, s) && Exact(s) && Strict(s) && Enabled(s, t, a) && !a.Notify?
    ensures Strict(Apply(c, s, t, a))
  {
    hide Apply, Enabled, Advance, Sane, Exact;
    var s' := Apply(c, s, t, a);
    StepShape(c, s, t, a);
    SleepStep(c, s, t, a);
    forall w | 0 <= w < |s'.pc| && s'.pc[w].LockAsleep? && s'.word == 0
      ensures SomeOwed(s', s'.pc[w].since) || SomeoneInLock(s')
    {
      assert w != t && s.pc[w].LockAsleep?;
      KnownValue(c, s, w);
      if s.word != 0 {
        assert Owes(s'.pc[t]);
      } else if SomeOwed(s, s.pc[w].since) {
        var u :| 0 <= u < |s.pc| && Owes(s.pc[u]) && s.pc[w].since < s.pc[u].at;
        assert Owes(s'.pc[u]);
      } else {
        var u :| 0 <= u < |s.pc| && InLock(s.pc[u]);
        assert InLock(s'.pc[u]);
      }
    }
  }

  /** Waking a reader instead of a writer takes four threads: the one that notifies, the reader,
      the writer, and the one whose `notify_all` the reader has still to expect. */
  lemma WokenIsWriter(s: State, t: int, v: int, w: int)
    requires ReadersWake(s) && s.word == 0 && |s.pc| <= 3 && 0 <= t < |s.pc| && s.pc[t].OweOne?
    requires 0 <= v < |s.pc| && Asleep(s.pc[v]) && 0 <= w < |s.pc| && s.pc[w].LockAsleep? && v != w
    ensures s.pc[v].LockAsleep?
  {
    if s.pc[v].SharedAsleep? {
      var u :| 0 <= u < |s.pc| && s.pc[u].OweAll? && s.pc[v].since < s.pc[u].at;
      assert false;
    }
  }

  lemma NotifyKeepsStrict(c: Config, s: State, t: int, woken: set<int>)
    requires Sane(c, s) && ReadersWake(s) && Strict(s) && |s.pc| <= 3 && Enabled(s, t, Notify(woken))
    ensures Strict(Apply(c, s, t, Notify(woken)))
  {
    hide Apply, Enabled, Advance, Sane;
    var s' := Apply(c, s, t, Notify(woken));
    WakeShape(c, s, t, woken);
    forall w | 0 <= w < |s'.pc| && s'.pc[w].LockAsleep? && s'.word == 0
      ensures SomeOwed(s', s'.pc[w].since) || SomeoneInLock(s')
    {
      StillAsleep(c, s, t, woken, w);
      if s.pc[w].since < s.pc[t].at {
        var v :| 0 <= v < |s.pc| && v in woken && Asleep(s.pc[v]);
        WokenIsWriter(s, t, v, w);
        assert v != t && InLock(s'.pc[v]);
      } else if SomeOwed(s, s.pc[w].since) {
        var u :| 0 <= u < |s.pc| && Owes(s.pc[u]) && s.pc[w].since < s.pc[u].at;
        assert u != t && Owes(s'.pc[u]);
      } else {
        var u :| 0 <= u < |s.pc| && InLock(s.pc[u]);
        assert InLock(s'.pc[u]);
      }
    }
  }

  lemma {:induction false} FewThreadsAreStrict(c: Config, n: nat, run: seq<State>, i: nat)
    requires IsRun(c, n, run) && i < |run| && n <= 3
    ensures Strict(run[i])
  {
    hide IsRun, Apply, Enabled, Sane, Exact, UpToDate, ReadersWake, WritersWake, Strict;
    RunKeeps(c, n, run, i);
    if i == 0 {
      StartIsStrict(c, n, run);
    } else {
      FewThreadsAreStrict(c, n, run, i - 1);
      RunKeeps(c, n, run, i - 1);
      var t, a := RunStep(c, n, run, i - 1);
      if a.Notify? { NotifyKeepsStrict(c, run[i - 1], t, a.woken); } else { StrictStep(c, run[i - 1], t, a); }
    }
  }

  lemma StartIsStrict(c: Config, n: nat, run: seq<State>)
    requires IsRun(c, n, run)
    ensures Strict(run[0])
  {
  }

  lemma NobodySleepsIsStrict(c: Config, s: State)
    requires Sane(c, s) && !c.useWait
    ensures Strict(s)
  {
    forall w | 0 <= w < |s.pc| ensures !s.pc[w].LockAsleep? {
      assert SanePC(c, s.word, s.stamp, |s.pc|, s.pc[w]);
    }
  }

  // A run with four threads or more, whatever the number of spins.

  function Four(n: nat, p0: PC, p1: PC, p2: PC, p3: PC): seq<PC> {
    seq(n, u => if u == 0 then p0 else if u == 1 then p1 else if u == 2 then p2 else if u == 3 then p3 else Idle)
  }

  ghost predicate Ends(c: Config, n: nat, run: seq<State>, word: int, stamp: nat, pc: seq<PC>) {
    |run| > 0 && IsRun(c, n, run) && (var s := run[|run| - 1];
        s.word == word && s.stamp == stamp && s.pc == pc && |s.seen| == n)
  }

  /** A thread in `lock` that finds the mutex taken spins and then goes to sleep. */
  lemma {:induction false} SpinInLock(c: Config, n: nat, run: seq<State>, t: int, i: nat) returns (more: seq<State>)
    requires IsRun(c, n, run) && |run| > 0 && c.useWait && i <= c.spin
    requires var s := run[|run| - 1]; 0 <= t < |s.pc| == |s.seen| && s.pc[t] == LockTop(i) && s.word != 0
    ensures |more| > 0 && IsRun(c, n, more)
    ensures var s := run[|run| - 1]; 0 <= t < |s.pc| && more[|more| - 1] == Jump(s, t, LockAsleep(s.word, s.stamp))
    decreases c.spin - i
  {
    hide IsRun;
    var s := run[|run| - 1];
    more := Extend(c, n, run, t, Go(false));
    if i < c.spin {
      more := SpinInLock(c, n, more, t, i + 1);
    } else {
      more := Extend(c, n, more, t, Go(false));
    }
    assert more[|more| - 1].pc == s.pc[t := LockAsleep(s.word, s.stamp)];
  }

  /** So does one in `lock_shared` that finds a writer. */
  lemma {:induction false} SpinInShared(c: Config, n: nat, run: seq<State>, t: int, i: nat) returns (more: seq<State>)
    requires IsRun(c, n, run) && |run| > 0 && c.useWait && i <= c.spin
    requires var s := run[|run| - 1]; 0 <= t < |s.pc| == |s.seen| && s.pc[t] == SharedTop(i) && s.word == WRITER
    ensures |more| > 0 && IsRun(c, n, more)
    ensures var s := run[|run| - 1]; 0 <= t < |s.pc| && more[|more| - 1] == Jump(s, t, SharedAsleep(WRITER, s.stamp))
    decreases c.spin - i
  {
    hide IsRun;
    var s := run[|run| - 1];
    more := Extend(c, n, run, t, Go(false));
    if i < c.spin {
      more := SpinInShared(c, n, more, t, i + 1);
    } else {
      more := Extend(c, n, more, t, Go(false));
    }
    assert more[|more| - 1].pc == s.pc[t := SharedAsleep(WRITER, s.stamp)];
  }

  /** While thread 0 has the lock, thread 1 goes to sleep in `lock_shared`; thread 0 leaves. */
  lemma ReaderSleeps(c: Config, n: nat) returns (run: seq<State>)
    requires c.useWait && n >= 4
    ensures Ends(c, n, run, 0, 2, Four(n, OweAll(false, 2), SharedAsleep(WRITER, 1), Idle, Idle))
  {
    hide IsRun;
    run := Begin(c, n);
    run := Extend(c, n, run, 0, BeginTryLock);
    run := Extend(c, n, run, 1, BeginShared);
    run := SpinInShared(c, n, run, 1, 0);
    run := Extend(c, n, run, 0, Unlock);
    assert run[|run| - 1].pc == Four(n, OweAll(false, 2), SharedAsleep(WRITER, 1), Idle, Idle);
  }

  /** Before thread 0 notifies anybody, thread 2 comes in as a reader and thread 3 goes to sleep
      in `lock`; thread 2 leaves. */
  lemma WriterSleeps(c: Config, n: nat, run: seq<State>) returns (more: seq<State>)
    requires c.useWait && n >= 4
    requires Ends(c, n, run, 0, 2, Four(n, OweAll(false, 2), SharedAsleep(WRITER, 1), Idle, Idle))
    ensures Ends(c, n, more, 0, 4,
                 Four(n, OweAll(false, 2), SharedAsleep(WRITER, 1), OweOne(false, 4), LockAsleep(1, 3)))
  {
    hide IsRun;
    more := Extend(c, n, run, 2, BeginTryShared);
    more := Extend(c, n, more, 2, Go(false));
    more := Extend(c, n, more, 3, BeginLock);
    more := SpinInLock(c, n, more, 3, 0);
    more := Extend(c, n, more, 2, UnlockShared);
    assert more[|more| - 1].pc == Four(n, OweAll(false, 2), SharedAsleep(WRITER, 1), OweOne(false, 4),
           LockAsleep(1, 3));
  }

  /** The `notify_one` of thread 2 reaches the reader. */
  lemma ReaderWoken(c: Config, n: nat, run: seq<State>) returns (more: seq<State>)
    requires n >= 4
    requires Ends(c, n, run, 0, 4,
                  Four(n, OweAll(false, 2), SharedAsleep(WRITER, 1), OweOne(false, 4), LockAsleep(1, 3)))
    ensures Ends(c, n, more, 0, 4, Four(n, OweAll(false, 2), SharedWait(WRITER), Idle, LockAsleep(1, 3)))
  {
    hide IsRun;
    var s := run[|run| - 1];
    assert Eligible(s, 1, 4) && 1 in {1};
    more := Extend(c, n, run, 2, Notify({1}));
    WakeShape(c, s, 2, {1});
    assert more[|more| - 1].pc == Four(n, OweAll(false, 2), SharedWait(WRITER), Idle, LockAsleep(1, 3));
  }

  /** The `notify_all` of thread 0 need not reach the writer, which went to sleep after the change
      that it announces. */
  lemma NobodyWoken(c: Config, n: nat, run: seq<State>) returns (more: seq<State>)
    requires n >= 4 && Ends(c, n, run, 0, 4, Four(n, OweAll(false, 2), SharedWait(WRITER), Idle, LockAsleep(1, 3)))
    ensures Ends(c, n, more, 0, 4, Four(n, Idle, SharedWait(WRITER), Idle, LockAsleep(1, 3)))
  {
    hide IsRun;
    var s := run[|run| - 1];
    more := Extend(c, n, run, 0, Notify({}));
    WakeShape(c, s, 0, {});
    assert more[|more| - 1].pc == Four(n, Idle, SharedWait(WRITER), Idle, LockAsleep(1, 3));
  }

  /** Now the mutex is free, a writer sleeps, no notification is owed and no writer is awake: the
      reader that was woken is the one that will notify it when it leaves. */
  lemma WriterLeftToAReader(c: Config, n: nat) returns (run: seq<State>)
    requires c.useWait && n >= 4
    ensures IsRun(c, n, run) && |run| > 0
    ensures var s := run[|run| - 1];
      && |s.pc| == n && s.word == 0 && s.pc[3].LockAsleep? && !SomeoneInLock(s)
      && (forall u :: 0 <= u < n ==> !Owes(s.pc[u]) && !Holds(s.pc[u]))
      && !Strict(s)
  {
    hide IsRun;
    run := ReaderSleeps(c, n);
    run := WriterSleeps(c, n, run);
    run := ReaderWoken(c, n, run);
    run := NobodyWoken(c, n, run);
  }

  /** The stricter guarantee for writers holds in every run exactly if threads never wait or there
      are at most three of them. */
  lemma StrictExactlyForThreeThreads(c: Config, n: nat)
    ensures (forall run, i: nat :: IsRun(c, n, run) && i < |run| ==> Strict(run[i])) <==> !c.useWait || n <= 3
  {
    hide IsRun, Strict;
    if !c.useWait || n <= 3 {
      forall run, i: nat | IsRun(c, n, run) && i < |run| ensures Strict(run[i]) {
        RunKeeps(c, n, run, i);
        if n <= 3 { FewThreadsAreStrict(c, n, run, i); } else { NobodySleepsIsStrict(c, run[i]); }
      }
    } else {
      var run := WriterLeftToAReader(c, n);
      assert !Strict(run[|run| - 1]);
    }
  }
}
