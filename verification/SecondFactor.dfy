/**
 The second factor (CheckSecondFactor in packs/auth/stepup.go): one account's enrolled factor, its
 conditional updates, and every interleaving of the checks made between enrolments.
 */
module SecondFactor {
  import opened Wrappers
  import opened Totp

  const MAX_FAILURES := 10
  const FAIL_WINDOW := 15 * 60 * SECOND

  datatype Row = Row(lastStep: int, codes: seq<string>, failedCount: nat, failedAt: Option<nat>)

  datatype Outcome = Passed | CodeRequired | Locked | Invalid

  predicate IsLocked(row: Row, now: nat) {
    row.failedAt.Some? && now - row.failedAt.value < FAIL_WINDOW && row.failedCount >= MAX_FAILURES
  }

  // ---- The statements ----

  // A time step is used when it is later than the last one.
  function TimeStepUsed(row: Row, step: int): Option<Row> {
    if row.lastStep < step then Some(Row(step, row.codes, 0, None)) else None
  }

  // A recovery code is used when the codes are still those seen.
  function CodeUsed(row: Row, seen: seq<string>, left: seq<string>): Option<Row> {
    if row.codes == seen then Some(Row(row.lastStep, left, 0, None)) else None
  }

  function Failed(row: Row, now: nat): Row {
    if row.failedAt.None? || row.failedAt.value < now - FAIL_WINDOW then row.(failedCount := 1, failedAt := Some(now))
    else row.(failedCount := row.failedCount + 1)
  }

  // What a check makes of the row it read: a time step, a recovery code, or nothing.
  datatype Verdict = TimeStep(step: int) | Recovery(code: string) | Wrong

  // gen is the code of each time step, hash the stored form of a recovery code.
  datatype Secret = Secret(gen: int -> Option<string>, hash: string -> string)

  // The code of a time step no further than one from the clock's, spaces aside.
  ghost predicate IsCodeOf(k: Secret, code: string, now: nat, s: int) {
    |Clean(code)| == DIGITS && k.gen(s) == Some(Clean(code)) && StepAt(now) - 1 <= s <= StepAt(now) + 1
  }

  ghost predicate Judges(k: Secret, row: Row, code: string, now: nat, v: Verdict) {
    match v
    case TimeStep(s) =>
      && Matches(k.gen, code, now, row.lastStep, s)
      && forall t :: Matches(k.gen, code, now, row.lastStep, t) ==> s <= t
    case Recovery(h) => (forall t :: !Matches(k.gen, code, now, row.lastStep, t)) && h == k.hash(code) && h in row.codes
    case Wrong => (forall t :: !Matches(k.gen, code, now, row.lastStep, t)) && k.hash(code) !in row.codes
  }

  // The row after the update a verdict on what was seen leads to, and whether the check passes.
  function Committed(row: Row, seen: Row, v: Verdict, now: nat): (Row, bool) {
    var used := match v
      case TimeStep(s) => TimeStepUsed(row, s)
      case Recovery(h) => CodeUsed(row, seen.codes, Without(seen.codes, h))
      case Wrong => None;
    if used.Some? then (used.value, true) else (Failed(row, now), false)
  }

  /** One account's factor; the checks one after the other. */
  class Factor {
    const k: Secret
    var row: Row

    constructor (k: Secret, step: int, codes: seq<string>)
      ensures this.k == k && row == Row(step, codes, 0, None)
    {
      this.k, row := k, Row(step, codes, 0, None);
    }

    method CheckSecondFactor(code: string, now: nat) returns (o: Outcome)
      modifies this
      ensures o == CodeRequired <==> Text.TrimSpace(code) == ""
      ensures o == Locked <==> Text.TrimSpace(code) != "" && IsLocked(old(row), now)
      ensures o == CodeRequired || o == Locked ==> row == old(row)
      ensures o == Locked ==> old(row).failedCount >= MAX_FAILURES && old(row).failedAt.Some?
      ensures o == Locked ==> now - old(row).failedAt.value < FAIL_WINDOW
      ensures (exists s :: IsCodeOf(k, code, now, s) && old(row).lastStep < s) ==> o == Passed || o == Locked
      ensures k.hash(code) in old(row).codes && Text.TrimSpace(code) != "" ==> o == Passed || o == Locked
      ensures o == Passed || o == Invalid ==>
                (exists v :: Judges(k, old(row), code, now, v) && (o == Passed <==> v != Wrong)
                             && row == Committed(old(row), old(row), v, now).0)
    {
      if Text.TrimSpace(code) == "" {
        return CodeRequired;
      }
      if row.failedAt.Some? && now - row.failedAt.value < FAIL_WINDOW && row.failedCount >= MAX_FAILURES {
        return Locked;
      }
      ghost var v: Verdict;
      var step := VerifyTOTP(k.gen, code, now, row.lastStep);
      if step.Some? {
        v := TimeStep(step.value);
        assert Judges(k, row, code, now, v);
        row := Row(step.value, row.codes, 0, None);
        return Passed;
      }
      var left, ok := UseBackupCode(row.codes, k.hash(code));
      if ok {
        v := Recovery(k.hash(code));
        assert Judges(k, row, code, now, v);
        row := Row(row.lastStep, left, 0, None);
        return Passed;
      }
      assert Judges(k, row, code, now, Wrong);
      assert forall s :: IsCodeOf(k, code, now, s) ==> s <= row.lastStep || Matches(k.gen, code, now, row.lastStep, s);
      FactorFailed(now);
      return Invalid;
    }

    method FactorFailed(now: nat)
      modifies this
      ensures row == Failed(old(row), now)
    {
      if row.failedAt.None? || row.failedAt.value < now - FAIL_WINDOW {
        row := row.(failedCount := 1, failedAt := Some(now));
      } else {
        row := row.(failedCount := row.failedCount + 1);
      }
    }
  }

  // ---- Every interleaving ----

  // A check that has read the row and judged the code.
  datatype Check = Check(seen: Row, now: nat, verdict: Verdict)

  datatype Use = UsedStep(step: int, now: nat) | UsedCode(code: string)

  // uses: the checks that passed, in order; known: every recovery code ever issued.
  datatype State = State(row: Row, checks: map<nat, Check>, uses: seq<Use>, known: set<string>)

  datatype Step =
    | Read(call: nat, code: string, now: nat, verdict: Verdict)
    | Commit(call: nat)
    | NewCodes(codes: seq<string>)

  ghost predicate Distinct(codes: seq<string>) {
    forall i, j :: 0 <= i < j < |codes| ==> codes[i] != codes[j]
  }

  ghost predicate AllNew(codes: seq<string>, known: set<string>) {
    Distinct(codes) && forall h :: h in codes ==> h !in known
  }

  ghost function Apply(k: Secret, s: State, e: Step): State {
    match e
    case Read(call, code, now, v) =>
      if call in s.checks || IsLocked(s.row, now) || !Judges(k, s.row, code, now, v) then s
      else s.(checks := s.checks[call := Check(s.row, now, v)])
    case Commit(call) =>
      if call !in s.checks then s
      else
        var c := s.checks[call];
        var (row, passed) := Committed(s.row, c.seen, c.verdict, c.now);
        var use := match c.verdict
          case TimeStep(t) => [UsedStep(t, c.now)]
          case Recovery(h) => [UsedCode(h)]
          case Wrong => [];
        State(row, s.checks - {call}, if passed then s.uses + use else s.uses, s.known)
    case NewCodes(codes) =>
      if !AllNew(codes, s.known) then s
      else s.(row := s.row.(codes := codes), known := s.known + set h | h in codes)
  }

  ghost function Exec(k: Secret, s: State, es: seq<Step>): State {
    if es == [] then s else Apply(k, Exec(k, s, es[..|es| - 1]), es[|es| - 1])
  }

  ghost predicate Inv(s: State) {
    && Distinct(s.row.codes)
    && (forall h :: h in s.row.codes ==> h in s.known)
    && (forall c :: c in s.checks ==> CheckOk(s.checks[c]))
    && (forall i :: 0 <= i < |s.uses| ==> UseOk(s, s.uses[i]))
    && (forall i, j :: 0 <= i < j < |s.uses| ==> Apart(s.uses[i], s.uses[j]))
  }

  ghost predicate CheckOk(c: Check) {
    match c.verdict
    case TimeStep(t) => StepAt(c.now) - SKEW <= t <= StepAt(c.now) + SKEW
    case Recovery(h) => h in c.seen.codes
    case Wrong => true
  }

  ghost predicate UseOk(s: State, u: Use) {
    match u
    case UsedStep(t, now) => t <= s.row.lastStep && StepAt(now) - SKEW <= t <= StepAt(now) + SKEW
    case UsedCode(h) => h in s.known && h !in s.row.codes
  }

  // An earlier and a later use: time steps strictly increase, recovery codes differ.
  ghost predicate Apart(u: Use, v: Use) {
    match (u, v)
    case (UsedStep(a, _), UsedStep(b, _)) => a < b
    case (UsedCode(g), UsedCode(h)) => g != h
    case _ => true
  }

  lemma {:induction false} WithoutDistinct(codes: seq<string>, h: string)
    requires Distinct(codes) && h in codes
    ensures Distinct(Without(codes, h)) && h !in Without(codes, h)
    ensures forall g :: g in Without(codes, h) ==> g in codes
  {
    if codes[0] != h {
      assert codes == [codes[0]] + codes[1..];
      WithoutDistinct(codes[1..], h);
      var rest := Without(codes[1..], h);
      assert forall j :: 0 <= j < |rest| ==> rest[j] in rest;
    }
  }

  lemma CommitKeepsInv(k: Secret, s: State, call: nat)
    requires Inv(s) && call in s.checks
    ensures Inv(Apply(k, s, Commit(call)))
  {
    var c, u := s.checks[call], Apply(k, s, Commit(call));
    assert CheckOk(c);
    if c.verdict.Recovery? && s.row.codes == c.seen.codes {
      WithoutDistinct(s.row.codes, c.verdict.code);
    }
    forall i | 0 <= i < |u.uses| ensures UseOk(u, u.uses[i]) {
      if i < |s.uses| {
        assert UseOk(s, s.uses[i]);
      }
    }
    forall i, j | 0 <= i < j < |u.uses| ensures Apart(u.uses[i], u.uses[j]) {
      assert UseOk(s, s.uses[i]);
    }
  }

  lemma StepKeepsInv(k: Secret, s: State, e: Step)
    requires Inv(s)
    ensures Inv(Apply(k, s, e))
  {
    match e
    case Read(call, code, now, v) =>
    case Commit(call) =>
      if call in s.checks {
        CommitKeepsInv(k, s, call);
      }
    case NewCodes(codes) =>
      var u := Apply(k, s, e);
      forall i | 0 <= i < |u.uses| ensures UseOk(u, u.uses[i]) {
        assert UseOk(s, s.uses[i]);
      }
  }

  lemma {:induction false} RunKeepsInv(k: Secret, es: seq<Step>, step: int, codes: seq<string>)
    requires Distinct(codes)
    ensures Inv(Exec(k, Enrolled(step, codes), es)) && UsesAfter(Exec(k, Enrolled(step, codes), es), step)
  {
    if es != [] {
      RunKeepsInv(k, es[..|es| - 1], step, codes);
      StepKeepsInv(k, Exec(k, Enrolled(step, codes), es[..|es| - 1]), es[|es| - 1]);
    }
  }

  // Every time step that passed is later than the enrolment's.
  ghost predicate UsesAfter(s: State, step: int) {
    step <= s.row.lastStep && forall i :: 0 <= i < |s.uses| && s.uses[i].UsedStep? ==> step < s.uses[i].step
  }

  ghost function Enrolled(step: int, codes: seq<string>): State {
    State(Row(step, codes, 0, None), map[], [], set h | h in codes)
  }

  /** Under any interleaving of checks between enrolments the time steps that pass strictly increase
      from the enrolment's own and lie within one step of the check's clock, and each recovery code
      passes at most once: no code wins twice. */
  lemma NoCodeWinsTwice(k: Secret, es: seq<Step>, step: int, codes: seq<string>)
    requires Distinct(codes)
    ensures var uses := Exec(k, Enrolled(step, codes), es).uses;
            && (forall i :: 0 <= i < |uses| && uses[i].UsedStep? ==>
                  step < uses[i].step && -SKEW <= uses[i].step - StepAt(uses[i].now) <= SKEW)
            && (forall i, j :: 0 <= i < j < |uses| && uses[i].UsedStep? && uses[j].UsedStep? ==>
                  uses[i].step < uses[j].step)
            && (forall i, j :: 0 <= i < j < |uses| && uses[i].UsedCode? && uses[j].UsedCode? ==>
                  uses[i].code != uses[j].code)
  {
    RunKeepsInv(k, es, step, codes);
    var s := Exec(k, Enrolled(step, codes), es);
    assert forall i :: 0 <= i < |s.uses| ==> UseOk(s, s.uses[i]);
    assert forall i, j :: 0 <= i < j < |s.uses| ==> Apart(s.uses[i], s.uses[j]);
  }

  // ---- The lockout, for checks one after the other ----

  ghost predicate Counted(row: Row) {
    row.failedCount <= MAX_FAILURES && (row.failedCount > 0 ==> row.failedAt.Some?)
  }

  /** A check that finds the account open leaves at most ten failures on the count, but for a wrong
      code at the very instant the window of ten failures ends: the lock has just opened and the
      count has not yet restarted, so it becomes eleven. */
  lemma FailuresAreBounded(k: Secret, row: Row, code: string, now: nat, v: Verdict)
    requires Counted(row) && !IsLocked(row, now) && Judges(k, row, code, now, v)
    requires row.failedAt.Some? ==> row.failedAt.value <= now
    ensures Counted(Committed(row, row, v, now).0) <==>
            !(v == Wrong && row.failedCount == MAX_FAILURES && now - row.failedAt.value == FAIL_WINDOW)
  {
  }

  // ---- The lockout, for checks that race ----

  // No check reads its clock after the window of ten failures or more has ended.
  ghost predicate BeforeTheEnd(k: Secret, s: State, es: seq<Step>) {
    forall i :: 0 <= i < |es| && es[i].Read? ==> InWindow(Exec(k, s, es[..i]).row, es[i].now)
  }

  predicate InWindow(row: Row, now: nat) {
    row.failedCount >= MAX_FAILURES ==> row.failedAt.Some? && now - row.failedAt.value < FAIL_WINDOW
  }

  lemma LockedSteps(k: Secret, s: State, e: Step)
    requires s.row.failedCount >= MAX_FAILURES && (e.Read? ==> InWindow(s.row, e.now))
    ensures var u := Apply(k, s, e);
            u.row.failedCount <= 1 || u.row.failedCount + |u.checks| <= s.row.failedCount + |s.checks|
  {
    if e.Commit? && e.call in s.checks {
      assert (s.checks - {e.call}).Keys == s.checks.Keys - {e.call};
      assert |s.checks.Keys| == |s.checks| && |(s.checks - {e.call}).Keys| == |s.checks - {e.call}|;
    }
  }

  /** Under any interleaving, until the window ends, the failures counted and the checks still under way
      are together at most ten and the checks that were under way when the tenth was counted. */
  lemma {:induction false} OnlyChecksUnderWayAdd(k: Secret, s: State, es: seq<Step>) returns (i: nat)
    requires s.row.failedCount <= MAX_FAILURES && BeforeTheEnd(k, s, es)
    requires Exec(k, s, es).row.failedCount >= MAX_FAILURES
    ensures i <= |es| && Exec(k, s, es[..i]).row.failedCount == MAX_FAILURES
    ensures Exec(k, s, es).row.failedCount + |Exec(k, s, es).checks| <= MAX_FAILURES + |Exec(k, s, es[..i]).checks|
  {
    if Exec(k, s, es).row.failedCount == MAX_FAILURES {
      i := |es|;
      assert es[..i] == es;
    } else {
      var n := |es| - 1;
      var before := Exec(k, s, es[..n]);
      assert forall j :: 0 <= j < n ==> es[..n][j] == es[j] && es[..n][..j] == es[..j];
      StepCounts(k, before, es[n]);
      i := OnlyChecksUnderWayAdd(k, s, es[..n]);
      assert es[..n][..i] == es[..i];
      LockedSteps(k, before, es[n]);
    }
  }

  lemma StepCounts(k: Secret, s: State, e: Step)
    ensures Apply(k, s, e).row.failedCount <= s.row.failedCount + 1
  {
  }

  /** Once ten failures are counted and no check is under way, no code is looked at any more until the
      window ends, on any run: the count stays, and nothing passes. */
  lemma {:induction false} TenFailuresLock(k: Secret, s: State, es: seq<Step>)
    requires s.row.failedCount >= MAX_FAILURES && s.checks == map[] && BeforeTheEnd(k, s, es)
    ensures var u := Exec(k, s, es);
            && u.checks == map[] && u.uses == s.uses
            && u.row.failedCount == s.row.failedCount && u.row.failedAt == s.row.failedAt
  {
    if es != [] {
      var n := |es| - 1;
      assert forall j :: 0 <= j < n ==> es[..n][j] == es[j] && es[..n][..j] == es[..j];
      TenFailuresLock(k, s, es[..n]);
    }
  }
}
