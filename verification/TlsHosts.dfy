/**
 The host policy of the TLS server (tls_hosts.go): cached verdicts of the app's hook, the status the
 admin pages read, and the capped refusal log.
 */
module TlsHosts {
  import opened Wrappers

  const SECOND := 1_000_000_000
  const MINUTE := 60 * SECOND
  const APPROVE_TTL := 5 * MINUTE
  const REFUSE_TTL := MINUTE
  const MAX_VERDICTS := 10000
  const REFUSALS_KEPT := 50
  const REFUSAL_LOGS := 20

  function TTL(ok: bool): int {
    if ok then APPROVE_TTL else REFUSE_TTL
  }

  // ---- The status ----

  datatype Refusal = Refusal(host: string, reason: string, at: int)

  function Last<T>(s: seq<T>, n: nat): seq<T> {
    if |s| > n then s[|s| - n..] else s
  }

  class Status {
    const domains: seq<string>
    var expiry: map<string, int>
    var approved: map<string, int>
    var refused: seq<Refusal>
    ghost var history: seq<Refusal>

    /** The refusals shown are the latest 50 of all, and an expiry is kept only for a listed or
        approved host. */
    ghost predicate Valid()
      reads this
    {
      && refused == Last(history, REFUSALS_KEPT)
      && (forall h :: h in expiry ==> h in approved || h in domains)
      && |approved| <= MAX_VERDICTS
    }

    constructor (domains: seq<string>)
      ensures Valid() && this.domains == domains && expiry == map[] && approved == map[] && history == []
    {
      this.domains, expiry, approved, refused, history := domains, map[], map[], [], [];
    }

    method Approve(host: string, at: int)
      requires Valid()
      modifies this`approved
      ensures Valid()
      ensures approved == if host in old(approved) || |old(approved)| < MAX_VERDICTS then old(approved)[host := at]
          else old(approved)
    {
      if host !in approved && |approved| >= MAX_VERDICTS {
        return;
      }
      assert host in approved ==> approved[host := at].Keys == approved.Keys;
      approved := approved[host := at];
    }

    method Refuse(host: string, reason: string, at: int)
      requires Valid()
      modifies this
      ensures Valid() && history == old(history) + [Refusal(host, reason, at)]
      ensures approved == old(approved) - {host} && expiry == old(expiry) - {host}
    {
      ghost var before := approved;
      approved := approved - {host};
      expiry := expiry - {host};
      assert approved.Keys == before.Keys - {host};
      refused := refused + [Refusal(host, reason, at)];
      history := history + [Refusal(host, reason, at)];
      if |refused| > REFUSALS_KEPT {
        refused := refused[|refused| - REFUSALS_KEPT..];
      }
    }

    method Served(host: string, expires: int)
      requires Valid()
      modifies this`expiry
      ensures Valid()
      ensures expiry == if host in approved || host in domains then old(expiry)[host := expires] else old(expiry)
    {
      if host in approved || host in domains {
        expiry := expiry[host := expires];
      }
    }
  }

  // ---- The refusal log ----

  // A log line and the unlogged refusals it reports.
  datatype Line = Line(unloggedBefore: nat)

  datatype Log = Log(slot: Option<int>, logged: nat, dropped: nat, lines: seq<Line>)

  const NO_LOG := Log(None, 0, 0, [])

  function Slot(now: int): int {
    now - now % MINUTE
  }

  /** Two times share a slot exactly when they fall in one minute. */
  lemma SlotIsTheMinute(a: int, b: int)
    ensures Slot(a) == Slot(b) <==> a / MINUTE == b / MINUTE
  {
    assert a == a / MINUTE * MINUTE + a % MINUTE && b == b / MINUTE * MINUTE + b % MINUTE;
  }

  function LogOne(l: Log, now: int): Log {
    var same := l.slot == Some(Slot(now));
    var logged := if same then l.logged else 0;
    if logged >= REFUSAL_LOGS then l.(dropped := l.dropped + 1)
    else if same then l.(logged := logged + 1, lines := l.lines + [Line(0)])
    else Log(Some(Slot(now)), 1, 0, l.lines + [Line(l.dropped)])
  }

  function LogAll(l: Log, nows: seq<int>): Log {
    if nows == [] then l else LogOne(LogAll(l, nows[..|nows| - 1]), nows[|nows| - 1])
  }

  function Reported(lines: seq<Line>): nat {
    if lines == [] then 0 else Reported(lines[..|lines| - 1]) + lines[|lines| - 1].unloggedBefore
  }

  /** Every refusal is accounted for: logged, reported as unlogged by a later line, or still to be
      reported. */
  lemma {:induction false} RefusalsAreConserved(nows: seq<int>)
    ensures var l := LogAll(NO_LOG, nows); |l.lines| + Reported(l.lines) + l.dropped == |nows|
  {
    if nows != [] {
      RefusalsAreConserved(nows[..|nows| - 1]);
      var before, after := LogAll(NO_LOG, nows[..|nows| - 1]), LogAll(NO_LOG, nows);
      if |after.lines| > |before.lines| {
        assert after.lines[..|after.lines| - 1] == before.lines;
      }
    }
  }

  /** Refusals that follow each other in one minute get at most twenty lines between them. */
  lemma {:induction false} AtMostTwentyLines(l: Log, nows: seq<int>, slot: int)
    requires forall i :: 0 <= i < |nows| ==> Slot(nows[i]) == slot
    requires l.slot == Some(slot) ==> l.logged <= REFUSAL_LOGS
    ensures var after := LogAll(l, nows);
            && |after.lines| - |l.lines| <= REFUSAL_LOGS - (if l.slot == Some(slot) then l.logged else 0)
            && (nows != [] ==> after.slot == Some(slot))
            && (after.slot == Some(slot) ==> after.logged <= REFUSAL_LOGS)
            && (after.slot == Some(slot) ==>
                after.logged == |after.lines| - |l.lines| + (if l.slot == Some(slot) then l.logged else 0))
  {
    if nows != [] {
      AtMostTwentyLines(l, nows[..|nows| - 1], slot);
    }
  }

  lemma {:induction false} LogSoFar(nows: seq<int>)
    requires nows != []
    ensures LogAll(NO_LOG, nows).slot == Some(Slot(nows[|nows| - 1]))
  {
    if |nows| > 1 {
      LogSoFar(nows[..|nows| - 1]);
    } else {
      assert nows[..0] == [];
    }
  }

  /** Exactly: each run of refusals in one minute, up to a refusal in another, adds its first twenty lines. */
  lemma {:induction false} EachRunAddsTwenty(before: seq<int>, run: seq<int>, slot: int)
    requires run != [] && forall i :: 0 <= i < |run| ==> Slot(run[i]) == slot
    requires before != [] ==> Slot(before[|before| - 1]) != slot
    ensures var l := LogAll(NO_LOG, before + run);
            && |l.lines| - |LogAll(NO_LOG, before).lines| == l.logged ==
                (if |run| < REFUSAL_LOGS then |run| else REFUSAL_LOGS)
            && l.slot == Some(slot)
  {
    var n := |run| - 1;
    LogsOneMore(before, run);
    if n > 0 {
      EachRunAddsTwenty(before, run[..n], slot);
    } else {
      assert before + run[..0] == before;
      if before != [] {
        LogSoFar(before);
      }
    }
  }

  lemma LogsOneMore(before: seq<int>, run: seq<int>)
    requires run != []
    ensures LogAll(NO_LOG, before + run) == LogOne(LogAll(NO_LOG, before + run[..|run| - 1]), run[|run| - 1])
  {
    assert (before + run)[..|before + run| - 1] == before + run[..|run| - 1];
  }

  /** So the limit holds within a run only: when the minutes alternate, every refusal is logged. */
  lemma {:induction false} AlternatingMinutesLogAll(nows: seq<int>)
    requires forall i :: 0 <= i < |nows| - 1 ==> Slot(nows[i]) != Slot(nows[i + 1])
    ensures |LogAll(NO_LOG, nows).lines| == |nows|
  {
    if nows != [] {
      var n := |nows| - 1;
      AlternatingMinutesLogAll(nows[..n]);
      EachRunAddsTwenty(nows[..n], [nows[n]], Slot(nows[n]));
      assert nows[..n] + [nows[n]] == nows;
    }
  }

  // ---- The policy on one node, call after call ----

  // ok: the hook's answer; expires: when the verdict is asked for again.
  datatype Verdict = Verdict(ok: bool, expires: int)

  function LiveVerdicts(verdicts: map<string, Verdict>, now: int): map<string, Verdict> {
    map h | h in verdicts && now < verdicts[h].expires :: verdicts[h]
  }

  // Expired verdicts are gone, and of the others only one, and only when they fill the map by themselves.
  predicate RoomMade(full: map<string, Verdict>, now: int, left: map<string, Verdict>) {
    var live := LiveVerdicts(full, now);
    if |live| < MAX_VERDICTS then left == live
    else |left| == MAX_VERDICTS - 1 && forall h :: h in left ==> h in live && left[h] == live[h]
  }

  // What is left of the verdicts before a new one is stored for the host.
  predicate RoomFor(before: map<string, Verdict>, now: int, host: string, left: map<string, Verdict>) {
    if |before| < MAX_VERDICTS then left == before else host !in left && RoomMade(before, now, left)
  }

  predicate Stores(before: map<string, Verdict>, now: int, host: string, v: Verdict, after: map<string, Verdict>) {
    if |before| < MAX_VERDICTS then after == before[host := v]
    else host in after && after[host] == v && RoomMade(before, now, after - {host})
  }

  lemma StoredInRoom(before: map<string, Verdict>, now: int, host: string, v: Verdict, left: map<string, Verdict>)
    requires RoomFor(before, now, host, left)
    ensures Stores(before, now, host, v, left[host := v])
    ensures |left[host := v]| <= |left| + 1
  {
    var after := left[host := v];
    assert |before| >= MAX_VERDICTS ==> after - {host} == left;
    assert after.Keys == left.Keys + {host};
    assert |after.Keys| == |after| && |left.Keys| == |left|;
  }

  lemma SubmapSize(part: map<string, Verdict>, whole: map<string, Verdict>)
    requires part.Keys <= whole.Keys
    ensures |part| <= |whole| && (|whole.Keys - part.Keys| == 1 ==> |part| == |whole| - 1)
  {
    assert part.Keys + (whole.Keys - part.Keys) == whole.Keys;
    assert |part.Keys| == |part| && |whole.Keys| == |whole|;
  }

  class Policy {
    const listed: set<string>
    const hasHook: bool
    var verdicts: map<string, Verdict>
    var log: Log

    constructor (listed: set<string>, hasHook: bool)
      ensures this.listed == listed && this.hasHook == hasHook && verdicts == map[] && log == NO_LOG
    {
      this.listed, this.hasHook, verdicts, log := listed, hasHook, map[], NO_LOG;
    }

    /** allow, for a host already in lower case: the answer, and whether the hook was asked. hookOk is
        what the hook says when it is. */
    method Allow(host: string, now: int, hookOk: bool) returns (ok: bool, asked: bool)
      requires |verdicts| <= MAX_VERDICTS
      modifies this
      ensures |verdicts| <= MAX_VERDICTS
      ensures asked <==> host !in listed && hasHook && !(host in old(verdicts) && now < old(verdicts)[host].expires)
      ensures ok <==> host in listed || (hasHook && if asked then hookOk else old(verdicts)[host].ok)
      ensures !asked ==> verdicts == old(verdicts) && log == old(log)
      ensures asked ==> Stores(old(verdicts), now, host, Verdict(hookOk, now + TTL(hookOk)), verdicts)
      ensures asked ==> log == if hookOk then old(log) else LogOne(old(log), now)
    {
      if host in listed {
        return true, false;
      }
      if !hasHook {
        return false, false;
      }
      if host in verdicts && now < verdicts[host].expires {
        return verdicts[host].ok, false;
      }
      if |verdicts| >= MAX_VERDICTS {
        MakeRoom(now);
      }
      StoredInRoom(old(verdicts), now, host, Verdict(hookOk, now + TTL(hookOk)), verdicts);
      verdicts := verdicts[host := Verdict(hookOk, now + TTL(hookOk))];
      if !hookOk {
        LogRefusal(now);
      }
      return hookOk, true;
    }

    // Expired verdicts first, then any, until one fits.
    method MakeRoom(now: int)
      modifies this`verdicts
      requires |verdicts| <= MAX_VERDICTS
      ensures |verdicts| < MAX_VERDICTS && RoomMade(old(verdicts), now, verdicts)
    {
      DropExpired(now);
      SubmapSize(verdicts, old(verdicts));
      while |verdicts| >= MAX_VERDICTS
        invariant |verdicts| < MAX_VERDICTS ==> RoomMade(old(verdicts), now, verdicts)
        invariant |verdicts| <= MAX_VERDICTS
        invariant |verdicts| >= MAX_VERDICTS ==> verdicts == LiveVerdicts(old(verdicts), now)
        decreases |verdicts|
      {
        assert |verdicts.Keys| == |verdicts|;
        var h :| h in verdicts;
        SubmapSize(verdicts - {h}, verdicts);
        verdicts := verdicts - {h};
      }
    }

    method DropExpired(now: int)
      modifies this`verdicts
      ensures verdicts == LiveVerdicts(old(verdicts), now)
    {
      var todo := verdicts.Keys;
      while todo != {}
        invariant todo <= verdicts.Keys
        invariant forall h :: h in verdicts ==> h in old(verdicts) && verdicts[h] == old(verdicts)[h]
        invariant forall h :: h in old(verdicts) && (now < old(verdicts)[h].expires || h in todo) ==> h in verdicts
        invariant forall h :: h in verdicts && h !in todo ==> now < verdicts[h].expires
        decreases todo
      {
        var h :| h in todo;
        if now >= verdicts[h].expires {
          verdicts := verdicts - {h};
        }
        todo := todo - {h};
      }
    }

    method LogRefusal(now: int)
      modifies this`log
      ensures log == LogOne(old(log), now)
    {
      var slot := now - now % MINUTE;
      var dropped := 0;
      if log.slot != Some(slot) {
        dropped := log.dropped;
        log := Log(Some(slot), 0, 0, log.lines);
      }
      if log.logged >= REFUSAL_LOGS {
        log := log.(dropped := log.dropped + 1);
        return;
      }
      log := log.(logged := log.logged + 1, lines := log.lines + [Line(dropped)]);
    }
  }

  // ---- Every interleaving of calls on one host policy ----

  // One call of the app's hook: when it started and what it said.
  datatype Hook = Hook(host: string, started: int, ok: bool)

  datatype Call =
    | Reading(host: string, now: int)
    | Asking(host: string, now: int)
    | Told(now: int, hook: Hook)
    | Answered(host: string, now: int, hook: Hook)

  // Each stored verdict with the hook call that gave it.
  datatype Stored = Stored(hook: Hook, expires: int)

  datatype State = State(clock: int, verdicts: map<string, Stored>, calls: map<nat, Call>, hooks: seq<Hook>)

  datatype Step =
    | Tick(to: int)
    | Read(call: nat, host: string)
    | LookUp(call: nat)
    | Ask(call: nat, ok: bool)
    | Store(call: nat, evicted: set<string>)

  function Apply(s: State, e: Step): State {
    match e
    case Tick(to) => if to < s.clock then s else s.(clock := to)
    case Read(call, host) => if call in s.calls then s else s.(calls := s.calls[call := Reading(host, s.clock)])
    case LookUp(call) =>
      if call !in s.calls || !s.calls[call].Reading? then s
      else
        var Reading(host, now) := s.calls[call];
        if host in s.verdicts && now < s.verdicts[host].expires then
          s.(calls := s.calls[call := Answered(host, now, s.verdicts[host].hook)])
        else s.(calls := s.calls[call := Asking(host, now)])
    case Ask(call, ok) =>
      if call !in s.calls || !s.calls[call].Asking? then s
      else
        var Asking(host, now) := s.calls[call];
        var hook := Hook(host, s.clock, ok);
        s.(calls := s.calls[call := Told(now, hook)], hooks := s.hooks + [hook])
    case Store(call, evicted) =>
      if call !in s.calls || !s.calls[call].Told?
          || (|s.verdicts| >= MAX_VERDICTS && |s.verdicts - evicted| >= MAX_VERDICTS) then s
      else
        var Told(now, hook) := s.calls[call];
        var left := if |s.verdicts| >= MAX_VERDICTS then s.verdicts - evicted else s.verdicts;
        s.(calls := s.calls[call := Answered(hook.host, now, hook)],
           verdicts := left[hook.host := Stored(hook, now + TTL(hook.ok))])
  }

  function Exec(s: State, es: seq<Step>): State {
    if es == [] then s else Apply(Exec(s, es[..|es| - 1]), es[|es| - 1])
  }

  const EMPTY := State(0, map[], map[], [])

  ghost predicate Inv(s: State) {
    && |s.verdicts| <= MAX_VERDICTS
    && (forall h :: h in s.verdicts ==> StoredOk(s, h, s.verdicts[h]))
    && (forall c :: c in s.calls ==> CallOk(s, s.calls[c]))
  }

  ghost predicate StoredOk(s: State, host: string, v: Stored) {
    v.hook in s.hooks && v.hook.host == host && v.expires <= v.hook.started + TTL(v.hook.ok)
  }

  ghost predicate CallOk(s: State, c: Call) {
    match c
    case Reading(_, now) => now <= s.clock
    case Asking(_, now) => now <= s.clock
    case Told(now, hook) => hook in s.hooks && now <= hook.started
    case Answered(host, now, hook) => hook in s.hooks && hook.host == host && now < hook.started + TTL(hook.ok)
  }

  // Steps that only move calls on.
  lemma CallStepKeepsInv(s: State, u: State)
    requires Inv(s) && u.verdicts == s.verdicts && s.clock <= u.clock && s.hooks <= u.hooks
    requires forall c :: c in u.calls ==> (c in s.calls && u.calls[c] == s.calls[c]) || CallOk(u, u.calls[c])
    ensures Inv(u)
  {
    assert forall h :: h in s.hooks ==> h in u.hooks;
    forall c | c in u.calls ensures CallOk(u, u.calls[c]) {
      assert c in s.calls ==> CallOk(s, s.calls[c]);
    }
    assert forall h :: h in s.verdicts ==> StoredOk(s, h, s.verdicts[h]);
  }

  lemma StoreKeepsInv(s: State, call: nat, evicted: set<string>)
    requires Inv(s) && call in s.calls && s.calls[call].Told?
    requires |s.verdicts| >= MAX_VERDICTS ==> |s.verdicts - evicted| < MAX_VERDICTS
    ensures Inv(Apply(s, Store(call, evicted)))
  {
    var u, hook := Apply(s, Store(call, evicted)), s.calls[call].hook;
    assert CallOk(s, s.calls[call]);
    VerdictsFit(s.verdicts, evicted, hook.host, u.verdicts[hook.host]);
    forall h | h in u.verdicts ensures StoredOk(u, h, u.verdicts[h]) {
      assert h != hook.host ==> StoredOk(s, h, s.verdicts[h]);
    }
    forall c | c in u.calls ensures CallOk(u, u.calls[c]) {
      assert CallOk(s, s.calls[c]);
    }
  }

  lemma LookUpKeepsInv(s: State, call: nat)
    requires Inv(s) && call in s.calls && s.calls[call].Reading?
    ensures Inv(Apply(s, LookUp(call)))
  {
    var Reading(host, now) := s.calls[call];
    assert CallOk(s, s.calls[call]);
    assert host in s.verdicts ==> StoredOk(s, host, s.verdicts[host]);
    CallStepKeepsInv(s, Apply(s, LookUp(call)));
  }

  lemma AskKeepsInv(s: State, call: nat, ok: bool)
    requires Inv(s) && call in s.calls && s.calls[call].Asking?
    ensures Inv(Apply(s, Ask(call, ok)))
  {
    assert CallOk(s, s.calls[call]);
    CallStepKeepsInv(s, Apply(s, Ask(call, ok)));
  }

  lemma StepKeepsInv(s: State, e: Step)
    requires Inv(s)
    ensures Inv(Apply(s, e))
  {
    if Apply(s, e) != s {
      match e
      case Store(call, evicted) => StoreKeepsInv(s, call, evicted);
      case LookUp(call) => LookUpKeepsInv(s, call);
      case Ask(call, ok) => AskKeepsInv(s, call, ok);
      case Tick(to) => CallStepKeepsInv(s, s.(clock := to));
      case Read(call, host) => CallStepKeepsInv(s, s.(calls := s.calls[call := Reading(host, s.clock)]));
    }
  }

  lemma VerdictsFit(verdicts: map<string, Stored>, evicted: set<string>, host: string, v: Stored)
    requires |verdicts| <= MAX_VERDICTS
    ensures var left := if |verdicts| >= MAX_VERDICTS then verdicts - evicted else verdicts;
            |left| < MAX_VERDICTS ==> |left[host := v]| <= MAX_VERDICTS
  {
    var left := if |verdicts| >= MAX_VERDICTS then verdicts - evicted else verdicts;
    assert left[host := v].Keys == left.Keys + {host};
    assert |left[host := v]| == |left[host := v].Keys| && |left| == |left.Keys|;
  }

  lemma {:induction false} RunKeepsInv(es: seq<Step>)
    ensures Inv(Exec(EMPTY, es))
  {
    if es != [] {
      RunKeepsInv(es[..|es| - 1]);
      StepKeepsInv(Exec(EMPTY, es[..|es| - 1]), es[|es| - 1]);
    }
  }

  /** Every answer for an unlisted host, cached or not, was given by a call of the hook on that host
      that started less than the verdict's lifetime before the clock reading it answers; and the
      verdicts never exceed their cap. */
  lemma AnswersAreFresh(es: seq<Step>, c: nat)
    requires c in Exec(EMPTY, es).calls && Exec(EMPTY, es).calls[c].Answered?
    ensures var s := Exec(EMPTY, es); var a := s.calls[c];
            && a.hook in s.hooks && a.hook.host == a.host
            && (a.hook.ok ==> a.now - a.hook.started < 5 * MINUTE) && (!a.hook.ok ==> a.now - a.hook.started < MINUTE)
            && |s.verdicts| <= MAX_VERDICTS
  {
    RunKeepsInv(es);
    assert CallOk(Exec(EMPTY, es), Exec(EMPTY, es).calls[c]);
  }

  /** Once the hook refuses a host from time r on, no request whose clock reads five minutes later or
      more is approved, whatever was cached or under way. */
  lemma RevokedWithinFiveMinutes(es: seq<Step>, c: nat, host: string, r: int)
    requires forall h :: h in Exec(EMPTY, es).hooks && h.host == host && h.started >= r ==> !h.ok
    requires c in Exec(EMPTY, es).calls && Exec(EMPTY, es).calls[c].Answered? && Exec(EMPTY, es).calls[c].host == host
    requires Exec(EMPTY, es).calls[c].now >= r + APPROVE_TTL
    ensures !Exec(EMPTY, es).calls[c].hook.ok
  {
    AnswersAreFresh(es, c);
  }
}
