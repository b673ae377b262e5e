/**
 The migrator (packs/db/migrate.go): applying pending scripts up to one that is held, rolling back,
 and any number of nodes under the advisory lock. Script names come as the sorted directory listing.
 */
module Migrator {
  import opened Wrappers

  // A script's statements; one marked NoTransaction runs them one at a time.
  datatype Script = Script(statements: seq<string>, inTransaction: bool)

  datatype Files = Files(names: seq<string>, up: map<string, Script>, down: map<string, Script>)

  // ---- Retrying on a lock timeout ----

  datatype Outcome = Success | LockTimeout | Failure

  const LOCK_RETRIES := 3

  function Backoff(n: nat): seq<nat>
    ensures |Backoff(n)| == n
  {
    if n == 0 then [] else Backoff(n - 1) + [Power2(n - 1)]
  }

  function Power2(n: nat): nat {
    if n == 0 then 1 else 2 * Power2(n - 1)
  }

  // The attempt that ends the loop: the first that is no lock timeout, or finds the context over,
  // at the latest the fourth.
  predicate Ends(outcome: nat -> Outcome, cancelled: nat -> bool, attempt: nat) {
    outcome(attempt) != LockTimeout || attempt == LOCK_RETRIES || cancelled(attempt)
  }

  // What is left of a failure that is tried again: the outcome of the attempt that ends the loop.
  function Retried(outcome: nat -> Outcome, cancelled: nat -> bool, attempt: nat): (r: Outcome)
    requires attempt <= LOCK_RETRIES
    ensures exists k :: attempt <= k <= LOCK_RETRIES && Ends(outcome, cancelled, k) && r == outcome(k)
    decreases LOCK_RETRIES - attempt
  {
    if Ends(outcome, cancelled, attempt) then outcome(attempt) else Retried(outcome, cancelled, attempt + 1)
  }

  /** retry: the outcome of the last attempt, after waits of 1, 2 and 4 seconds. */
  method Retry(outcome: nat -> Outcome, cancelled: nat -> bool) returns (last: Outcome, attempts: nat, waits: seq<nat>)
    ensures last == Retried(outcome, cancelled, 0)
    ensures 1 <= attempts <= LOCK_RETRIES + 1
    ensures last == outcome(attempts - 1) && Ends(outcome, cancelled, attempts - 1)
    ensures forall k :: 0 <= k < attempts - 1 ==> !Ends(outcome, cancelled, k)
    ensures waits == Backoff(attempts - 1) && waits <= [1, 2, 4]
    ensures forall k :: 0 <= k < attempts - 1 ==> outcome(k) == LockTimeout && !cancelled(k)
    ensures last == LockTimeout ==> attempts == 4 || cancelled(attempts - 1)
  {
    var wait, attempt := 1, 0;
    waits := [];
    while true
      invariant 0 <= attempt <= LOCK_RETRIES && wait == Power2(attempt) && waits == Backoff(attempt)
      invariant forall k :: 0 <= k < attempt ==> !Ends(outcome, cancelled, k)
      invariant Retried(outcome, cancelled, 0) == Retried(outcome, cancelled, attempt)
      decreases LOCK_RETRIES - attempt
    {
      last := outcome(attempt);
      if last == Success || attempt == LOCK_RETRIES || last != LockTimeout || cancelled(attempt) {
        WaitsDouble();
        return last, attempt + 1, waits;
      }
      waits := waits + [wait];
      wait, attempt := wait * 2, attempt + 1;
    }
  }

  lemma WaitsDouble()
    ensures Backoff(0) == [] && Backoff(1) == [1] && Backoff(2) == [1, 2] && Backoff(3) == [1, 2, 4]
  {
  }

  // ---- One node ----

  function Pending(names: seq<string>, applied: set<string>): seq<string> {
    if names == [] then []
    else Pending(names[..|names| - 1], applied) + (if names[|names| - 1] in applied then [] else [names[|names| - 1]])
  }

  ghost predicate Distinct(names: seq<string>) {
    forall i, j :: 0 <= i < j < |names| ==> names[i] != names[j]
  }

  lemma {:induction false} PendingNames(names: seq<string>, applied: set<string>)
    requires Distinct(names)
    ensures Distinct(Pending(names, applied))
    ensures forall n :: n in Pending(names, applied) <==> n in names && n !in applied
  {
    if names != [] {
      var last := |names| - 1;
      PendingNames(names[..last], applied);
      assert names == names[..last] + [names[last]];
      var before := Pending(names[..last], applied);
      assert forall i :: 0 <= i < |before| ==> before[i] in names[..last];
      assert names[last] !in names[..last];
    }
  }

  predicate IsFresh(names: seq<string>, applied: set<string>) {
    forall n :: n in names ==> n !in applied
  }

  // What the attempts at a script meet: a transaction's as a whole, or each statement's by itself.
  datatype Tries = Tries(whole: nat -> Outcome, each: nat -> (nat -> Outcome), cancelled: nat -> bool)

  predicate StatementGoes(t: Tries, i: nat) {
    Retried(t.each(i), t.cancelled, 0) == Success
  }

  // The first statement from i on that fails for good.
  function FirstFailure(script: Script, t: Tries, i: nat): (k: nat)
    requires i <= |script.statements|
    ensures i <= k <= |script.statements| && (k < |script.statements| ==> !StatementGoes(t, k))
    ensures forall j :: i <= j < k ==> StatementGoes(t, j)
    decreases |script.statements| - i
  {
    if i == |script.statements| || !StatementGoes(t, i) then i else FirstFailure(script, t, i + 1)
  }

  predicate Goes(script: Script, t: Tries) {
    if script.inTransaction then Retried(t.whole, t.cancelled, 0) == Success
    else forall i :: 0 <= i < |script.statements| ==> StatementGoes(t, i)
  }

  // The statements a script that fails leaves made: none in a transaction, or those before the failure.
  function Remains(script: Script, t: Tries): (r: seq<string>)
    ensures r <= script.statements && (script.inTransaction ==> r == [])
  {
    if script.inTransaction then [] else script.statements[..FirstFailure(script, t, 0)]
  }

  // What a run meets: hold's answer for each name, and what its script's attempts do.
  datatype World = World(hold: (string, bool) -> bool, tries: string -> Tries)

  predicate Applies(w: World, scripts: map<string, Script>, name: string) {
    name in scripts && Goes(scripts[name], w.tries(name))
  }

  // How many of the pending names a run gets through.
  function Stop(w: World, scripts: map<string, Script>, pending: seq<string>, fresh_: bool): (n: nat)
    ensures n <= |pending|
  {
    if pending == [] || w.hold(pending[0], fresh_) || !Applies(w, scripts, pending[0]) then 0
    else 1 + Stop(w, scripts, pending[1..], fresh_)
  }

  /** A run gets through every name up to the first one held or whose script fails. */
  lemma {:induction false} StopIsTheFirst(w: World, scripts: map<string, Script>, pending: seq<string>, fresh_: bool)
    ensures var n := Stop(w, scripts, pending, fresh_);
            && (forall k :: 0 <= k < n ==> !w.hold(pending[k], fresh_) && Applies(w, scripts, pending[k]))
            && (n < |pending| ==> w.hold(pending[n], fresh_) || !Applies(w, scripts, pending[n]))
  {
    if pending != [] {
      StopIsTheFirst(w, scripts, pending[1..], fresh_);
    }
  }

  // HoldDataLoss: a script marked as losing data is held on a database that has some.
  ghost predicate HoldsDataLoss(w: World, marked: string -> bool) {
    forall name, fresh_ :: w.hold(name, fresh_) <==> !fresh_ && marked(name)
  }

  /** With it a new database takes every script that does not fail, and a used one none that is marked. */
  lemma DataLossIsHeld(w: World, scripts: map<string, Script>, pending: seq<string>, fresh_: bool,
      marked: string -> bool)
    requires HoldsDataLoss(w, marked)
    ensures var n := Stop(w, scripts, pending, fresh_);
            && (fresh_ && n < |pending| ==> !Applies(w, scripts, pending[n]))
            && (!fresh_ ==> forall k :: 0 <= k < n ==> !marked(pending[k]))
            && (!fresh_ && n < |pending| && Applies(w, scripts, pending[n]) ==> marked(pending[n]))
  {
    StopIsTheFirst(w, scripts, pending, fresh_);
  }

  predicate Reverts(files: Files, tries: string -> Tries, name: string) {
    name in files.down && Goes(files.down[name], tries(name))
  }

  function AsSet(names: seq<string>): set<string> {
    set n | n in names
  }

  function Reverse(names: seq<string>): seq<string> {
    if names == [] then [] else [names[|names| - 1]] + Reverse(names[..|names| - 1])
  }

  // One statement run by one script.
  datatype Effect = Effect(name: string, statement: string)

  function Effects(name: string, statements: seq<string>): seq<Effect> {
    if statements == [] then []
    else Effects(name, statements[..|statements| - 1]) + [Effect(name, statements[|statements| - 1])]
  }

  // All statements of the named scripts, in the order of the names.
  function AllEffects(names: seq<string>, scripts: map<string, Script>): seq<Effect> {
    if names == [] then []
    else
      var n := |names| - 1;
      AllEffects(names[..n], scripts) +
          (if names[n] in scripts then Effects(names[n], scripts[names[n]].statements) else [])
  }

  // What the script that ended a run, if one did, left of its statements.
  function EffectsLeft(failed: Option<string>, scripts: map<string, Script>, tries: string -> Tries): seq<Effect> {
    if failed.None? || failed.value !in scripts then []
    else Effects(failed.value, Remains(scripts[failed.value], tries(failed.value)))
  }

  class Database {
    var applied: set<string>
    var effects: seq<Effect>

    constructor ()
      ensures applied == {} && effects == []
    {
      applied, effects := {}, [];
    }

    /** run and runInTx/runEach: a script in a transaction leaves all its statements or none, one
        outside a transaction the ones before its failure; the name is recorded only at the end. */
    method Run(name: string, script: Script, t: Tries, up: bool) returns (ok: bool)
      modifies this
      ensures ok <==> Goes(script, t) && (up ==> name !in old(applied))
      ensures applied == if !ok then old(applied) else if up then old(applied) + {name} else old(applied) - {name}
      ensures effects == old(effects) + Effects(name, if ok then script.statements else Remains(script, t))
    {
      if script.inTransaction {
        var last, _, _ := Retry(t.whole, t.cancelled);
        if last != Success || (up && name in applied) {
          return false;
        }
        effects := effects + Effects(name, script.statements);
      } else {
        for i := 0 to |script.statements|
          invariant applied == old(applied)
          invariant FirstFailure(script, t, 0) == FirstFailure(script, t, i)
          invariant effects == old(effects) + Effects(name, script.statements[..i])
        {
          var last, _, _ := Retry(t.each(i), t.cancelled);
          if last != Success {
            return false;
          }
          assert script.statements[..i + 1][..i] == script.statements[..i];
          effects := effects + [Effect(name, script.statements[i])];
        }
        assert script.statements[..|script.statements|] == script.statements;
        if up && name in applied {
          return false;
        }
      }
      applied := if up then applied + {name} else applied - {name};
      return true;
    }

    // Status: the pending names, and whether no name of the listing is applied.
    method Status(names: seq<string>) returns (todo: seq<string>, isFresh: bool)
      ensures todo == Pending(names, applied) && isFresh == IsFresh(names, applied)
      ensures isFresh <==> forall n :: n in names ==> n !in applied
    {
      isFresh, todo := true, [];
      for i := 0 to |names|
        invariant isFresh == IsFresh(names[..i], applied)
        invariant todo == Pending(names[..i], applied)
      {
        assert names[..i + 1][..i] == names[..i];
        assert names[..i + 1] == names[..i] + [names[i]];
        if names[i] in applied {
          isFresh := false;
        } else {
          todo := todo + [names[i]];
        }
      }
      assert names[..|names|] == names;
    }

    /** MigrateUntil: exactly the pending names, in order, before the first one held or failing. */
    method MigrateUntil(files: Files, w: World) returns (now: seq<string>, held: Option<string>, failed: Option<string>)
      requires Distinct(files.names)
      modifies this
      ensures var pending, isFresh := Pending(files.names, old(applied)), IsFresh(files.names, old(applied));
              var stop := Stop(w, files.up, pending, isFresh);
              && now == pending[..stop] && applied == old(applied) + AsSet(now)
              && held == (if stop < |pending| && w.hold(pending[stop], isFresh) then Some(pending[stop]) else None)
              && failed == (if stop < |pending| && !w.hold(pending[stop], isFresh) then Some(pending[stop]) else None)
      ensures effects == old(effects) + AllEffects(now, files.up) + EffectsLeft(failed, files.up, w.tries)
    {
      var pending, isFresh := Status(files.names);
      PendingNames(files.names, applied);
      now, held, failed := ApplyAll(pending, files.up, w, isFresh);
    }

    method ApplyAll(pending: seq<string>, up: map<string, Script>, w: World, isFresh: bool)
      returns (now: seq<string>, held: Option<string>, failed: Option<string>)
      requires Distinct(pending) && forall n :: n in pending ==> n !in applied
      modifies this
      ensures var stop := Stop(w, up, pending, isFresh);
              && now == pending[..stop] && applied == old(applied) + AsSet(now)
              && held == (if stop < |pending| && w.hold(pending[stop], isFresh) then Some(pending[stop]) else None)
              && failed == (if stop < |pending| && !w.hold(pending[stop], isFresh) then Some(pending[stop]) else None)
      ensures effects == old(effects) + AllEffects(now, up) + EffectsLeft(failed, up, w.tries)
    {
      var i := 0;
      now := [];
      while i < |pending|
        invariant 0 <= i <= |pending| && now == pending[..i] && applied == old(applied) + AsSet(now)
        invariant Stop(w, up, pending, isFresh) == i + Stop(w, up, pending[i..], isFresh)
        invariant effects == old(effects) + AllEffects(now, up)
      {
        var name := pending[i];
        assert pending[i..][0] == name && pending[i..][1..] == pending[i + 1..];
        if w.hold(name, isFresh) {
          return now, Some(name), None;
        }
        if name !in up {
          return now, None, Some(name);
        }
        assert name in pending && name !in now;
        var ok := Run(name, up[name], w.tries(name), true);
        if !ok {
          return now, None, Some(name);
        }
        OneMoreScript(now, name, up, old(effects));
        now := now + [name];
        i := i + 1;
      }
      held, failed := None, None;
    }

    /** Rollback: the last applied names of the listing, newest first, up to the first that fails. */
    method Rollback(files: Files, steps: nat, tries: string -> Tries)
        returns (reverted: seq<string>, failed: Option<string>)
      modifies this
      ensures GotBack(Recent(files.names, old(applied), steps), reverted, failed)
      ensures RolledBack(files, tries, reverted, failed, old(applied), applied, old(effects), effects)
    {
      reverted, failed := [], None;
      var status := applied;
      var i, left := |files.names|, steps;
      assert files.names[..i] == files.names;
      while i > 0 && left > 0
        invariant 0 <= i
        invariant OnTheWay(files.names, status, steps, i, left, reverted)
        invariant RolledBack(files, tries, reverted, None, status, applied, old(effects), effects)
      {
        i := i - 1;
        var name := files.names[i];
        NextName(files.names, status, steps, i, left, reverted);
        if name in status {
          var ok := Revert(name, files, tries, reverted, status, old(effects));
          if !ok {
            return reverted, Some(name);
          }
          reverted, left := reverted + [name], left - 1;
        }
      }
      NothingLeft(files.names, status, steps, i, left, reverted);
    }

    // One name more; status and before: what was applied and made when none was reverted.
    method Revert(name: string, files: Files, tries: string -> Tries, ghost reverted: seq<string>,
        ghost status: set<string>, ghost before: seq<Effect>) returns (ok: bool)
      requires RolledBack(files, tries, reverted, None, status, applied, before, effects)
      modifies this
      ensures ok <==> Reverts(files, tries, name)
      ensures ok ==> RolledBack(files, tries, reverted + [name], None, status, applied, before, effects)
      ensures !ok ==> RolledBack(files, tries, reverted, Some(name), status, applied, before, effects)
    {
      if Reverts(files, tries, name) {
        OneMoreReverted(files, tries, reverted, name, status, applied, before, effects);
      } else {
        FailsNext(files, tries, reverted, name, status, applied, before, effects);
      }
      if name !in files.down {
        assert EffectsLeft(Some(name), files.down, tries) == [];
        return false;
      }
      ok := Run(name, files.down[name], tries(name), false);
    }
  }

  // The names reverted are the first of those to revert, all of them unless the next one failed.
  predicate GotBack(recent: seq<string>, reverted: seq<string>, failed: Option<string>) {
    && reverted <= recent
    && if failed.None? then reverted == recent else |reverted| < |recent| && failed.value == recent[|reverted|]
  }

  // The reverted names are applied no more and all their down scripts' statements were made, in that order,
  // then what a script that failed left of its own.
  predicate RolledBack(files: Files, tries: string -> Tries, reverted: seq<string>, failed: Option<string>,
      was: set<string>, applied: set<string>, before: seq<Effect>, effects: seq<Effect>)
  {
    && applied == was - AsSet(reverted)
    && effects == before + AllEffects(reverted, files.down) + EffectsLeft(failed, files.down, tries)
    && (failed.Some? ==> !Reverts(files, tries, failed.value))
  }

  lemma OneMoreReverted(files: Files, tries: string -> Tries, reverted: seq<string>, name: string,
      was: set<string>, applied: set<string>, before: seq<Effect>, effects: seq<Effect>)
    requires RolledBack(files, tries, reverted, None, was, applied, before, effects) && name in files.down
    ensures RolledBack(files, tries, reverted + [name], None, was, applied - {name}, before,
                effects + Effects(name, files.down[name].statements))
  {
    assert EffectsLeft(None, files.down, tries) == [];
    assert effects == before + AllEffects(reverted, files.down);
    OneMoreScript(reverted, name, files.down, before);
    OneMoreName(reverted, name);
  }

  lemma OneMoreName(names: seq<string>, name: string)
    ensures AsSet(names + [name]) == AsSet(names) + {name}
  {
  }

  lemma FailsNext(files: Files, tries: string -> Tries, reverted: seq<string>, name: string,
      was: set<string>, applied: set<string>, before: seq<Effect>, effects: seq<Effect>)
    requires RolledBack(files, tries, reverted, None, was, applied, before, effects) && !Reverts(files, tries, name)
    ensures RolledBack(files, tries, reverted, Some(name), was, applied, before,
                effects + EffectsLeft(Some(name), files.down, tries))
  {
  }

  lemma NothingLeft(names: seq<string>, status: set<string>, steps: nat, i: nat, left: nat, reverted: seq<string>)
    requires (i == 0 || left == 0) && OnTheWay(names, status, steps, i, left, reverted)
    ensures GotBack(Recent(names, status, steps), reverted, None)
  {
    assert Recent(names[..i], status, left) == [];
  }

  // The names reverted, then those still to revert among the first i of the listing.
  predicate OnTheWay(names: seq<string>, status: set<string>, steps: nat, i: nat, left: nat, reverted: seq<string>) {
    i <= |names| && reverted + Recent(names[..i], status, left) == Recent(names, status, steps)
  }

  lemma NextName(names: seq<string>, status: set<string>, steps: nat, i: nat, left: nat, reverted: seq<string>)
    requires left > 0 && OnTheWay(names, status, steps, i + 1, left, reverted)
    ensures names[i] !in status ==> OnTheWay(names, status, steps, i, left, reverted)
    ensures names[i] in status ==> GotBack(Recent(names, status, steps), reverted, Some(names[i]))
    ensures names[i] in status ==> OnTheWay(names, status, steps, i, left - 1, reverted + [names[i]])
  {
    assert names[..i + 1][..i] == names[..i];
    if names[i] in status {
      var rest := Recent(names[..i], status, left - 1);
      assert reverted + ([names[i]] + rest) == reverted + [names[i]] + rest;
    }
  }

  lemma OneMoreScript(names: seq<string>, name: string, scripts: map<string, Script>, before: seq<Effect>)
    requires name in scripts
    ensures before + AllEffects(names, scripts) + Effects(name, scripts[name].statements) ==
        before + AllEffects(names + [name], scripts)
  {
    assert (names + [name])[..|names|] == names;
  }

  // The last applied names of a listing, newest first, at most so many.
  function Recent(names: seq<string>, applied: set<string>, steps: nat): seq<string> {
    if names == [] || steps == 0 then []
    else
      var last := names[|names| - 1];
      if last in applied then [last] + Recent(names[..|names| - 1], applied, steps - 1)
      else Recent(names[..|names| - 1], applied, steps)
  }

  // ---- Rolling back what a run applied ----

  // Nothing applied before the run stands after something the run applied.
  ghost predicate InOrder(names: seq<string>, before: set<string>, now: set<string>) {
    forall i, j :: 0 <= i < j < |names| && names[i] in now ==> names[j] !in before
  }

  function Listed(names: seq<string>, in_: set<string>): seq<string> {
    if names == [] then []
    else Listed(names[..|names| - 1], in_) + (if names[|names| - 1] in in_ then [names[|names| - 1]] else [])
  }

  lemma {:induction false} ListedNames(names: seq<string>, in_: set<string>)
    ensures forall n :: n in Listed(names, in_) <==> n in names && n in in_
  {
    if names != [] {
      ListedNames(names[..|names| - 1], in_);
      assert names == names[..|names| - 1] + [names[|names| - 1]];
    }
  }

  // The last n of the names.
  function Last(names: seq<string>, n: nat): seq<string> {
    names[(if |names| < n then 0 else |names| - n)..]
  }

  lemma LastOneMore(names: seq<string>, name: string, n: nat)
    ensures Reverse(Last(names + [name], n + 1)) == [name] + Reverse(Last(names, n))
  {
    var more := Last(names + [name], n + 1);
    assert more[..|more| - 1] == Last(names, n) && more[|more| - 1] == name;
  }

  lemma NoneLast(names: seq<string>, n: nat)
    requires names == [] || n == 0
    ensures Last(names, n) == []
  {
  }

  // The newest steps applied names are the last ones listed, backwards.
  lemma {:induction false} RecentIsTheEnd(names: seq<string>, applied: set<string>, steps: nat)
    ensures Recent(names, applied, steps) == Reverse(Last(Listed(names, applied), steps))
  {
    if names != [] && steps > 0 {
      var n := |names| - 1;
      if names[n] in applied {
        RecentIsTheEnd(names[..n], applied, steps - 1);
        LastOneMore(Listed(names[..n], applied), names[n], steps - 1);
        assert Listed(names, applied) == Listed(names[..n], applied) + [names[n]];
      } else {
        RecentIsTheEnd(names[..n], applied, steps);
        assert Listed(names, applied) == Listed(names[..n], applied) + [] == Listed(names[..n], applied);
      }
    } else {
      NoneLast(Listed(names, applied), steps);
    }
  }

  lemma {:induction false} ListedInTwo(names: seq<string>, before: set<string>, now: set<string>)
    requires before !! now && InOrder(names, before, now)
    ensures Listed(names, before + now) == Listed(names, before) + Listed(names, now)
  {
    if names != [] {
      var n := |names| - 1;
      ListedInTwo(names[..n], before, now);
      if names[n] in before {
        NoneListed(names[..n], now);
      }
    }
  }

  lemma {:induction false} NoneListed(names: seq<string>, now: set<string>)
    requires forall i :: 0 <= i < |names| ==> names[i] !in now
    ensures Listed(names, now) == []
  {
    if names != [] {
      NoneListed(names[..|names| - 1], now);
    }
  }

  lemma {:induction false} PendingAreListed(names: seq<string>, applied: set<string>, stop: nat)
    requires Distinct(names) && stop <= |Pending(names, applied)|
    ensures Listed(names, AsSet(Pending(names, applied)[..stop])) == Pending(names, applied)[..stop]
  {
    var p := Pending(names, applied);
    if names == [] {
      assert p[..stop] == [];
    } else {
      var n := |names| - 1;
      var q := Pending(names[..n], applied);
      PendingNames(names[..n], applied);
      if stop <= |q| {
        PendingAreListed(names[..n], applied, stop);
        assert p[..stop] == q[..stop];
        LastIsNotAmong(names, q, stop);
      } else {
        PendingAreListed(names[..n], applied, |q|);
        assert p == q + (if names[n] in applied then [] else [names[n]]);
        assert q[..|q|] == q && p[..stop] == q + [names[n]];
        ListedAgrees(names[..n], AsSet(q), AsSet(p[..stop]));
        assert p[..stop][|q|] == names[n];
      }
    }
  }

  lemma LastIsNotAmong(names: seq<string>, q: seq<string>, stop: nat)
    requires Distinct(names) && names != [] && stop <= |q| && forall x :: x in q ==> x in names[..|names| - 1]
    ensures names[|names| - 1] !in AsSet(q[..stop])
  {
    forall k | 0 <= k < stop ensures q[..stop][k] != names[|names| - 1] {
      assert q[k] in q;
    }
  }

  lemma {:induction false} ListedAgrees(names: seq<string>, a: set<string>, b: set<string>)
    requires Distinct(names) && forall i :: 0 <= i < |names| ==> (names[i] in a <==> names[i] in b)
    ensures Listed(names, a) == Listed(names, b)
  {
    if names != [] {
      ListedAgrees(names[..|names| - 1], a, b);
    }
  }

  lemma {:induction false} ReverseNames(names: seq<string>)
    ensures AsSet(Reverse(names)) == AsSet(names) && |Reverse(names)| == |names|
  {
    if names != [] {
      var rest, last := names[..|names| - 1], names[|names| - 1];
      ReverseNames(rest);
      assert names == rest + [last];
      assert AsSet(names) == AsSet(rest) + {last};
      assert AsSet([last] + Reverse(rest)) == {last} + AsSet(Reverse(rest));
    }
  }

  lemma LastOfTwo(a: seq<string>, b: seq<string>, s: seq<string>)
    requires s == a + b && s != []
    ensures b != [] ==> s[|s| - 1] in b && s[..|s| - 1] == a + b[..|b| - 1]
    ensures b == [] ==> a != [] && s[|s| - 1] in a && s[..|s| - 1] == a[..|a| - 1] + []
  {
    if b != [] {
      assert s[|s| - 1] == b[|b| - 1];
    } else {
      assert s[|s| - 1] == a[|a| - 1];
    }
  }

  // The other way: a listing of earlier names followed by the run's is in order.
  lemma {:induction false} TwoInOrder(names: seq<string>, before: set<string>, now: set<string>, a: seq<string>,
      b: seq<string>)
    requires before !! now && Listed(names, before + now) == a + b
    requires (forall x :: x in a ==> x in before) && (forall x :: x in b ==> x in now)
    ensures InOrder(names, before, now)
  {
    if names != [] {
      var n := |names| - 1;
      var rest, all := Listed(names[..n], before + now), Listed(names, before + now);
      if names[n] in before + now {
        assert all == rest + [names[n]] && all[..|rest|] == rest;
        LastOfTwo(a, b, all);
        if b == [] {
          TwoInOrder(names[..n], before, now, a[..|a| - 1], []);
          NoLaterNames(names[..n], before, now, a[..|a| - 1]);
        } else {
          TwoInOrder(names[..n], before, now, a, b[..|b| - 1]);
        }
      } else {
        TwoInOrder(names[..n], before, now, a, b);
      }
    }
  }

  lemma NoLaterNames(names: seq<string>, before: set<string>, now: set<string>, a: seq<string>)
    requires before !! now && Listed(names, before + now) == a + [] && forall x :: x in a ==> x in before
    ensures forall i :: 0 <= i < |names| ==> names[i] !in now
  {
    ListedNames(names, before + now);
    assert a + [] == a;
    assert forall i :: 0 <= i < |names| ==> names[i] in names;
  }

  lemma {:induction false} ReverseTwice(names: seq<string>)
    ensures |Reverse(names)| == |names| && forall i :: 0 <= i < |names| ==> Reverse(names)[i] == names[|names| - 1 - i]
  {
    if names != [] {
      ReverseTwice(names[..|names| - 1]);
    }
  }

  lemma ReverseIsInjective(a: seq<string>, b: seq<string>)
    requires Reverse(a) == Reverse(b)
    ensures a == b
  {
    ReverseTwice(a);
    ReverseTwice(b);
    forall i | 0 <= i < |a| ensures a[i] == b[i] {
      assert Reverse(a)[|a| - 1 - i] == a[i];
    }
  }

  /** Rolling back as many names as a run applied reverts exactly those names, newest first, exactly
      when nothing applied earlier stands after them in the listing; what was applied before is then
      restored. */
  lemma RollbackUndoesTheRun(names: seq<string>, before: set<string>, stop: nat)
    requires Distinct(names) && stop <= |Pending(names, before)|
    ensures var now := Pending(names, before)[..stop];
            && (Recent(names, before + AsSet(now), stop) == Reverse(now) <==> InOrder(names, before, AsSet(now)))
            && (InOrder(names, before, AsSet(now)) ==>
                before + AsSet(now) - AsSet(Recent(names, before + AsSet(now), stop)) == before)
  {
    var now := Pending(names, before)[..stop];
    PendingNames(names, before);
    assert forall n :: n in now ==> n in Pending(names, before);
    if InOrder(names, before, AsSet(now)) {
      LatestAreRecent(names, before, stop);
      ReverseNames(now);
    }
    if Recent(names, before + AsSet(now), stop) == Reverse(now) {
      OnlyTheLatest(names, before, now, stop);
    }
  }

  lemma OnlyTheLatest(names: seq<string>, before: set<string>, now: seq<string>, stop: nat)
    requires Distinct(names) && before !! AsSet(now) && Recent(names, before + AsSet(now), stop) == Reverse(now)
    ensures InOrder(names, before, AsSet(now))
  {
    var all := Listed(names, before + AsSet(now));
    RecentIsTheEnd(names, before + AsSet(now), stop);
    ReverseIsInjective(Last(all, stop), now);
    EarlierNamesFirst(names, before, now, if |all| < stop then 0 else |all| - stop);
  }

  lemma LatestAreRecent(names: seq<string>, before: set<string>, stop: nat)
    requires Distinct(names) && stop <= |Pending(names, before)|
    requires before !! AsSet(Pending(names, before)[..stop])
        && InOrder(names, before, AsSet(Pending(names, before)[..stop]))
    ensures var now := Pending(names, before)[..stop]; Recent(names, before + AsSet(now), stop) == Reverse(now)
  {
    var now := Pending(names, before)[..stop];
    ListedInTwo(names, before, AsSet(now));
    PendingAreListed(names, before, stop);
    RecentIsTheEnd(names, before + AsSet(now), stop);
    var all := Listed(names, before + AsSet(now));
    assert all[|all| - stop..] == now;
  }

  lemma EarlierNamesFirst(names: seq<string>, before: set<string>, now: seq<string>, cut: nat)
    requires Distinct(names) && before !! AsSet(now)
    requires cut <= |Listed(names, before + AsSet(now))| && Listed(names, before + AsSet(now))[cut..] == now
    ensures InOrder(names, before, AsSet(now))
  {
    var all := Listed(names, before + AsSet(now));
    ListedNames(names, before + AsSet(now));
    ListedOnce(names, before + AsSet(now));
    forall k | 0 <= k < cut ensures all[k] in before {
      assert all[k] in all;
      assert forall i :: 0 <= i < |now| ==> now[i] == all[cut + i];
    }
    assert all == all[..cut] + now;
    TwoInOrder(names, before, AsSet(now), all[..cut], now);
  }

  lemma {:induction false} ListedOnce(names: seq<string>, in_: set<string>)
    requires Distinct(names)
    ensures Distinct(Listed(names, in_))
  {
    if names != [] {
      var n := |names| - 1;
      ListedOnce(names[..n], in_);
      ListedNames(names[..n], in_);
      var l := Listed(names[..n], in_);
      forall i | 0 <= i < |l| ensures l[i] != names[n] {
        assert l[i] in l;
      }
    }
  }

  /** A name applied late, before others in the listing, is not the one a rollback reverts. */
  lemma RollbackMissesALateName(a: string, b: string)
    requires a != b
    ensures Pending([a, b], {b}) == [a] && Recent([a, b], {b} + {a}, 1) == [b]
  {
    assert [a, b][..1] == [a] && [a][..0] == [];
    assert Pending([a], {b}) == [a];
  }

  // ---- Any number of nodes under the advisory lock ----

  // A node's run: the names it found to do when it had the lock, how many it has committed, and
  // what was applied when it started.
  datatype Run = Run(plan: seq<string>, done: nat, base: set<string>, up: bool)

  datatype Commit = Commit(name: string, up: bool)

  // conflicts counts the runs that met a name recorded by someone else.
  datatype State = State(applied: set<string>, lock: Option<nat>, run: Run, log: seq<Commit>, conflicts: nat)

  datatype Step =
    | LockToMigrate(node: nat, names: seq<string>)
    | LockToRollback(node: nat, names: seq<string>, steps: nat)
    | CommitNext(node: nat)
    | Unlock(node: nat)

  ghost function Apply(s: State, e: Step): State {
    match e
    case LockToMigrate(node, names) =>
      if s.lock.Some? || !Distinct(names) then s
      else s.(lock := Some(node), run := Run(Pending(names, s.applied), 0, s.applied, true))
    case LockToRollback(node, names, steps) =>
      if s.lock.Some? || !Distinct(names) then s
      else s.(lock := Some(node), run := Run(Recent(names, s.applied, steps), 0, s.applied, false))
    case CommitNext(node) =>
      if s.lock != Some(node) || s.run.done >= |s.run.plan| then s
      else
        var name := s.run.plan[s.run.done];
        if s.run.up == (name in s.applied) then s.(conflicts := s.conflicts + 1)
        else
          State(if s.run.up then s.applied + {name} else s.applied - {name}, s.lock,
                s.run.(done := s.run.done + 1), s.log + [Commit(name, s.run.up)], s.conflicts)
    case Unlock(node) => if s.lock != Some(node) then s else s.(lock := None)
  }

  ghost function Exec(s: State, es: seq<Step>): State {
    if es == [] then s else Apply(Exec(s, es[..|es| - 1]), es[|es| - 1])
  }

  const EMPTY := State({}, None, Run([], 0, {}, true), [], 0)

  // Times a name's script committed less the times its down script did.
  function Balance(log: seq<Commit>, name: string): int {
    if log == [] then 0
    else
      var c := log[|log| - 1];
      Balance(log[..|log| - 1], name) + (if c.name != name then 0 else if c.up then 1 else -1)
  }

  // The run has done the first names of its plan to what it found, and nobody anything else.
  predicate GotThrough(r: Run, applied: set<string>) {
    && r.done <= |r.plan|
    && applied == if r.up then r.base + AsSet(r.plan[..r.done]) else r.base - AsSet(r.plan[..r.done])
  }

  ghost predicate RunInv(s: State) {
    s.lock.Some? ==>
      && Distinct(s.run.plan) && GotThrough(s.run, s.applied)
      && (forall n :: n in s.run.plan ==> (n in s.run.base <==> !s.run.up))
  }

  ghost predicate Inv(s: State) {
    RunInv(s) && s.conflicts == 0 && forall n :: Balance(s.log, n) == if n in s.applied then 1 else 0
  }

  lemma {:induction false} RecentNames(names: seq<string>, applied: set<string>, steps: nat)
    requires Distinct(names)
    ensures Distinct(Recent(names, applied, steps))
    ensures forall n :: n in Recent(names, applied, steps) ==> n in names && n in applied
  {
    if names != [] && steps > 0 {
      var n := |names| - 1;
      RecentNames(names[..n], applied, if names[n] in applied then steps - 1 else steps);
      assert names == names[..n] + [names[n]];
      assert names[n] !in names[..n];
    }
  }

  lemma CommitKeepsInv(s: State, node: nat)
    requires Inv(s) && s.lock == Some(node) && s.run.done < |s.run.plan|
    ensures Inv(Apply(s, CommitNext(node)))
  {
    var k := s.run.done;
    var name := s.run.plan[k];
    var u := Apply(s, CommitNext(node));
    assert s.run.plan[..k + 1] == s.run.plan[..k] + [name];
    assert name !in s.run.plan[..k];
    assert name in s.run.plan;
    assert u.log[..|u.log| - 1] == s.log;
  }

  lemma StepKeepsInv(s: State, e: Step)
    requires Inv(s)
    ensures Inv(Apply(s, e))
  {
    match e
    case LockToMigrate(node, names) =>
      if Distinct(names) {
        PendingNames(names, s.applied);
        assert Pending(names, s.applied)[..0] == [];
      }
    case LockToRollback(node, names, steps) =>
      if Distinct(names) {
        RecentNames(names, s.applied, steps);
        assert Recent(names, s.applied, steps)[..0] == [];
      }
    case CommitNext(node) =>
      if s.lock == Some(node) && s.run.done < |s.run.plan| {
        CommitKeepsInv(s, node);
      }
    case Unlock(node) =>
  }

  lemma {:induction false} RunKeepsInv(es: seq<Step>)
    ensures Inv(Exec(EMPTY, es))
  {
    if es != [] {
      RunKeepsInv(es[..|es| - 1]);
      StepKeepsInv(Exec(EMPTY, es[..|es| - 1]), es[|es| - 1]);
    }
  }

  /** For any number of nodes, in any order and ending at any point: no run ever meets a name another
      has recorded, a script commits exactly once more than it is rolled back while it is recorded
      and as often while it is not, and a run under way has applied (or reverted) exactly the first
      names of its plan, starting from what it found. */
  lemma LockedRunsAreAlone(es: seq<Step>, name: string)
    ensures var s := Exec(EMPTY, es);
            && s.conflicts == 0 && Balance(s.log, name) == (if name in s.applied then 1 else 0)
            && (s.lock.Some? ==> GotThrough(s.run, s.applied))
  {
    RunKeepsInv(es);
  }
}
