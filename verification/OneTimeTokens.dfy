/**
 One-time tokens (IssueToken and ConsumeToken in packs/auth/auth.go): email verification and
 password reset links. A token stands for its hash.
 */
module OneTimeTokens {
  import opened Wrappers

  datatype Row = Row(purpose: string, subject: string, expires: int, used: bool)

  type Table = map<string, Row>

  // The unused tokens of the purpose and subject become used.
  function Invalidated(t: Table, purpose: string, subject: string): Table {
    map k | k in t :: if t[k].purpose == purpose && t[k].subject == subject then t[k].(used := true) else t[k]
  }

  predicate Redeemable(t: Table, purpose: string, token: string, now: int) {
    token in t && t[token].purpose == purpose && !t[token].used && now < t[token].expires
  }

  class Tokens {
    var table: Table
    const defaultTTL: int

    constructor (defaultTTL: int)
      ensures table == map[] && this.defaultTTL == defaultTTL
    {
      table, this.defaultTTL := map[], defaultTTL;
    }

    method IssueToken(purpose: string, subject: string, ttl: int, token: string, now: int)
      requires token !in table
      modifies this`table
      ensures var life := if ttl <= 0 then defaultTTL else ttl;
              table == Invalidated(old(table), purpose, subject)[token := Row(purpose, subject, now + life, false)]
      ensures var life := if ttl <= 0 then defaultTTL else ttl;
              forall at :: now <= at < now + life ==> Redeemable(table, purpose, token, at)
      ensures forall k :: k in old(table) && (old(table)[k].purpose != purpose || old(table)[k].subject != subject) ==>
                k in table && (k != token ==> table[k] == old(table)[k])
      ensures forall k, at ::
                k in table && table[k].subject == subject && Redeemable(table, purpose, k, at) ==> k == token
    {
      var life := if ttl <= 0 then defaultTTL else ttl;
      table := map k | k in table ::
        if table[k].purpose == purpose && table[k].subject == subject then table[k].(used := true) else table[k];
      table := table[token := Row(purpose, subject, now + life, false)];
    }

    method ConsumeToken(purpose: string, token: string, now: int) returns (subject: Option<string>)
      modifies this`table
      ensures subject.Some? <==> Redeemable(old(table), purpose, token, now)
      ensures subject.Some? <==> token in old(table) && var row := old(table)[token];
                row.purpose == purpose && !row.used && now < row.expires
      ensures subject.Some? ==> subject.value == old(table)[token].subject
      ensures subject.Some? ==> table == old(table)[token := old(table)[token].(used := true)]
      ensures subject.None? ==> table == old(table)
    {
      if token in table && table[token].purpose == purpose && !table[token].used && now < table[token].expires {
        subject := Some(table[token].subject);
        table := table[token := table[token].(used := true)];
      } else {
        subject := None;
      }
    }
  }

  // ---- Every interleaving of the statements ----

  datatype Step =
    | Invalidate(purpose: string, subject: string)
    | Insert(token: string, purpose: string, subject: string, expires: int)
    | Consume(purpose: string, token: string, now: int)
    | DropSubjects(subjects: set<string>)

  datatype Redemption = Redemption(token: string, purpose: string, subject: string, at: int)

  // issued: every token ever inserted, as it was; redeemed: the history of successes.
  datatype State = State(table: Table, issued: Table, redeemed: seq<Redemption>)

  const EMPTY := State(map[], map[], [])

  ghost function Apply(s: State, e: Step): State {
    match e
    case Invalidate(purpose, subject) => s.(table := Invalidated(s.table, purpose, subject))
    case Insert(token, purpose, subject, expires) =>
      var row := Row(purpose, subject, expires, false);
      if token in s.issued then s else s.(table := s.table[token := row], issued := s.issued[token := row])
    case Consume(purpose, token, now) =>
      if !Redeemable(s.table, purpose, token, now) then s
      else s.(table := s.table[token := s.table[token].(used := true)],
              redeemed := s.redeemed + [Redemption(token, purpose, s.table[token].subject, now)])
    case DropSubjects(subjects) => s.(table := map k | k in s.table && s.table[k].subject !in subjects :: s.table[k])
  }

  ghost function Exec(s: State, es: seq<Step>): State {
    if es == [] then s else Apply(Exec(s, es[..|es| - 1]), es[|es| - 1])
  }

  ghost predicate Inv(s: State) {
    && (forall k :: k in s.table ==> k in s.issued && s.issued[k] == s.table[k].(used := false))
    && (forall i :: 0 <= i < |s.redeemed| ==> AsIssued(s, s.redeemed[i]))
    && (forall i, j :: 0 <= i < j < |s.redeemed| ==> s.redeemed[i].token != s.redeemed[j].token)
  }

  // The redemption is of a token issued for that purpose and subject, in its lifetime, and the
  // token is used up.
  ghost predicate AsIssued(s: State, r: Redemption) {
    && r.token in s.issued && s.issued[r.token].purpose == r.purpose && s.issued[r.token].subject == r.subject
    && r.at < s.issued[r.token].expires && (r.token in s.table ==> s.table[r.token].used)
  }

  lemma StepKeepsInv(s: State, e: Step)
    requires Inv(s)
    ensures Inv(Apply(s, e))
  {
    var u := Apply(s, e);
    forall i | 0 <= i < |u.redeemed|
      ensures AsIssued(u, u.redeemed[i])
    {
      if i < |s.redeemed| {
        assert AsIssued(s, s.redeemed[i]);
      }
    }
    forall i, j | 0 <= i < j < |u.redeemed|
      ensures u.redeemed[i].token != u.redeemed[j].token
    {
      assert AsIssued(s, s.redeemed[i]);
    }
  }

  lemma {:induction false} RunKeepsInv(es: seq<Step>)
    ensures Inv(Exec(EMPTY, es))
  {
    if es != [] {
      RunKeepsInv(es[..|es| - 1]);
      StepKeepsInv(Exec(EMPTY, es[..|es| - 1]), es[|es| - 1]);
    }
  }

  /** On every run each token is redeemed at most once, for the purpose and subject it was issued
      for and within its lifetime. */
  lemma RedeemedOnceAsIssued(es: seq<Step>, i: nat)
    requires i < |Exec(EMPTY, es).redeemed|
    ensures var s := Exec(EMPTY, es); var r := s.redeemed[i];
            && r.token in s.issued && s.issued[r.token].purpose == r.purpose && s.issued[r.token].subject == r.subject
            && r.at < s.issued[r.token].expires
            && forall j :: 0 <= j < |s.redeemed| && s.redeemed[j].token == r.token ==> j == i
  {
    RunKeepsInv(es);
    assert AsIssued(Exec(EMPTY, es), Exec(EMPTY, es).redeemed[i]);
  }

  /** And as often as that: an unspent token redeems within its lifetime for its purpose, and then it is spent. */
  lemma UnspentRedeems(es: seq<Step>, token: string, now: int)
    requires var s := Exec(EMPTY, es);
             token in s.table && !s.table[token].used && token in s.issued && now < s.issued[token].expires
    ensures var s := Exec(EMPTY, es);
            var u := Apply(s, Consume(s.issued[token].purpose, token, now));
            && token in s.issued && u.table[token].used
            && u.redeemed == s.redeemed + [Redemption(token, s.issued[token].purpose, s.issued[token].subject, now)]
  {
    RunKeepsInv(es);
  }

  // The token can never be redeemed any more.
  ghost predicate Spent(s: State, token: string) {
    token in s.issued && (token in s.table ==> s.table[token].used)
  }

  /** A token used, or made invalid by a newer one, is never redeemed later. */
  lemma {:induction false} SpentForGood(s: State, es: seq<Step>, token: string)
    requires Spent(s, token)
    ensures Spent(Exec(s, es), token)
    ensures forall purpose, now :: !Redeemable(Exec(s, es).table, purpose, token, now)
  {
    if es != [] {
      SpentForGood(s, es[..|es| - 1], token);
    }
  }

  /** The first statement of a newer IssueToken spends every earlier token of its purpose and subject. */
  lemma IssuingSpendsEarlierTokens(es: seq<Step>, token: string, purpose: string, subject: string)
    requires var s := Exec(EMPTY, es);
             token in s.issued && s.issued[token].purpose == purpose && s.issued[token].subject == subject
    ensures Spent(Apply(Exec(EMPTY, es), Invalidate(purpose, subject)), token)
  {
    RunKeepsInv(es);
  }

  // ---- Two calls that issue at once ----

  predicate Unused(t: Table, token: string) {
    token in t && !t[token].used
  }

  // The step uses the token up, makes it invalid or deletes it.
  predicate Spends(e: Step, token: string, row: Row) {
    match e
    case Invalidate(purpose, subject) => purpose == row.purpose && subject == row.subject
    case Insert(_, _, _, _) => false
    case Consume(purpose, k, now) => k == token && purpose == row.purpose && now < row.expires
    case DropSubjects(subjects) => row.subject in subjects
  }

  /** On every run an unused token is still unused, and as it was, exactly when no step spent it. */
  lemma {:induction false} UnusedUntilSpent(s: State, es: seq<Step>, token: string)
    requires token in s.issued && Unused(s.table, token)
    ensures token in Exec(s, es).issued
    ensures Unused(Exec(s, es).table, token) <==> forall i :: 0 <= i < |es| ==> !Spends(es[i], token, s.table[token])
    ensures Unused(Exec(s, es).table, token) ==> Exec(s, es).table[token] == s.table[token]
  {
    if es != [] {
      var n := |es| - 1;
      UnusedUntilSpent(s, es[..n], token);
      assert forall i :: 0 <= i < n ==> es[..n][i] == es[i];
    }
  }

  /** Issuing a token leaves an earlier one of its purpose and subject redeemable exactly when no step
      between the two inserts spent the earlier one: its own call must invalidate after that insert. */
  lemma EarlierTokenSurvives(s: State, token: string, between: seq<Step>, newer: string, expires: int, now: int)
    requires token in s.issued && Unused(s.table, token) && now < s.table[token].expires && now < expires
    requires newer !in Exec(s, between).issued
    ensures var row := s.table[token];
            var t := Exec(s, between + [Insert(newer, row.purpose, row.subject, expires)]).table;
            && Redeemable(t, row.purpose, newer, now)
            && (Redeemable(t, row.purpose, token, now) <==>
                forall i :: 0 <= i < |between| ==> !Spends(between[i], token, row))
  {
    var row := s.table[token];
    var run := between + [Insert(newer, row.purpose, row.subject, expires)];
    assert run[..|between|] == between;
    UnusedUntilSpent(s, between, token);
  }

  /** Two calls that both invalidate before either inserts leave two tokens that can be redeemed. */
  lemma TwoIssuedAtOnce(purpose: string, subject: string, a: string, b: string, expires: int, now: int)
    requires a != b && now < expires
    ensures var invalidate := Invalidate(purpose, subject);
            var run := [invalidate, invalidate, Insert(a, purpose, subject, expires)];
            var t := Exec(EMPTY, run + [Insert(b, purpose, subject, expires)]).table;
            Redeemable(t, purpose, a, now) && Redeemable(t, purpose, b, now)
  {
    var run := [Invalidate(purpose, subject), Invalidate(purpose, subject), Insert(a, purpose, subject, expires)];
    var s := Exec(EMPTY, run);
    assert run[..2][..1] == run[..1] && run[..1][..0] == [];
    assert Exec(EMPTY, run[..1]) == Apply(EMPTY, run[0]) == EMPTY;
    assert Exec(EMPTY, run[..2]) == EMPTY;
    assert s == Apply(EMPTY, run[2]);
    EarlierTokenSurvives(s, a, [], b, expires, now);
    assert [] + [Insert(b, purpose, subject, expires)] == [Insert(b, purpose, subject, expires)];
    assert (run + [Insert(b, purpose, subject, expires)])[..3] == run;
    assert [Insert(b, purpose, subject, expires)][..0] == [];
    assert Exec(s, [Insert(b, purpose, subject, expires)]) == Apply(s, Insert(b, purpose, subject, expires));
  }
}
