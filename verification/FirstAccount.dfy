/**
 The app's first account and the deletion of accounts (FirstSubject in packs/auth/auth.go,
 DeleteUser and DeleteUserTx in packs/auth/accounts.go), with the owner claim off.
 Sessions are listed in the order of their creation, which is the order the queries sort by:
 creation times increase.
 */
module FirstAccount {
  datatype Session = Session(id: string, subject: string, revoked: bool, prev: bool)

  // The subject of the earliest session; "" without one.
  function First(rows: seq<Session>): string {
    if rows == [] then "" else rows[0].subject
  }

  // The rows a deletion leaves. keepFirst: the subject is the first account, so the earliest of
  // its sessions stays, revoked and without its previous token.
  function Remaining(rows: seq<Session>, subject: string, keepFirst: bool): seq<Session> {
    if rows == [] then []
    else if rows[0].subject != subject then [rows[0]] + Remaining(rows[1..], subject, keepFirst)
    else if keepFirst then [rows[0].(revoked := true, prev := false)] + Remaining(rows[1..], subject, false)
    else Remaining(rows[1..], subject, false)
  }

  lemma {:induction false} RemainingRows(rows: seq<Session>, subject: string, keepFirst: bool)
    ensures forall r: Session :: r in Remaining(rows, subject, keepFirst) && r.subject == subject ==>
              keepFirst && r.revoked && !r.prev
    ensures forall r: Session :: r.subject != subject ==> (r in Remaining(rows, subject, keepFirst) <==> r in rows)
    ensures forall r: Session :: r in Remaining(rows, subject, keepFirst) ==>
              exists q :: q in rows && q.subject == r.subject
    ensures First(Remaining(rows, subject, keepFirst)) ==
        First(rows) || (rows != [] && rows[0].subject == subject && !keepFirst)
  {
    if rows != [] {
      RemainingRows(rows[1..], subject, if rows[0].subject == subject then false else keepFirst);
      assert rows == [rows[0]] + rows[1..];
    }
  }

  /** One node and its tables, calls one after the other. members, preferences and tokens hold the subject (or
      address) each row names. */
  class Auth {
    var sessions: seq<Session>
    var users: map<string, string>
    var accounts: map<string, string>
    var identities: set<(string, string)>
    var members: set<(string, string, string)>
    var preferences: set<(string, string)>
    var tokens: map<string, string>
    var first: string

    constructor ()
      ensures sessions == [] && users == map[] && accounts == map[] && tokens == map[] && first == ""
      ensures identities == {} && members == {} && preferences == {}
    {
      sessions, users, accounts, tokens, first := [], map[], map[], map[], "";
      identities, members, preferences := {}, {}, {};
    }

    method FirstSubject() returns (subject: string)
      modifies this`first
      ensures subject == first == if old(first) != "" then old(first) else First(sessions)
    {
      if first != "" {
        return first;
      }
      if |sessions| > 0 {
        first := sessions[0].subject;
      }
      subject := first;
    }

    /** DeleteUserTx: false is the 404, nothing changed. */
    method DeleteUserTx(subject: string) returns (found: bool)
      modifies this
      ensures found <==> subject in old(users) || subject in old(accounts)
      ensures !found ==> sessions == old(sessions) && tokens == old(tokens) && first == old(first)
      ensures !found ==> members == old(members) && identities == old(identities) && preferences == old(preferences)
      ensures users == old(users) - {subject} && accounts == old(accounts) - {subject}
      ensures found ==> identities == (set i | i in old(identities) && i.1 != subject)
      ensures found ==> members == (set m | m in old(members) && m.0 != subject)
      ensures found ==> preferences == (set p | p in old(preferences) && p.0 != subject)
      ensures found ==> var keys := Keys(old(users), old(accounts), subject);
                tokens == map k | k in old(tokens) && old(tokens)[k] !in keys :: old(tokens)[k]
      ensures found ==> TokensKept(old(tokens), tokens, old(users), old(accounts), subject)
      ensures found ==> first == if old(first) != "" then old(first) else First(old(sessions))
      ensures found ==> sessions == Remaining(old(sessions), subject, subject == first)
    {
      var keys := Keys(users, accounts, subject);
      found := subject in users || subject in accounts;
      users, accounts := users - {subject}, accounts - {subject};
      if !found {
        return;
      }
      DropRows(subject, keys);
      NoTokenIsLeft(old(tokens), tokens, old(users), old(accounts), subject);
      var f := FirstSubject();
      DropSessions(subject, subject == f);
    }

    // The rows of the tables that name the subject, and the tokens of any of the keys.
    method DropRows(subject: string, keys: set<string>)
      modifies this`identities, this`members, this`preferences, this`tokens
      ensures identities == (set i | i in old(identities) && i.1 != subject)
      ensures members == (set m | m in old(members) && m.0 != subject)
      ensures preferences == (set p | p in old(preferences) && p.0 != subject)
      ensures tokens == map k | k in old(tokens) && old(tokens)[k] !in keys :: old(tokens)[k]
    {
      identities := set i | i in identities && i.1 != subject;
      members := set m | m in members && m.0 != subject;
      preferences := set p | p in preferences && p.0 != subject;
      tokens := map k | k in tokens && tokens[k] !in keys :: tokens[k];
    }

    // The sessions: row by row.
    method DropSessions(subject: string, keepFirst: bool)
      modifies this`sessions
      ensures sessions == Remaining(old(sessions), subject, keepFirst)
    {
      var kept: seq<Session>, keep, rest := [], keepFirst, sessions;
      while rest != []
        invariant sessions == old(sessions)
        invariant Remaining(sessions, subject, keepFirst) == kept + Remaining(rest, subject, keep)
        decreases |rest|
      {
        var row := rest[0];
        if row.subject != subject {
          kept := kept + [row];
        } else if keep {
          kept, keep := kept + [row.(revoked := true, prev := false)], false;
        }
        rest := rest[1..];
      }
      sessions := kept;
    }
  }

  function Keys(users: map<string, string>, accounts: map<string, string>, subject: string): set<string> {
    {subject}
    + (if subject in users && users[subject] != "" then {users[subject]} else {})
    + (if subject in accounts && accounts[subject] != "" then {accounts[subject]} else {})
  }

  // The token is the subject's own, or that of its address or its label.
  predicate Names(named: string, users: map<string, string>, accounts: map<string, string>, subject: string) {
    || named == subject
    || (named != "" && subject in users && users[subject] == named)
    || (named != "" && subject in accounts && accounts[subject] == named)
  }

  // No token of the account's is left, and every other is as it was.
  ghost predicate TokensKept(before: map<string, string>, after: map<string, string>, users: map<string, string>,
      accounts: map<string, string>, subject: string)
  {
    && (forall k :: k in after ==> k in before && after[k] == before[k])
    && (forall k :: k in before ==> (k in after <==> !Names(before[k], users, accounts, subject)))
  }

  lemma NoTokenIsLeft(before: map<string, string>, after: map<string, string>, users: map<string, string>,
      accounts: map<string, string>, subject: string)
    requires after == map k | k in before && before[k] !in Keys(users, accounts, subject) :: before[k]
    ensures TokensKept(before, after, users, accounts, subject)
  {
  }

  // ---- Every interleaving, any number of nodes ----

  datatype Deletion = Deletion(subject: string, reading: string)

  // cache: each node's answer; deletions: the calls that have asked for the first account and not
  // yet deleted; founder: the subject of the first session ever opened.
  datatype State = State(rows: seq<Session>, cache: map<nat, string>, deletions: map<nat, Deletion>, founder: string)

  datatype Step =
    | Login(id: string, subject: string)
    | Revoke(subject: string)
    | Ask(node: nat)
    | AskToDelete(call: nat, node: nat, subject: string)
    | Delete(call: nat)

  const EMPTY := State([], map[], map[], "")

  function Cached(s: State, node: nat): string {
    if node in s.cache then s.cache[node] else ""
  }

  function Answer(s: State, node: nat): string {
    if Cached(s, node) != "" then Cached(s, node) else First(s.rows)
  }

  function RevokedRows(rows: seq<Session>, subject: string): (r: seq<Session>)
    ensures First(r) == First(rows)
  {
    if rows == [] then []
    else [if rows[0].subject == subject then rows[0].(revoked := true) else rows[0]] + RevokedRows(rows[1..], subject)
  }

  function Apply(s: State, e: Step): State {
    match e
    case Login(id, subject) =>
      if subject == "" then s
      else s.(rows := s.rows + [Session(id, subject, false, false)],
              founder := if s.founder == "" then subject else s.founder)
    case Revoke(subject) => s.(rows := RevokedRows(s.rows, subject))
    case Ask(node) => s.(cache := s.cache[node := Answer(s, node)])
    case AskToDelete(call, node, subject) =>
      s.(cache := s.cache[node := Answer(s, node)],
          deletions := s.deletions[call := Deletion(subject, Answer(s, node))])
    case Delete(call) =>
      if call !in s.deletions then s
      else
        var d := s.deletions[call];
        s.(rows := Remaining(s.rows, d.subject, d.subject == d.reading), deletions := s.deletions - {call})
  }

  function Exec(s: State, es: seq<Step>): State {
    if es == [] then s else Apply(Exec(s, es[..|es| - 1]), es[|es| - 1])
  }

  // The table's first account is the founder, and so is every answer given.
  predicate Agrees(s: State) {
    && First(s.rows) == s.founder
    && (forall n :: n in s.cache ==> s.cache[n] == "" || s.cache[n] == s.founder)
    && (forall c :: c in s.deletions ==> s.deletions[c].reading == "" || s.deletions[c].reading == s.founder)
  }

  // The deletion of the founder by a call that asked before anyone had signed in.
  predicate Unfounded(s: State, e: Step) {
    e.Delete? && e.call in s.deletions && s.deletions[e.call] == Deletion(s.founder, "") && s.founder != ""
  }

  /** Exactly one kind of step moves the first account: deleting it on an answer given while there
      was no session yet. */
  lemma StepKeepsFirst(s: State, e: Step)
    requires Agrees(s) && (s.founder != "" ==> s.rows != []) && (forall r :: r in s.rows ==> r.subject != "")
    ensures var u := Apply(s, e);
            Agrees(u) && (forall r :: r in u.rows ==> r.subject != "") <==> !Unfounded(s, e)
    ensures var u := Apply(s, e);
            !Unfounded(s, e) ==> (s.founder != "" ==> u.founder == s.founder) && (u.founder != "" ==> u.rows != [])
  {
    if e.Delete? && e.call in s.deletions {
      var d := s.deletions[e.call];
      RemainingRows(s.rows, d.subject, d.subject == d.reading);
    }
    if e.Revoke? {
      RevokedSubjects(s.rows, e.subject);
    }
  }

  lemma {:induction false} RevokedSubjects(rows: seq<Session>, subject: string)
    ensures forall r :: r in RevokedRows(rows, subject) ==> exists q :: q in rows && q.subject == r.subject
  {
    if rows != [] {
      RevokedSubjects(rows[1..], subject);
      assert rows == [rows[0]] + rows[1..];
    }
  }

  // The founder is the first account on every node, before and after.
  predicate Founded(s: State) {
    Agrees(s) && (s.founder != "" ==> s.rows != []) && forall r :: r in s.rows ==> r.subject != ""
  }

  predicate Safe(s: State, es: seq<Step>) {
    es == [] || (Safe(s, es[..|es| - 1]) && !Unfounded(Exec(s, es[..|es| - 1]), es[|es| - 1]))
  }

  /** On every run of logins, revocations and deletions in which no deletion of the founder acts on
      an answer from before the first session, the first account never passes to someone else, and
      every node's answer is the table's. */
  lemma {:induction false} FirstAccountIsConstant(s: State, es: seq<Step>)
    requires Founded(s) && Safe(s, es)
    ensures Founded(Exec(s, es))
    ensures s.founder != "" ==> Exec(s, es).founder == s.founder == First(Exec(s, es).rows)
    ensures forall node :: Cached(Exec(s, es), node) == "" || Cached(Exec(s, es), node) == First(Exec(s, es).rows)
  {
    if es != [] {
      FirstAccountIsConstant(s, es[..|es| - 1]);
      StepKeepsFirst(Exec(s, es[..|es| - 1]), es[|es| - 1]);
    }
  }

  /** A deletion that asked while x had no session, and deletes after x signed in, takes the first
      session away: y becomes the first account while node 1 still answers x. */
  lemma FirstAccountCanPass(x: string, y: string)
    requires x != "" && y != "" && x != y
    ensures var s1 := Apply(EMPTY, AskToDelete(7, 0, x));
            var s2 := Apply(s1, Login("a", x));
            var s3 := Apply(s2, Ask(1));
            var s4 := Apply(s3, Delete(7));
            var s := Apply(s4, Login("b", y));
            && s == Exec(EMPTY, [AskToDelete(7, 0, x), Login("a", x), Ask(1), Delete(7), Login("b", y)])
            && s.founder == x && First(s.rows) == y && Answer(s, 1) == x && Answer(s, 0) == y
  {
    ExecFive(AskToDelete(7, 0, x), Login("a", x), Ask(1), Delete(7), Login("b", y));
    var s2 := Apply(Apply(EMPTY, AskToDelete(7, 0, x)), Login("a", x));
    assert s2.rows == [Session("a", x, false, false)];
    assert Remaining(s2.rows, x, false) == [];
  }

  lemma ExecFive(a: Step, b: Step, c: Step, d: Step, e: Step)
    ensures Exec(EMPTY, [a, b, c, d, e]) == Apply(Apply(Apply(Apply(Apply(EMPTY, a), b), c), d), e)
  {
    assert [a, b, c, d, e][..4] == [a, b, c, d];
    assert [a, b, c, d][..3] == [a, b, c];
    assert [a, b, c][..2] == [a, b];
    assert [a, b][..1] == [a];
    assert [a][..0] == [];
    assert Exec(EMPTY, [a]) == Apply(EMPTY, a);
    assert Exec(EMPTY, [a, b]) == Apply(Exec(EMPTY, [a]), b);
    assert Exec(EMPTY, [a, b, c]) == Apply(Exec(EMPTY, [a, b]), c);
    assert Exec(EMPTY, [a, b, c, d]) == Apply(Exec(EMPTY, [a, b, c]), d);
  }
}
