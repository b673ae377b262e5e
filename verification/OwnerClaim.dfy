/**
 The owner claim (packs/auth/owner.go): the one row of auth_owner_claim, the statements that change
 it, and every interleaving of starts, claims and rotations on any number of nodes. A token stands
 for its hash; "" is the empty hash of a claimed row. The token and status files are left out: the
 token a node would use is given.
 */
module OwnerClaim {
  import opened Wrappers

  datatype Row = Row(hash: string, subject: Option<string>)

  datatype Error = NoSubject | WrongToken | AlreadyClaimed

  // ---- The statements ----

  function InsertedIfMissing(row: Option<Row>, new_: Row): Option<Row> {
    if row.None? then Some(new_) else row
  }

  // A new token for an unclaimed row.
  function Replaced(row: Option<Row>, token: string): Option<Row> {
    if row.Some? && row.value.subject.None? then Some(Row(token, None)) else row
  }

  function Upserted(row: Option<Row>, token: string): Option<Row> {
    if row.None? then Some(Row(token, None)) else Replaced(row, token)
  }

  // The condition of the update that claims the row.
  predicate Claimable(row: Option<Row>, stored: string) {
    row.Some? && row.value.subject.None? && row.value.hash == stored
  }

  // What ClaimOwner makes of the row it reads.
  function Judged(row: Option<Row>, subject: string, token: string): Option<Error> {
    if subject == "" then Some(NoSubject)
    else if row.None? then Some(WrongToken)
    else if row.value.subject.Some? then Some(AlreadyClaimed)
    else if row.value.hash == "" || row.value.hash != token then Some(WrongToken)
    else None
  }

  function OwnerOf(row: Option<Row>): string {
    if row.Some? && row.value.subject.Some? then row.value.subject.value else ""
  }

  /** One node, call after call. fromPlatform: the token is AUTH_OWNER_CLAIM_TOKEN. */
  class Claim {
    const fromPlatform: bool
    var row: Option<Row>
    var first: string

    constructor (fromPlatform: bool)
      ensures this.fromPlatform == fromPlatform && row == None && first == ""
    {
      this.fromPlatform, row, first := fromPlatform, None, "";
    }

    /** startOwnerClaim: it calls itself once the row is there, and no further. */
    method Start(firstAccount: string, token: string)
      modifies this`row
      ensures row.Some?
      ensures old(row).None? ==>
          row == Some(if firstAccount != "" then Row("", Some(firstAccount)) else Row(token, None))
      ensures old(row).Some? ==> row == if fromPlatform then Replaced(old(row), token) else old(row)
      decreases row.None?
    {
      if row.None? {
        if firstAccount != "" {
          row := Some(Row("", Some(firstAccount)));
        } else {
          row := Some(Row(token, None));
        }
        Start(firstAccount, token);
        return;
      }
      if row.value.subject.Some? {
        return;
      }
      if token != row.value.hash && fromPlatform {
        row := Some(Row(token, None));
      }
    }

    method ClaimOwner(subject: string, token: string) returns (e: Option<Error>)
      modifies this
      ensures e == Judged(old(row), subject, token)
      ensures e.None? <==> subject != "" && token != "" && old(row) == Some(Row(token, None))
      ensures e == Some(AlreadyClaimed) <==> subject != "" && old(row).Some? && old(row).value.subject.Some?
      ensures row == if e.None? then Some(Row("", Some(subject))) else old(row)
      ensures first == if e.None? then subject else old(first)
    {
      if subject == "" {
        return Some(NoSubject);
      }
      if row.None? {
        return Some(WrongToken);
      }
      var stored := row.value.hash;
      if row.value.subject.Some? {
        return Some(AlreadyClaimed);
      }
      if stored == "" || token != stored {
        return Some(WrongToken);
      }
      if row.value.subject.None? && row.value.hash == stored {
        row := Some(Row("", Some(subject)));
        first := subject;
        return None;
      }
      return Some(AlreadyClaimed);
    }

    method RotateOwnerToken(token: string) returns (e: Option<Error>)
      modifies this`row
      ensures e == if old(row).Some? && old(row).value.subject.Some? then Some(AlreadyClaimed) else None
      ensures row == if e.None? then Upserted(old(row), token) else old(row)
    {
      if row.Some? && row.value.subject.Some? {
        return Some(AlreadyClaimed);
      }
      row := Some(Row(token, None));
      return None;
    }

    method FirstSubject() returns (subject: string)
      modifies this`first
      ensures subject == first == if old(first) != "" then old(first) else OwnerOf(row)
    {
      if first == "" && row.Some? && row.value.subject.Some? {
        first := row.value.subject.value;
      }
      subject := first;
    }
  }

  // ---- Every interleaving ----

  // A claim that has read the row and found its token to match: the token given and the one stored.
  datatype Attempt = Attempt(subject: string, given: string, stored: string)

  // given: the token the claim was made with; token: the one stored when the row was taken.
  datatype Win = Win(call: nat, subject: string, given: string, token: string)

  // wins: the claims that succeeded; cache: each node's first account.
  datatype State = State(row: Option<Row>, attempts: map<nat, Attempt>, wins: seq<Win>, cache: map<nat, string>)

  datatype Step =
    | RecordFirst(firstAccount: string)
    | StoreToken(token: string)
    | ReplaceToken(token: string)
    | ReadRow(call: nat, subject: string, token: string)
    | TakeRow(call: nat, node: nat)
    | Rotate(token: string)
    | AskFirst(node: nat)

  function Cached(s: State, node: nat): string {
    if node in s.cache then s.cache[node] else ""
  }

  function Apply(s: State, e: Step): State {
    match e
    case RecordFirst(first) => if first == "" then s else s.(row := InsertedIfMissing(s.row, Row("", Some(first))))
    case StoreToken(token) => if token == "" then s else s.(row := InsertedIfMissing(s.row, Row(token, None)))
    case ReplaceToken(token) => if token == "" then s else s.(row := Replaced(s.row, token))
    case ReadRow(call, subject, token) =>
      if call in s.attempts || Judged(s.row, subject, token).Some? then s
      else s.(attempts := s.attempts[call := Attempt(subject, token, s.row.value.hash)])
    case TakeRow(call, node) =>
      if call !in s.attempts then s
      else
        var a := s.attempts[call];
        if Claimable(s.row, a.stored) then
          State(Some(Row("", Some(a.subject))), s.attempts - {call}, s.wins + [Win(call, a.subject, a.given, a.stored)],
              s.cache[node := a.subject])
        else s.(attempts := s.attempts - {call})
    case Rotate(token) => if token == "" then s else s.(row := Upserted(s.row, token))
    case AskFirst(node) =>
      s.(cache := s.cache[node := if Cached(s, node) != "" then Cached(s, node) else OwnerOf(s.row)])
  }

  function Exec(s: State, es: seq<Step>): State {
    if es == [] then s else Apply(Exec(s, es[..|es| - 1]), es[|es| - 1])
  }

  const EMPTY := State(None, map[], [], map[])

  ghost predicate Inv(s: State) {
    && (s.row.Some? ==> (s.row.value.hash == "" <==> s.row.value.subject.Some?) && s.row.value.subject != Some(""))
    && (forall c :: c in s.attempts ==> s.attempts[c].subject != "" && s.attempts[c].stored != "")
    && (s.wins != [] ==> |s.wins| == 1 && s.wins[0].subject != "" && OwnerOf(s.row) == s.wins[0].subject)
    && (forall n :: n in s.cache ==> s.cache[n] == "" || s.cache[n] == OwnerOf(s.row))
  }

  lemma StepKeepsInv(s: State, e: Step)
    requires Inv(s)
    ensures Inv(Apply(s, e))
  {
  }

  lemma {:induction false} RunKeepsInv(es: seq<Step>)
    ensures Inv(Exec(EMPTY, es))
  {
    if es != [] {
      RunKeepsInv(es[..|es| - 1]);
      StepKeepsInv(Exec(EMPTY, es[..|es| - 1]), es[|es| - 1]);
    }
  }

  /** On every run the app gets at most one owner by a claim, an empty hash holds exactly when it is
      claimed, and every node that knows the first account knows the owner. */
  lemma AtMostOneOwner(es: seq<Step>)
    ensures var s := Exec(EMPTY, es);
            && |s.wins| <= 1 && (s.wins != [] ==> OwnerOf(s.row) == s.wins[0].subject != "")
            && (s.row.Some? ==> (s.row.value.hash == "" <==> s.row.value.subject.Some?))
            && forall node :: Cached(s, node) == "" || Cached(s, node) == OwnerOf(s.row)
  {
    RunKeepsInv(es);
  }

  // Claims only get as far as the update with the token that is stored.
  ghost predicate GaveTheToken(es: seq<Step>, s: State) {
    && (forall c :: c in s.attempts ==>
          s.attempts[c].given == s.attempts[c].stored && ReadRow(c, s.attempts[c].subject, s.attempts[c].given) in es)
    && (forall i :: 0 <= i < |s.wins| ==>
          var w := s.wins[i]; w.given == w.token != "" && ReadRow(w.call, w.subject, w.given) in es)
  }

  lemma StepKeepsTokens(es: seq<Step>, s: State, e: Step)
    requires GaveTheToken(es, s) && Inv(s)
    ensures GaveTheToken(es + [e], Apply(s, e))
  {
    assert forall x :: x in es ==> x in es + [e];
    assert (es + [e])[|es|] == e;
  }

  lemma {:induction false} RunKeepsTokens(es: seq<Step>)
    ensures GaveTheToken(es, Exec(EMPTY, es))
  {
    if es != [] {
      var before := es[..|es| - 1];
      RunKeepsTokens(before);
      RunKeepsInv(before);
      StepKeepsTokens(before, Exec(EMPTY, before), es[|es| - 1]);
      assert es == before + [es[|es| - 1]];
    }
  }

  /** On every run who wins made a claim, for that subject, with the very token the row held when it was taken. */
  lemma WinnerGaveTheToken(es: seq<Step>, i: nat)
    requires i < |Exec(EMPTY, es).wins|
    ensures var w := Exec(EMPTY, es).wins[i];
            w.given == w.token != "" && w.subject != "" && ReadRow(w.call, w.subject, w.given) in es
  {
    RunKeepsTokens(es);
    RunKeepsInv(es);
  }

  /** Ownership never reopens and never changes: once the row has an owner every continuation leaves
      the row as it is, and no further claim succeeds. */
  lemma {:induction false} OwnerIsForGood(s: State, es: seq<Step>)
    requires s.row.Some? && s.row.value.subject.Some?
    ensures Exec(s, es).row == s.row && Exec(s, es).wins == s.wins
  {
    if es != [] {
      OwnerIsForGood(s, es[..|es| - 1]);
    }
  }

  /** A claim succeeds exactly when the token it was made with is the one stored at the update itself. */
  lemma ClaimNeedsTheStoredToken(s: State, call: nat, node: nat)
    requires Inv(s) && call in s.attempts
    ensures var u := Apply(s, TakeRow(call, node));
            && (|u.wins| > |s.wins| <==> s.row.Some? && s.row.value.hash == s.attempts[call].stored)
            && (|u.wins| > |s.wins| ==> OwnerOf(u.row) == s.attempts[call].subject == Cached(u, node))
  {
  }

  // The step puts the token into the row.
  predicate Stores(e: Step, token: string) {
    match e
    case StoreToken(t) => t == token
    case ReplaceToken(t) => t == token
    case Rotate(t) => t == token
    case _ => false
  }

  /** A token rotated out never claims, even for a call that read its hash while it was stored. */
  lemma {:induction false} RotatedOutForGood(s: State, es: seq<Step>, token: string)
    requires token != "" && s.row.Some? && s.row.value.hash != token
    requires forall i :: 0 <= i < |es| ==> !Stores(es[i], token)
    ensures var u := Exec(s, es);
            && u.row.Some? && u.row.value.hash != token
            && |s.wins| <= |u.wins| && u.wins[..|s.wins|] == s.wins
            && forall i :: |s.wins| <= i < |u.wins| ==> u.wins[i].token != token
  {
    if es != [] {
      RotatedOutForGood(s, es[..|es| - 1], token);
    }
  }

  /** Rotating an unclaimed row takes the old token out at once and for good: on every continuation in
      which nobody stores it again, no claim with it gets past the reading of the row or the update. */
  lemma RotationRetiresTheOldToken(s: State, token: string, es: seq<Step>, old_: string)
    requires s.row == Some(Row(old_, None)) && old_ != "" && token != "" && token != old_
    requires forall i :: 0 <= i < |es| ==> !Stores(es[i], old_)
    ensures var u := Exec(Apply(s, Rotate(token)), es);
            && (forall subject :: Judged(u.row, subject, old_).Some?)
            && |s.wins| <= |u.wins| && forall i :: |s.wins| <= i < |u.wins| ==> u.wins[i].token != old_
  {
    RotatedOutForGood(Apply(s, Rotate(token)), es, old_);
  }
}
