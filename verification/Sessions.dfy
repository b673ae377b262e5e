/**
 Refresh sessions (packs/auth/auth.go): the auth_session table, the statements that change
 it, and every interleaving of the calls made of them. A token stands for its hash.
 */
module Sessions {
  import opened Wrappers

  type Token = string

  const MINUTE := 60_000_000_000
  const REFRESH_GRACE := 15 * MINUTE

  datatype Session = Session(subject: string, refresh: Token, prev: Option<Token>, rotatedAt: int, expires: int,
      revoked: bool)

  type Table = map<string, Session>

  // ---- The statements ----

  // What Refresh's lookup accepts.
  predicate Accepts(s: Session, token: Token, now: int) {
    && (s.refresh == token || (s.prev == Some(token) && now - REFRESH_GRACE < s.rotatedAt))
    && !s.revoked && now < s.expires
  }

  // The token is the session's own or the one before it.
  predicate Holds(s: Session, token: Token) {
    s.refresh == token || s.prev == Some(token)
  }

  predicate Active(t: Table, id: string, now: int, disabled: set<string>) {
    id in t && !t[id].revoked && now < t[id].expires && t[id].subject !in disabled
  }

  function Opened(subject: string, token: Token, now: int, ttl: int): Session {
    Session(subject, token, None, 0, now + ttl, false)
  }

  predicate Rotates(t: Table, id: string, token: Token) {
    id in t && t[id].refresh == token
  }

  function Rotated(s: Session, successor: Token, now: int, ttl: int): Session {
    var expires := if s.expires < now + ttl then now + ttl else s.expires;
    Session(s.subject, successor, Some(s.refresh), now, expires, s.revoked)
  }

  function Ended(t: Table, ids: set<string>): Table {
    map id | id in t :: if id in ids then t[id].(revoked := true) else t[id]
  }

  function IdsOf(t: Table, subject: string): set<string> {
    set id | id in t && t[id].subject == subject
  }

  // DeleteUserTx: every session of the subject goes, but for the first account's first one,
  // which stays, revoked, without its previous token.
  function Dropped(t: Table, subject: string, keep: Option<string>): Table {
    map id | id in t && (t[id].subject != subject || keep == Some(id)) ::
      if t[id].subject == subject then t[id].(revoked := true, prev := None) else t[id]
  }

  /** One node's calls, run one after the other. */
  class Auth {
    var table: Table
    var disabled: set<string>
    const ttl: int

    constructor (ttl: int)
      ensures table == map[] && disabled == {} && this.ttl == ttl
    {
      table, disabled, this.ttl := map[], {}, ttl;
    }

    method LoginWith(subject: string, id: string, token: Token, now: int) returns (ok: bool)
      requires id !in table
      modifies this`table
      ensures ok <==> subject !in disabled
      ensures table == if ok then old(table)[id := Opened(subject, token, now, ttl)] else old(table)
      ensures ok ==> table[id].expires == now + ttl
      ensures ok ==> forall later :: now <= later < now + ttl ==> Accepts(table[id], token, later)
    {
      ok := subject !in disabled;
      if ok {
        table := table[id := Session(subject, token, None, 0, now + ttl, false)];
      }
    }

    /** Refresh: the session found and, when the token given was current, its new token. */
    method Refresh(token: Token, successor: Token, now: int) returns (r: Result<(string, Option<Token>), ()>)
      modifies this`table
      ensures r.Ok? ==> var (id, renewed) := r.value;
                && id in old(table) && Accepts(old(table[id]), token, now) && old(table[id]).subject !in disabled
                && renewed == (if old(table[id]).refresh == token then Some(successor) else None)
                && table == if renewed.None? then old(table)
                            else old(table)[id := Rotated(old(table[id]), successor, now, ttl)]
      ensures (forall id :: id in old(table) && Holds(old(table)[id], token) ==>
                 old(table)[id].expires <= now || old(table)[id].revoked) ==> r.Err?
      ensures r.Err? ==> table == old(table) &&
                         ((forall id :: id in table ==> !Accepts(table[id], token, now)) ||
                          exists id :: id in table && Accepts(table[id], token, now) && table[id].subject in disabled)
    {
      if id :| id in table && Accepts(table[id], token, now) {
        var s := table[id];
        if s.subject in disabled {
          return Err(());
        }
        var renewed := None;
        if s.refresh == token {
          if table[id].refresh == token {
            var expires := if s.expires >= now + ttl then s.expires else now + ttl;
            table := table[id := s.(prev := Some(s.refresh), rotatedAt := now, refresh := successor,
                expires := expires)];
            renewed := Some(successor);
          }
        }
        return Ok((id, renewed));
      }
      return Err(());
    }

    method Logout(id: string)
      modifies this`table
      ensures table == Ended(old(table), {id})
    {
      if id in table && !table[id].revoked {
        table := table[id := table[id].(revoked := true)];
      }
    }

    method RevokeAll(subject: string)
      modifies this`table
      ensures table == Ended(old(table), IdsOf(old(table), subject))
      ensures forall id, now :: id in table && table[id].subject == subject ==> !Active(table, id, now, disabled)
    {
      table := map id | id in table :: if table[id].subject == subject then table[id].(revoked := true) else table[id];
    }
  }

  // ---- Every interleaving ----

  datatype Reply = Refused | Granted(id: string, refresh: Option<Token>)

  // A Refresh call after its lookup, and after its reply. current: the token given was the
  // session's own when it was looked up.
  datatype Call = Looked(token: Token, id: string, current: bool)
                | Done(token: Token, current: bool, reply: Reply)

  datatype Rotation = Rotation(call: nat, id: string, from: Token, to: Token, at: int)

  // rotations is the history of renewals; owner maps every token issued so far to its session, and
  // ids are the session ids used so far.
  datatype State = State(table: Table, calls: map<nat, Call>, rotations: seq<Rotation>, owner: map<Token, string>,
      ids: set<string>)

  datatype Step =
    | Login(id: string, subject: string, token: Token, now: int, ttl: int)
    | LookUp(call: nat, token: Token, id: string, now: int)
    | LookUpFails(call: nat, token: Token, now: int)
    | Renew(call: nat, successor: Token, now: int, ttl: int)
    | Logout(id: string)
    | RevokeAll(subject: string)
    | Delete(subject: string, keep: Option<string>)

  const EMPTY := State(map[], map[], [], map[], {})

  // One statement; a step whose side conditions fail is not taken.
  ghost function Apply(s: State, e: Step): State {
    match e
    case Login(id, subject, token, now, ttl) =>
      if id in s.ids || token in s.owner then s
      else s.(table := s.table[id := Opened(subject, token, now, ttl)], owner := s.owner[token := id],
          ids := s.ids + {id})
    case LookUp(call, token, id, now) =>
      if call in s.calls || id !in s.table || !Accepts(s.table[id], token, now) then s
      else s.(calls := s.calls[call := Looked(token, id, s.table[id].refresh == token)])
    case LookUpFails(call, token, now) =>
      if call in s.calls || exists id :: id in s.table && Accepts(s.table[id], token, now) then s
      else s.(calls := s.calls[call := Done(token, false, Refused)])
    case Renew(call, successor, now, ttl) =>
      if call !in s.calls || !s.calls[call].Looked? || successor in s.owner then s
      else
        var Looked(token, id, current) := s.calls[call];
        if current && Rotates(s.table, id, token) then
          State(s.table[id := Rotated(s.table[id], successor, now, ttl)],
                s.calls[call := Done(token, current, Granted(id, Some(successor)))],
                s.rotations + [Rotation(call, id, token, successor, now)], s.owner[successor := id], s.ids)
        else s.(calls := s.calls[call := Done(token, current, Granted(id, None))])
    case Logout(id) => s.(table := Ended(s.table, {id}))
    case RevokeAll(subject) => s.(table := Ended(s.table, IdsOf(s.table, subject)))
    case Delete(subject, keep) => s.(table := Dropped(s.table, subject, keep))
  }

  ghost function Exec(s: State, es: seq<Step>): State {
    if es == [] then s else Apply(Exec(s, es[..|es| - 1]), es[|es| - 1])
  }

  // Tokens some renewal replaced.
  ghost predicate Replaced(s: State, token: Token) {
    exists i :: 0 <= i < |s.rotations| && s.rotations[i].from == token
  }

  ghost predicate Owns(s: State, id: string, token: Token) {
    id in s.ids && token in s.owner && s.owner[token] == id
  }

  ghost predicate TableInv(s: State) {
    forall id :: id in s.table ==> Owns(s, id, s.table[id].refresh) && !Replaced(s, s.table[id].refresh)
  }

  // A session's previous token is the one whose renewal gave it the current one.
  ghost predicate PrevFrom(s: State, id: string, row: Session) {
    row.prev.Some? ==> exists i :: 0 <= i < |s.rotations| && Gave(s.rotations[i], id, row)
  }

  ghost predicate Gave(r: Rotation, id: string, row: Session) {
    r.id == id && Some(r.from) == row.prev && r.to == row.refresh && r.at == row.rotatedAt
  }

  ghost predicate PrevInv(s: State) {
    forall id :: id in s.table ==> PrevFrom(s, id, s.table[id])
  }

  // Each token is replaced once, and what replaced it is current until replaced itself.
  ghost predicate RotationInv(s: State) {
    && (forall i :: 0 <= i < |s.rotations| ==> RotationOk(s, s.rotations[i]))
    && (forall i, j :: 0 <= i < j < |s.rotations| ==> s.rotations[i].from != s.rotations[j].from)
  }

  ghost predicate RotationOk(s: State, r: Rotation) {
    && Owns(s, r.id, r.from) && Owns(s, r.id, r.to) && r.call in s.calls
    && s.calls[r.call] == Done(r.from, true, Granted(r.id, Some(r.to)))
    && (r.id in s.table ==> s.table[r.id].refresh == r.to || Replaced(s, r.to))
  }

  ghost predicate CallInv(s: State) {
    forall c :: c in s.calls ==> CallOk(s, c, s.calls[c])
  }

  ghost predicate CallOk(s: State, c: nat, call: Call) {
    match call
    case Looked(token, id, current) =>
      && Owns(s, id, token)
      && (current && id in s.table ==> s.table[id].refresh == token || Replaced(s, token))
    case Done(token, current, Refused) => true
    case Done(token, current, Granted(id, renewed)) =>
      && Owns(s, id, token)
      && (current && id in s.table ==> Replaced(s, token))
      && (renewed.Some? ==> exists i :: 0 <= i < |s.rotations| && s.rotations[i].call == c)
  }

  ghost predicate Inv(s: State) {
    TableInv(s) && PrevInv(s) && RotationInv(s) && CallInv(s)
  }

  lemma InvAtStart()
    ensures Inv(EMPTY)
  {
  }

  // The same tokens, but that the previous one may be gone.
  predicate Alike(row: Session, was: Session) {
    row.refresh == was.refresh && (row.prev.Some? ==> row.prev == was.prev && row.rotatedAt == was.rotatedAt)
  }

  // Steps that end sessions or drop rows.
  lemma TableStepKeepsInv(s: State, t: Table)
    requires Inv(s)
    requires forall id :: id in t ==> id in s.table && Alike(t[id], s.table[id])
    ensures Inv(s.(table := t))
  {
    var u := s.(table := t);
    assert forall x :: Replaced(u, x) <==> Replaced(s, x);
    forall id | id in t && t[id].prev.Some?
      ensures PrevFrom(u, id, t[id])
    {
      assert PrevFrom(s, id, s.table[id]);
      var i :| 0 <= i < |s.rotations| && Gave(s.rotations[i], id, s.table[id]);
      assert Gave(u.rotations[i], id, t[id]);
    }
  }

  lemma LoginKeepsInv(s: State, id: string, subject: string, token: Token, now: int, ttl: int)
    requires Inv(s) && id !in s.ids && token !in s.owner
    ensures Inv(Apply(s, Login(id, subject, token, now, ttl)))
  {
    var u := Apply(s, Login(id, subject, token, now, ttl));
    assert forall x :: Replaced(u, x) <==> Replaced(s, x);
    assert forall k, x :: Owns(s, k, x) ==> Owns(u, k, x);
    assert forall k :: k in s.table ==> PrevFrom(s, k, s.table[k]) ==> PrevFrom(u, k, s.table[k]);
    assert forall c :: c in u.calls ==> CallOk(s, c, u.calls[c]);
  }

  lemma LookUpKeepsInv(s: State, call: nat, token: Token, id: string, now: int)
    requires Inv(s) && call !in s.calls && id in s.table && Accepts(s.table[id], token, now)
    ensures Inv(Apply(s, LookUp(call, token, id, now)))
  {
    var u := Apply(s, LookUp(call, token, id, now));
    assert forall x :: Replaced(u, x) <==> Replaced(s, x);
    assert forall k :: k in s.table ==> PrevFrom(s, k, s.table[k]) ==> PrevFrom(u, k, s.table[k]);
    assert forall k :: 0 <= k < |s.rotations| ==> RotationOk(s, s.rotations[k]);
    if s.table[id].refresh != token {
      assert PrevFrom(s, id, s.table[id]);
    }
    assert Owns(s, id, token);
  }

  // A renewal whose conditional update matched.
  lemma RenewalKeepsInv(s: State, call: nat, token: Token, id: string, successor: Token, now: int, ttl: int)
    requires Inv(s) && call in s.calls && s.calls[call] == Looked(token, id, true) && Rotates(s.table, id, token)
    requires successor !in s.owner
    ensures Inv(Apply(s, Renew(call, successor, now, ttl)))
  {
    var u := Apply(s, Renew(call, successor, now, ttl));
    var n := |s.rotations|;
    assert u.rotations[n] == Rotation(call, id, token, successor, now);
    assert forall i :: 0 <= i < n ==> u.rotations[i] == s.rotations[i];
    assert forall x :: Replaced(u, x) <==> Replaced(s, x) || x == token;
    assert forall k, x :: Owns(s, k, x) ==> Owns(u, k, x);
    assert PrevInv(u) by {
      forall k | k in u.table ensures PrevFrom(u, k, u.table[k]) {
        if k == id {
          assert Gave(u.rotations[n], id, u.table[id]);
        } else {
          assert PrevFrom(s, k, s.table[k]);
        }
      }
    }
    RenewalKeepsRotations(s, call, token, id, successor, now, ttl);
    RenewalKeepsCalls(s, call, token, id, successor, now, ttl);
  }

  lemma RenewalKeepsRotations(s: State, call: nat, token: Token, id: string, successor: Token, now: int, ttl: int)
    requires Inv(s) && call in s.calls && s.calls[call] == Looked(token, id, true) && Rotates(s.table, id, token)
    requires successor !in s.owner
    ensures RotationInv(Apply(s, Renew(call, successor, now, ttl)))
  {
    var u := Apply(s, Renew(call, successor, now, ttl));
    var n := |s.rotations|;
    assert u.rotations[n] == Rotation(call, id, token, successor, now);
    assert forall i :: 0 <= i < n ==> u.rotations[i] == s.rotations[i];
    assert forall x :: Replaced(u, x) <==> Replaced(s, x) || x == token;
    assert forall k, x :: Owns(s, k, x) ==> Owns(u, k, x);
    forall i | 0 <= i < n
      ensures RotationOk(u, u.rotations[i])
    {
      assert RotationOk(s, s.rotations[i]);
    }
  }

  lemma RenewalKeepsCalls(s: State, call: nat, token: Token, id: string, successor: Token, now: int, ttl: int)
    requires Inv(s) && call in s.calls && s.calls[call] == Looked(token, id, true) && Rotates(s.table, id, token)
    requires successor !in s.owner
    ensures CallInv(Apply(s, Renew(call, successor, now, ttl)))
  {
    var u := Apply(s, Renew(call, successor, now, ttl));
    var n := |s.rotations|;
    assert u.rotations[n] == Rotation(call, id, token, successor, now);
    assert forall i :: 0 <= i < n ==> u.rotations[i] == s.rotations[i];
    assert forall x :: Replaced(u, x) <==> Replaced(s, x) || x == token;
    assert forall k, x :: Owns(s, k, x) ==> Owns(u, k, x);
    assert CallOk(s, call, s.calls[call]);
    forall c | c in u.calls
      ensures CallOk(u, c, u.calls[c])
    {
      assert c == call || CallOk(s, c, s.calls[c]);
    }
  }

  // A reply that carries no new refresh token.
  lemma ReplyKeepsInv(s: State, call: nat, token: Token, id: string, current: bool)
    requires Inv(s) && call in s.calls && s.calls[call] == Looked(token, id, current)
    requires !(current && Rotates(s.table, id, token))
    ensures Inv(s.(calls := s.calls[call := Done(token, current, Granted(id, None))]))
  {
    var u := s.(calls := s.calls[call := Done(token, current, Granted(id, None))]);
    assert CallOk(s, call, s.calls[call]);
    assert forall x :: Replaced(u, x) <==> Replaced(s, x);
    assert forall k :: k in s.table ==> PrevFrom(s, k, s.table[k]) ==> PrevFrom(u, k, s.table[k]);
    assert forall i :: 0 <= i < |s.rotations| ==> RotationOk(s, s.rotations[i]) ==> RotationOk(u, s.rotations[i]);
    assert forall c :: c in s.calls && c != call ==> CallOk(s, c, s.calls[c]) ==> CallOk(u, c, s.calls[c]);
  }

  lemma RefusalKeepsInv(s: State, call: nat, token: Token, now: int)
    requires Inv(s)
    ensures Inv(Apply(s, LookUpFails(call, token, now)))
  {
    var u := Apply(s, LookUpFails(call, token, now));
    assert forall x :: Replaced(u, x) <==> Replaced(s, x);
    assert forall k :: k in s.table ==> PrevFrom(s, k, s.table[k]) ==> PrevFrom(u, k, s.table[k]);
    assert forall i :: 0 <= i < |s.rotations| ==> RotationOk(s, s.rotations[i]) ==> RotationOk(u, s.rotations[i]);
    assert forall c :: c in s.calls ==> CallOk(s, c, s.calls[c]) ==> CallOk(u, c, s.calls[c]);
  }

  lemma StepKeepsInv(s: State, e: Step)
    requires Inv(s)
    ensures Inv(Apply(s, e))
  {
    var u := Apply(s, e);
    match e
    case Login(id, subject, token, now, ttl) =>
      if id !in s.ids && token !in s.owner {
        LoginKeepsInv(s, id, subject, token, now, ttl);
      }
    case LookUp(call, token, id, now) =>
      if call !in s.calls && id in s.table && Accepts(s.table[id], token, now) {
        LookUpKeepsInv(s, call, token, id, now);
      }
    case LookUpFails(call, token, now) =>
      RefusalKeepsInv(s, call, token, now);
    case Renew(call, successor, now, ttl) =>
      if call in s.calls && s.calls[call].Looked? && successor !in s.owner {
        var Looked(token, id, current) := s.calls[call];
        if current && Rotates(s.table, id, token) {
          RenewalKeepsInv(s, call, token, id, successor, now, ttl);
        } else {
          ReplyKeepsInv(s, call, token, id, current);
        }
      }
    case Logout(id) => TableStepKeepsInv(s, u.table);
    case RevokeAll(subject) => TableStepKeepsInv(s, u.table);
    case Delete(subject, keep) => TableStepKeepsInv(s, u.table);
  }

  lemma {:induction false} RunKeepsInv(s: State, es: seq<Step>)
    requires Inv(s)
    ensures Inv(Exec(s, es))
  {
    if es != [] {
      RunKeepsInv(s, es[..|es| - 1]);
      StepKeepsInv(Exec(s, es[..|es| - 1]), es[|es| - 1]);
    }
  }

  // ---- What every run promises ----

  // The calls that were handed the token renewing token.
  ghost predicate Wins(s: State, call: nat, token: Token) {
    call in s.calls && s.calls[call].Done? && s.calls[call].token == token
    && s.calls[call].reply.Granted? && s.calls[call].reply.refresh.Some?
  }

  /** Each refresh token is renewed by at most one call, whatever races. */
  lemma OneRenewalPerToken(es: seq<Step>, c: nat, d: nat, token: Token)
    requires Wins(Exec(EMPTY, es), c, token) && Wins(Exec(EMPTY, es), d, token)
    ensures c == d
  {
    InvAtStart();
    RunKeepsInv(EMPTY, es);
    var s := Exec(EMPTY, es);
    assert CallOk(s, c, s.calls[c]) && CallOk(s, d, s.calls[d]);
    var i :| 0 <= i < |s.rotations| && s.rotations[i].call == c;
    var j :| 0 <= j < |s.rotations| && s.rotations[j].call == d;
    assert RotationOk(s, s.rotations[i]) && RotationOk(s, s.rotations[j]);
  }

  /** A burst on the current token: once one of the calls that found it current has its reply,
      exactly one call of all holds a new refresh token of the session, and that is its current
      token until it is renewed in turn. */
  lemma BurstHasOneWinner(es: seq<Step>, c: nat, token: Token, id: string, renewed: Option<Token>)
      returns (w: nat, to: Token)
    requires c in Exec(EMPTY, es).calls && Exec(EMPTY, es).calls[c] == Done(token, true, Granted(id, renewed))
    requires id in Exec(EMPTY, es).table
    ensures Wins(Exec(EMPTY, es), w, token) && forall d :: Wins(Exec(EMPTY, es), d, token) ==> d == w
    ensures Exec(EMPTY, es).calls[w].reply == Granted(id, Some(to))
    ensures Exec(EMPTY, es).table[id].refresh == to || Replaced(Exec(EMPTY, es), to)
  {
    InvAtStart();
    RunKeepsInv(EMPTY, es);
    var s := Exec(EMPTY, es);
    assert CallOk(s, c, s.calls[c]);
    var i :| 0 <= i < |s.rotations| && s.rotations[i].from == token;
    assert RotationOk(s, s.rotations[i]);
    w, to := s.rotations[i].call, s.rotations[i].to;
    forall d | Wins(s, d, token) ensures d == w {
      OneRenewalPerToken(es, d, w, token);
    }
  }

  /** A session accepts its current token and, inside the grace, the one that token replaced;
      and no other session accepts either. */
  lemma AcceptedTokens(es: seq<Step>, id: string, token: Token, now: int)
    requires id in Exec(EMPTY, es).table && Accepts(Exec(EMPTY, es).table[id], token, now)
    ensures var s := Exec(EMPTY, es);
            || s.table[id].refresh == token
            || exists i :: 0 <= i < |s.rotations| && s.rotations[i].id == id && s.rotations[i].from == token
                           && s.rotations[i].to == s.table[id].refresh && now < s.rotations[i].at + REFRESH_GRACE
    ensures var s := Exec(EMPTY, es);
            forall other :: other in s.table && Accepts(s.table[other], token, now) ==> other == id
  {
    InvAtStart();
    RunKeepsInv(EMPTY, es);
    var s := Exec(EMPTY, es);
    forall k | k in s.table && Accepts(s.table[k], token, now)
      ensures Owns(s, k, token)
    {
      assert PrevFrom(s, k, s.table[k]);
      assert forall i :: 0 <= i < |s.rotations| ==> RotationOk(s, s.rotations[i]);
    }
    assert PrevFrom(s, id, s.table[id]);
  }

  // Ended for good: no statement brings the session back.
  ghost predicate Gone(s: State, id: string) {
    id in s.ids && (id in s.table ==> s.table[id].revoked)
  }

  lemma StepKeepsGone(s: State, e: Step, id: string)
    requires Gone(s, id)
    ensures Gone(Apply(s, e), id)
  {
  }

  /** Once a session is revoked (or its row deleted) no later lookup finds it and no request
      passes on it, for any continuation of the run. */
  lemma {:induction false} RevokedForGood(s: State, es: seq<Step>, id: string)
    requires Gone(s, id)
    ensures Gone(Exec(s, es), id)
    ensures forall now, disabled :: !Active(Exec(s, es).table, id, now, disabled)
    ensures id in Exec(s, es).table ==> forall token, now :: !Accepts(Exec(s, es).table[id], token, now)
  {
    if es != [] {
      RevokedForGood(s, es[..|es| - 1], id);
      StepKeepsGone(Exec(s, es[..|es| - 1]), es[|es| - 1], id);
    }
  }

  lemma StepKeepsExpiry(s: State, e: Step, id: string)
    requires id in s.ids
    ensures id in Apply(s, e).ids
    ensures id in Apply(s, e).table ==> id in s.table && s.table[id].expires <= Apply(s, e).table[id].expires
  {
  }

  /** Expiry never moves back while the row exists, and a row that is gone stays gone. */
  lemma {:induction false} ExpiryNeverMovesBack(s: State, es: seq<Step>, id: string)
    requires id in s.ids
    ensures var u := Exec(s, es);
            id in u.ids && (id in u.table ==> id in s.table && s.table[id].expires <= u.table[id].expires)
  {
    if es != [] {
      ExpiryNeverMovesBack(s, es[..|es| - 1], id);
      StepKeepsExpiry(Exec(s, es[..|es| - 1]), es[|es| - 1], id);
    }
  }

  // The session is over or renewed again, or its row is as it was.
  ghost predicate AsRenewed(s: State, id: string, row: Session) {
    && id in s.ids && row.refresh in s.owner
    && (id in s.table && !s.table[id].revoked && s.table[id].refresh == row.refresh ==> s.table[id] == row)
  }

  lemma {:induction false} StaysAsRenewed(s: State, es: seq<Step>, id: string, row: Session)
    requires AsRenewed(s, id, row)
    ensures AsRenewed(Exec(s, es), id, row)
  {
    if es != [] {
      StaysAsRenewed(s, es[..|es| - 1], id, row);
    }
  }

  /** A renewal slides the session, and on every continuation, while the session is neither renewed again
      nor ended, both its tokens open it for the grace: the new one and the one it replaced; after the
      grace only the new one does. */
  lemma RenewalOpensTheGrace(s: State, call: nat, successor: Token, now: int, ttl: int, es: seq<Step>, later: int)
    requires Inv(s) && call in s.calls && s.calls[call].Looked? && s.calls[call].current && successor !in s.owner
    requires Rotates(s.table, s.calls[call].id, s.calls[call].token)
    requires var u, id := Exec(Apply(s, Renew(call, successor, now, ttl)), es), s.calls[call].id;
             id in u.table && !u.table[id].revoked && u.table[id].refresh == successor
    requires now <= later < now + ttl
    ensures var c := s.calls[call];
            var row := Exec(Apply(s, Renew(call, successor, now, ttl)), es).table[c.id];
            && Accepts(row, successor, later)
            && (Accepts(row, c.token, later) <==> later < now + REFRESH_GRACE)
            && row.expires >= now + ttl && row.subject == s.table[c.id].subject
  {
    var c, u := s.calls[call], Apply(s, Renew(call, successor, now, ttl));
    assert Owns(s, c.id, s.table[c.id].refresh);
    StaysAsRenewed(u, es, c.id, u.table[c.id]);
  }

  // ---- What a session's lifetime means ----

  // The step opens the session or renews it, for a lifetime that ends at until.
  ghost predicate Extends(s: State, e: Step, id: string, until: int) {
    match e
    case Login(k, _, _, now, ttl) => k == id && k !in s.ids && until == now + ttl
    case Renew(call, _, now, ttl) =>
      && call in s.calls && s.calls[call].Looked? && s.calls[call].id == id && s.calls[call].current
      && Rotates(s.table, id, s.calls[call].token) && until == now + ttl
    case _ => false
  }

  // Some login or renewal of the session, before the run's step n, lets it live until then.
  ghost predicate GivenLife(es: seq<Step>, n: nat, id: string, until: int)
    requires n <= |es|
  {
    exists i :: 0 <= i < n && Extends(Exec(EMPTY, es[..i]), es[i], id, until)
  }

  lemma {:induction false} ExpiryWasGivenLife(es: seq<Step>, id: string)
    requires id in Exec(EMPTY, es).table
    ensures GivenLife(es, |es|, id, Exec(EMPTY, es).table[id].expires)
  {
    if es != [] {
      var n := |es| - 1;
      var s := Exec(EMPTY, es[..n]);
      if id in s.table && s.table[id].expires == Exec(EMPTY, es).table[id].expires {
        ExpiryWasGivenLife(es[..n], id);
        var i :| 0 <= i < n && Extends(Exec(EMPTY, es[..n][..i]), es[..n][i], id, s.table[id].expires);
        assert es[..n][..i] == es[..i] && es[..n][i] == es[i];
      } else {
        RunKeepsIds(es[..n]);
        assert Extends(s, es[n], id, Exec(EMPTY, es).table[id].expires);
      }
    }
  }

  lemma {:induction false} RunKeepsIds(es: seq<Step>)
    ensures forall id :: id in Exec(EMPTY, es).table ==> id in Exec(EMPTY, es).ids
  {
    if es != [] {
      RunKeepsIds(es[..|es| - 1]);
    }
  }

  /** A session's subject is the one that signed in. */
  lemma {:induction false} SubjectSignedIn(es: seq<Step>, id: string)
    requires id in Exec(EMPTY, es).table
    ensures exists i :: 0 <= i < |es| && es[i].Login? && es[i].id == id &&
              es[i].subject == Exec(EMPTY, es).table[id].subject
  {
    var n := |es| - 1;
    var s := Exec(EMPTY, es[..n]);
    RunKeepsIds(es[..n]);
    if id in s.table {
      SubjectSignedIn(es[..n], id);
      var i :| 0 <= i < n && es[..n][i].Login? && es[..n][i].id == id && es[..n][i].subject == s.table[id].subject;
      assert es[i] == es[..n][i] && s.table[id].subject == Exec(EMPTY, es).table[id].subject;
    } else {
      assert es[n].Login? && es[n].id == id;
    }
  }

  // The step is a lookup that finds the session.
  ghost predicate Finds(s: State, e: Step) {
    e.LookUp? && e.call !in s.calls && e.call in Apply(s, e).calls
  }

  /** On every run a lookup finds a session only within the lifetime that some login or renewal of it gave. */
  lemma ExpiredIsNeverFound(es: seq<Step>, j: nat)
    requires j < |es| && Finds(Exec(EMPTY, es[..j]), es[j])
    ensures exists until :: GivenLife(es, j, es[j].id, until) && es[j].now < until
  {
    var s := Exec(EMPTY, es[..j]);
    ExpiryWasGivenLife(es[..j], es[j].id);
    var until := s.table[es[j].id].expires;
    var i :| 0 <= i < j && Extends(Exec(EMPTY, es[..j][..i]), es[..j][i], es[j].id, until);
    assert es[..j][..i] == es[..i] && es[..j][i] == es[i];
    assert GivenLife(es, j, es[j].id, until);
  }

  /** Nor does a request pass on it later than that. */
  lemma ExpiredIsNeverActive(es: seq<Step>, id: string, now: int, disabled: set<string>)
    requires Active(Exec(EMPTY, es).table, id, now, disabled)
    ensures exists until :: GivenLife(es, |es|, id, until) && now < until
    ensures var row := Exec(EMPTY, es).table[id]; !row.revoked && row.subject !in disabled
  {
    ExpiryWasGivenLife(es, id);
  }

  /** Logout, RevokeAll and the deletion of an account end exactly the sessions they name: those are gone
      for good, but for the rows they leave revoked, and every other row is as it was. */
  lemma EndsExactly(s: State, e: Step, k: string)
    requires k in s.table && k in s.ids && (e.Logout? || e.RevokeAll? || e.Delete?)
    ensures var u, row := Apply(s, e), s.table[k];
            var named := if e.Logout? then k == e.id else row.subject == e.subject;
            && (named ==> Gone(u, k) && (k in u.table ==> u.table[k].subject == row.subject))
            && (!named ==> k in u.table && u.table[k] == row)
    ensures e.Delete? && s.table[k].subject == e.subject && k in Apply(s, e).table ==>
              e.keep == Some(k) && Apply(s, e).table[k].prev == None
  {
  }
}
