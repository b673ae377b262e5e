/**
 Workspaces, their members and their invitations (packs/auth/teams.go): the routes' transactions,
 and every interleaving of the checks and transactions of any number of calls.
 */
module Workspaces {
  import opened Wrappers
  import opened Permissions

  datatype Invite = Invite(workspace: string, email: string, role: string, expires: int, open: bool)

  datatype Tables = Tables(members: set<Member>, workspaces: set<string>, invites: map<string, Invite>)

  datatype Error =
    | NoWorkspace | Forbidden | UnknownRole | Escalation | NoMember | LastOwner | TooManyInvites | InviteGone
    | InviteAddress

  // The app's roles and the one that owns a workspace.
  datatype Config = Config(roles: Roles, owner: string, maxInvites: nat)

  // ---- The transactions ----

  function RolesIn(members: set<Member>, subject: string, ws: string): set<string> {
    set m | m in members && m.subject == subject && m.scope == ws :: m.role
  }

  function OwnersOf(c: Config, members: set<Member>, ws: string): set<Member> {
    set m | m in members && m.scope == ws && m.role == c.owner
  }

  function Without(members: set<Member>, subject: string, ws: string): set<Member> {
    set m | m in members && !(m.subject == subject && m.scope == ws)
  }

  predicate IsLastOwner(c: Config, members: set<Member>, subject: string, ws: string) {
    c.owner in RolesIn(members, subject, ws) && |OwnersOf(c, members, ws)| <= 1
  }

  // The subject has a role the map names, in the workspace or app-wide.
  predicate Belongs(c: Config, members: set<Member>, subject: string, ws: string) {
    exists m :: m in members && Applies(m, subject, ws) && m.role in c.roles
  }

  // Some role of the set that the map names grants more than the actor holds.
  predicate Outranks(c: Config, members: set<Member>, actor: string, ws: string, held: set<string>) {
    exists r :: r in held && r in c.roles && !Holds(c.roles, members, actor, ws, c.roles[r])
  }

  // The actor can do everything the role would let its holder do.
  ghost predicate Covers(c: Config, members: set<Member>, actor: string, ws: string, role: string) {
    forall w :: RoleGrants(c.roles, role, w) ==> Can(c.roles, members, actor, ws, w)
  }

  // Every role of the map that someone holds before and not after is one the actor covers.
  ghost predicate TakesWithin(c: Config, before: set<Member>, after: set<Member>, actor: string, ws: string) {
    forall m :: m in before && m !in after && m.role in c.roles ==> Covers(c, before, actor, ws, m.role)
  }

  // Nobody's membership has changed but the subject's in the workspace.
  ghost predicate OnlyChanges(before: set<Member>, after: set<Member>, subject: string, ws: string) {
    forall m: Member :: m.subject != subject || m.scope != ws ==> (m in before <==> m in after)
  }

  lemma NotOutranked(c: Config, members: set<Member>, actor: string, ws: string, held: set<string>)
    requires !Outranks(c, members, actor, ws, held)
    ensures forall r :: r in held && r in c.roles ==> Covers(c, members, actor, ws, r)
  {
    forall r | r in held && r in c.roles
      ensures Covers(c, members, actor, ws, r)
    {
      HoldingIsCovering(c.roles, members, actor, ws, c.roles[r]);
    }
  }

  /** What a change of role does: the subject has the new role and no other, and the actor covers every role
      taken away. */
  lemma SetRoleMeans(c: Config, members: set<Member>, actor: string, ws: string, subject: string, role: string)
    requires SetRoleTx(c, members, actor, ws, subject, role).Ok?
    ensures var after := SetRoleTx(c, members, actor, ws, subject, role).value;
            && (exists r :: Member(subject, ws, r) in members)
            && (forall r :: Member(subject, ws, r) in after <==> r == role)
            && OnlyChanges(members, after, subject, ws) && TakesWithin(c, members, after, actor, ws)
  {
    var current := RolesIn(members, subject, ws);
    var r :| r in current;
    assert Member(subject, ws, r) in members;
    NotOutranked(c, members, actor, ws, current - {role});
    forall m | m in members && m.subject == subject && m.scope == ws
      ensures m.role in current
    {
    }
  }

  /** And a removal: the subject has no role left, and the actor, unless it is the subject, covers every role
      taken away. */
  lemma RemovalMeans(c: Config, members: set<Member>, actor: string, ws: string, subject: string)
    requires RemoveTx(c, members, actor, ws, subject).Ok?
    ensures var after := RemoveTx(c, members, actor, ws, subject).value;
            && (exists r :: Member(subject, ws, r) in members)
            && (forall r :: Member(subject, ws, r) !in after)
            && OnlyChanges(members, after, subject, ws)
            && (subject != actor ==> TakesWithin(c, members, after, actor, ws))
  {
    var current := RolesIn(members, subject, ws);
    var r :| r in current;
    assert Member(subject, ws, r) in members;
    if subject != actor {
      NotOutranked(c, members, actor, ws, current);
    }
    forall m | m in members && m.subject == subject && m.scope == ws
      ensures m.role in current
    {
    }
  }

  function SetRoleTx(c: Config, members: set<Member>, actor: string, ws: string, subject: string,
      role: string): Result<set<Member>, Error> {
    var current := RolesIn(members, subject, ws);
    if current == {} then Err(NoMember)
    else if Outranks(c, members, actor, ws, current - {role}) then Err(Escalation)
    else if role != c.owner && IsLastOwner(c, members, subject, ws) then Err(LastOwner)
    else Ok(Without(members, subject, ws) + {Member(subject, ws, role)})
  }

  function RemoveTx(c: Config, members: set<Member>, actor: string, ws: string, subject: string):
      Result<set<Member>, Error> {
    var current := RolesIn(members, subject, ws);
    if current == {} then Err(NoMember)
    else if subject != actor && Outranks(c, members, actor, ws, current) then Err(Escalation)
    else if IsLastOwner(c, members, subject, ws) then Err(LastOwner)
    else Ok(Without(members, subject, ws))
  }

  function DeleteTx(t: Tables, ws: string): Tables {
    Tables((set m | m in t.members && m.scope != ws), t.workspaces - {ws},
        map i | i in t.invites && t.invites[i].workspace != ws :: t.invites[i])
  }

  predicate OpenFor(i: Invite, ws: string, email: string) {
    i.open && i.workspace == ws && i.email == email
  }

  // The two statements of an invitation: the address's open ones are revoked, then the new one is inserted.
  function Revoked(invites: map<string, Invite>, ws: string, email: string): map<string, Invite> {
    map i | i in invites ::
      if invites[i].workspace == ws && invites[i].email == email then invites[i].(open := false) else invites[i]
  }

  function InviteTables(t: Tables, ws: string, email: string, role: string, expires: int, id: string):
      map<string, Invite> {
    Revoked(t.invites, ws, email)[id := Invite(ws, email, role, expires, true)]
  }

  function OpenInvites(t: Tables, ws: string, now: int): set<string> {
    set i | i in t.invites && t.invites[i].workspace == ws && t.invites[i].open && now < t.invites[i].expires
  }

  predicate Acceptable(t: Tables, id: string, now: int) {
    id in t.invites && t.invites[id].open && now < t.invites[id].expires
  }

  function AcceptTx(c: Config, t: Tables, id: string, subject: string, email: string, now: int): Result<Tables, Error> {
    if !Acceptable(t, id, now) then Err(InviteGone)
    else
      var inv := t.invites[id];
      if email != inv.email then Err(InviteAddress)
      else if inv.role !in c.roles then Err(InviteGone)
      else Ok(t.(members := t.members + {Member(subject, inv.workspace, inv.role)},
          invites := t.invites[id := inv.(open := false)]))
  }

  /** The routes, one call after the other. */
  class Teams {
    const c: Config
    var members: set<Member>
    var workspaces: set<string>
    var invites: map<string, Invite>

    constructor (c: Config)
      ensures this.c == c && members == {} && workspaces == {} && invites == map[]
    {
      this.c, members, workspaces, invites := c, {}, {}, map[];
    }

    function State(): Tables
      reads this
    {
      Tables(members, workspaces, invites)
    }

    // Roles.Of: the roles of the map the subject holds in the scope or app-wide.
    method Of(subject: string, scope: string) returns (held: seq<string>)
      ensures forall r :: r in held <==>
                r in c.roles && exists m :: m in members && Applies(m, subject, scope) && m.role == r
    {
      held := [];
      if subject == "" {
        return;
      }
      var rows := set m | m in members && m.subject == subject && (m.scope == scope || m.scope == APP_WIDE) :: m.role;
      while rows != {}
        invariant forall r :: r in held || (r in rows && r in c.roles) <==>
                    r in c.roles && exists m :: m in members && Applies(m, subject, scope) && m.role == r
        decreases rows
      {
        var r :| r in rows;
        if r in c.roles {
          held := held + [r];
        }
        rows := rows - {r};
      }
    }

    method Can(subject: string, scope: string, want: string) returns (yes: bool)
      ensures yes == Permissions.Can(c.roles, members, subject, scope, want)
    {
      var held := Of(subject, scope);
      for i := 0 to |held|
        invariant forall k :: 0 <= k < i ==> !RoleGrants(c.roles, held[k], want)
      {
        var perms := c.roles[held[i]];
        for j := 0 to |perms|
          invariant forall k :: 0 <= k < j ==> !Grants(perms[k], want)
        {
          if Grants(perms[j], want) {
            assert RoleGrants(c.roles, held[i], want);
            return true;
          }
        }
      }
      return false;
    }

    method Grantable(actor: string, ws: string, role: string) returns (e: Option<Error>)
      ensures e == if role !in c.roles then Some(UnknownRole)
                   else if Holds(c.roles, members, actor, ws, c.roles[role]) then None else Some(Escalation)
    {
      if role !in c.roles {
        return Some(UnknownRole);
      }
      var perms := c.roles[role];
      for i := 0 to |perms|
        invariant forall k :: 0 <= k < i ==> Permissions.Can(c.roles, members, actor, ws, perms[k])
      {
        var can := Can(actor, ws, perms[i]);
        if !can {
          return Some(Escalation);
        }
      }
      return None;
    }

    // workspace and allowed: 404 for a stranger, 403 for a member without the permission.
    method Allowed(actor: string, ws: string, want: string) returns (e: Option<Error>)
      ensures e.None? ==> ws in workspaces && Permissions.Can(c.roles, members, actor, ws, want)
      ensures e == Some(Forbidden) ==> ws in workspaces && !Permissions.Can(c.roles, members, actor, ws, want)
      ensures e.Some? ==> e.value == Forbidden || e.value == NoWorkspace
      ensures ws in workspaces && Permissions.Can(c.roles, members, actor, ws, want) ==> e.None?
    {
      if ws !in workspaces {
        return Some(NoWorkspace);
      }
      var held := Of(actor, ws);
      if held == [] {
        return Some(NoWorkspace);
      }
      var can := Can(actor, ws, want);
      return if can then None else Some(Forbidden);
    }

    method Create(actor: string, ws: string)
      requires ws !in workspaces
      modifies this
      ensures State() == old(State()).(members := old(members) + {Member(actor, ws, c.owner)},
          workspaces := old(workspaces) + {ws})
    {
      workspaces := workspaces + {ws};
      members := members + {Member(actor, ws, c.owner)};
    }

    method Delete(actor: string, ws: string) returns (e: Option<Error>)
      modifies this
      ensures State() == if e.None? then DeleteTx(old(State()), ws) else old(State())
      ensures e.None? <==>
              ws in old(workspaces) && Permissions.Can(c.roles, old(members), actor, ws, "workspace.delete")
    {
      e := Allowed(actor, ws, "workspace.delete");
      if e.None? {
        members := set m | m in members && m.scope != ws;
        invites := map i | i in invites && invites[i].workspace != ws :: invites[i];
        workspaces := workspaces - {ws};
      }
    }

    // The grantable checks on the roles a member loses.
    method MayTake(actor: string, ws: string, held: set<string>) returns (ok: bool)
      ensures ok == !Outranks(c, members, actor, ws, held)
    {
      var rest := held;
      while rest != {}
        invariant rest <= held
        invariant forall r :: r in held - rest && r in c.roles ==> Holds(c.roles, members, actor, ws, c.roles[r])
        decreases rest
      {
        var r :| r in rest;
        rest := rest - {r};
        if r in c.roles {
          var e := Grantable(actor, ws, r);
          if e.Some? {
            return false;
          }
        }
      }
      return true;
    }

    method SetRole(actor: string, ws: string, subject: string, role: string) returns (e: Option<Error>)
      modifies this`members
      ensures e.None? <==> && ws in workspaces && Permissions.Can(c.roles, old(members), actor, ws, "members.manage")
                           && role in c.roles && Holds(c.roles, old(members), actor, ws, c.roles[role])
                           && SetRoleTx(c, old(members), actor, ws, subject, role).Ok?
      ensures e.None? ==> members == SetRoleTx(c, old(members), actor, ws, subject, role).value
      ensures e.None? ==> Covers(c, old(members), actor, ws, role)
      ensures e.None? ==> TakesWithin(c, old(members), members, actor, ws)
      ensures e.None? ==> OnlyChanges(old(members), members, subject, ws)
      ensures e.None? ==> forall r :: Member(subject, ws, r) in members <==> r == role
      ensures e.Some? ==> members == old(members)
    {
      e := Allowed(actor, ws, "members.manage");
      if e.Some? { return; }
      e := Grantable(actor, ws, role);
      if e.Some? { return; }
      var current := set m | m in members && m.scope == ws && m.subject == subject :: m.role;
      assert current == RolesIn(members, subject, ws);
      if current == {} {
        return Some(NoMember);
      }
      var may := MayTake(actor, ws, current - {role});
      if !may {
        return Some(Escalation);
      }
      if role != c.owner && c.owner in current {
        var owners := set m | m in members && m.scope == ws && m.role == c.owner;
        assert owners == OwnersOf(c, members, ws);
        if |owners| <= 1 {
          return Some(LastOwner);
        }
      }
      SetRoleMeans(c, members, actor, ws, subject, role);
      HoldingIsCovering(c.roles, members, actor, ws, c.roles[role]);
      members := set m | m in members && !(m.subject == subject && m.scope == ws);
      members := members + {Member(subject, ws, role)};
    }

    method RemoveMember(actor: string, ws: string, subject: string) returns (e: Option<Error>)
      modifies this`members
      ensures e.None? <==> && ws in workspaces && Belongs(c, old(members), actor, ws)
                           && (subject == actor || Permissions.Can(c.roles, old(members), actor, ws, "members.manage"))
                           && RemoveTx(c, old(members), actor, ws, subject).Ok?
      ensures e.None? ==> members == RemoveTx(c, old(members), actor, ws, subject).value
      ensures e.None? && subject != actor ==> TakesWithin(c, old(members), members, actor, ws)
      ensures e.None? ==> OnlyChanges(old(members), members, subject, ws)
      ensures e.None? ==> forall r :: Member(subject, ws, r) !in members
      ensures e.Some? ==> members == old(members)
      ensures e == Some(LastOwner) ==> IsLastOwner(c, members, subject, ws)
    {
      if ws !in workspaces {
        return Some(NoWorkspace);
      }
      var held := Of(actor, ws);
      assert forall m :: m in members && Applies(m, actor, ws) && m.role in c.roles ==> m.role in held;
      if held == [] {
        return Some(NoWorkspace);
      }
      assert held[0] in held;
      if subject != actor {
        var can := Can(actor, ws, "members.manage");
        if !can {
          return Some(Forbidden);
        }
      }
      var current := set m | m in members && m.scope == ws && m.subject == subject :: m.role;
      assert current == RolesIn(members, subject, ws);
      if current == {} {
        return Some(NoMember);
      }
      if subject != actor {
        var may := MayTake(actor, ws, current);
        if !may {
          return Some(Escalation);
        }
      }
      if c.owner in current {
        var owners := set m | m in members && m.scope == ws && m.role == c.owner;
        assert owners == OwnersOf(c, members, ws);
        if |owners| <= 1 {
          return Some(LastOwner);
        }
      }
      RemovalMeans(c, members, actor, ws, subject);
      members := set m | m in members && !(m.subject == subject && m.scope == ws);
      e := None;
    }

    method InviteMember(actor: string, ws: string, email: string, role: string, id: string, now: int, ttl: int)
        returns (e: Option<Error>)
      requires id !in invites
      modifies this`invites
      ensures e.None? <==> && ws in workspaces && Permissions.Can(c.roles, members, actor, ws, "members.invite")
                           && role in c.roles && Holds(c.roles, members, actor, ws, c.roles[role])
                           && |OpenInvites(old(State()), ws, now)| < (if c.maxInvites == 0 then 100 else c.maxInvites)
      ensures e.None? ==> invites == InviteTables(old(State()), ws, email, role, now + ttl, id)
      ensures e.None? ==> role in c.roles
      ensures e.None? ==> forall w :: RoleGrants(c.roles, role, w) ==> Permissions.Can(c.roles, members, actor, ws, w)
      ensures e.None? ==> forall i :: i in invites && OpenFor(invites[i], ws, email) ==> i == id
      ensures e.Some? ==> invites == old(invites)
    {
      e := Allowed(actor, ws, "members.invite");
      if e.Some? { return; }
      e := Grantable(actor, ws, role);
      if e.Some? { return; }
      HoldingIsCovering(c.roles, members, actor, ws, c.roles[role]);
      var open := set i | i in invites && invites[i].workspace == ws && invites[i].open && now < invites[i].expires;
      assert open == OpenInvites(State(), ws, now);
      if |open| >= (if c.maxInvites == 0 then 100 else c.maxInvites) {
        return Some(TooManyInvites);
      }
      invites := map i | i in invites ::
        if invites[i].workspace == ws && invites[i].email == email then invites[i].(open := false) else invites[i];
      invites := invites[id := Invite(ws, email, role, now + ttl, true)];
    }

    method Accept(id: string, subject: string, email: string, now: int) returns (e: Option<Error>)
      modifies this`members, this`invites
      ensures match AcceptTx(c, old(State()), id, subject, email, now)
              case Ok(t) => e.None? && State() == t
              case Err(error) => e == Some(error) && State() == old(State())
    {
      if !(id in invites && invites[id].open && now < invites[id].expires) {
        return Some(InviteGone);
      }
      var inv := invites[id];
      if email != inv.email {
        return Some(InviteAddress);
      }
      if inv.role !in c.roles {
        return Some(InviteGone);
      }
      invites := invites[id := inv.(open := false)];
      members := members + {Member(subject, inv.workspace, inv.role)};
      return None;
    }
  }

  // ---- Every interleaving ----

  // A set-role or invite call past its first checks: the first done permissions of the role have
  // each been found held, one query at a time. address: where open invitations have been revoked for a
  // new one.
  datatype Check = Check(actor: string, ws: string, role: string, done: nat, address: Option<string>)

  datatype State = State(t: Tables, checks: map<nat, Check>, used: set<string>)

  datatype Step =
    | Create(actor: string, ws: string)
    | Begin(call: nat, actor: string, ws: string, role: string)
    | CheckNext(call: nat)
    | SetRole(call: nat, subject: string)
    | ReplaceInvites(call: nat, email: string)
    | SendInvite(call: nat, id: string, expires: int)
    | RevokeInvite(id: string)
    | Accept(id: string, subject: string, email: string, now: int)
    | Remove(actor: string, ws: string, subject: string)
    | Delete(ws: string)
    | DeleteUser(subject: string)

  predicate Checked(c: Config, s: State, call: nat) {
    call in s.checks && s.checks[call].role in c.roles && s.checks[call].done >= |c.roles[s.checks[call].role]|
  }

  function Apply(c: Config, s: State, e: Step): State {
    var t := s.t;
    match e
    case Create(actor, ws) =>
      if ws in s.used || ws == APP_WIDE then s
      else s.(t := t.(members := t.members + {Member(actor, ws, c.owner)}, workspaces := t.workspaces + {ws}),
          used := s.used + {ws})
    case Begin(call, actor, ws, role) =>
      if ws !in t.workspaces then s else s.(checks := s.checks[call := Check(actor, ws, role, 0, None)])
    case CheckNext(call) =>
      if call !in s.checks then s
      else
        var k := s.checks[call];
        if k.role in c.roles && k.done < |c.roles[k.role]|
            && Can(c.roles, t.members, k.actor, k.ws, c.roles[k.role][k.done])
        then s.(checks := s.checks[call := k.(done := k.done + 1)])
        else s
    case SetRole(call, subject) =>
      if !Checked(c, s, call) || s.checks[call].address.Some? then s
      else
        var k := s.checks[call];
        (match SetRoleTx(c, t.members, k.actor, k.ws, subject, k.role)
         case Ok(members) => s.(t := t.(members := members), checks := s.checks - {call})
         case Err(_) => s)
    case ReplaceInvites(call, email) =>
      if !Checked(c, s, call) || s.checks[call].address.Some? then s
      else
        var k := s.checks[call];
        s.(t := t.(invites := Revoked(t.invites, k.ws, email)), checks := s.checks[call := k.(address := Some(email))])
    case SendInvite(call, id, expires) =>
      if !Checked(c, s, call) || s.checks[call].address.None? || id in t.invites then s
      else
        var k := s.checks[call];
        s.(t := t.(invites := t.invites[id := Invite(k.ws, k.address.value, k.role, expires, true)]),
            checks := s.checks - {call})
    case RevokeInvite(id) =>
      if id !in t.invites then s else s.(t := t.(invites := t.invites[id := t.invites[id].(open := false)]))
    case Accept(id, subject, email, now) =>
      (match AcceptTx(c, t, id, subject, email, now)
       case Ok(u) => s.(t := u)
       case Err(_) => s)
    case Remove(actor, ws, subject) =>
      if ws !in t.workspaces then s
      else
        (match RemoveTx(c, t.members, actor, ws, subject)
         case Ok(members) => s.(t := t.(members := members))
         case Err(_) => s)
    case Delete(ws) => if ws !in t.workspaces then s else s.(t := DeleteTx(t, ws))
    case DeleteUser(subject) => s.(t := t.(members := set m | m in t.members && m.subject != subject))
  }

  function Exec(c: Config, s: State, es: seq<Step>): State {
    if es == [] then s else Apply(c, Exec(c, s, es[..|es| - 1]), es[|es| - 1])
  }

  // ---- Nobody grants above themselves ----

  // Workspace ids are never the app-wide scope and are remembered once used.
  ghost predicate Scoped(s: State) {
    && s.t.workspaces <= s.used && APP_WIDE !in s.used
    && (forall k :: k in s.checks ==> s.checks[k].ws in s.used)
    && (forall i :: i in s.t.invites ==> s.t.invites[i].workspace in s.used)
    && (forall m :: m in s.t.members ==> m.scope == APP_WIDE || m.scope in s.used)
  }

  // In the workspace nobody holds a role granting w, no open invitation carries one, and no call
  // has passed a check on a permission granting it.
  ghost predicate NobodyCan(c: Config, s: State, ws: string, w: string) {
    && ws in s.used
    && (forall m :: m in s.t.members && (m.scope == ws || m.scope == APP_WIDE) ==> !RoleGrants(c.roles, m.role, w))
    && (forall i :: i in s.t.invites && s.t.invites[i].open && s.t.invites[i].workspace == ws ==>
          !RoleGrants(c.roles, s.t.invites[i].role, w))
    && (forall k :: k in s.checks && s.checks[k].ws == ws ==> CheckedWithout(c, s.checks[k], w))
  }

  ghost predicate CheckedWithout(c: Config, k: Check, w: string) {
    k.role in c.roles ==> k.done <= |c.roles[k.role]| && forall j :: 0 <= j < k.done ==> !Grants(c.roles[k.role][j], w)
  }

  lemma CheckFindsNothing(c: Config, s: State, k: Check, ws: string, w: string)
    requires NobodyCan(c, s, ws, w) && k.ws == ws && k.role in c.roles && k.done < |c.roles[k.role]|
    requires Can(c.roles, s.t.members, k.actor, ws, c.roles[k.role][k.done])
    ensures !Grants(c.roles[k.role][k.done], w)
  {
    if Grants(c.roles[k.role][k.done], w) {
      CanIsClosed(c.roles, s.t.members, k.actor, ws, c.roles[k.role][k.done], w);
    }
  }

  lemma CheckedRoleGrantsNothing(c: Config, s: State, call: nat, ws: string, w: string)
    requires NobodyCan(c, s, ws, w) && Checked(c, s, call) && s.checks[call].ws == ws
    ensures !RoleGrants(c.roles, s.checks[call].role, w)
  {
    assert CheckedWithout(c, s.checks[call], w);
  }

  lemma ChecksKeepNobody(c: Config, s: State, e: Step, ws: string, w: string)
    requires Scoped(s) && NobodyCan(c, s, ws, w) && e.CheckNext?
    ensures Scoped(Apply(c, s, e)) && NobodyCan(c, Apply(c, s, e), ws, w)
  {
    if e.call in s.checks && s.checks[e.call].ws == ws {
      var k := s.checks[e.call];
      if k.role in c.roles && k.done < |c.roles[k.role]|
          && Can(c.roles, s.t.members, k.actor, k.ws, c.roles[k.role][k.done]) {
        CheckFindsNothing(c, s, k, ws, w);
        assert CheckedWithout(c, k, w);
      }
    }
  }

  lemma GrantsKeepNobody(c: Config, s: State, e: Step, ws: string, w: string)
    requires Scoped(s) && NobodyCan(c, s, ws, w) && (e.SetRole? || e.ReplaceInvites? || e.SendInvite?)
    ensures Scoped(Apply(c, s, e)) && NobodyCan(c, Apply(c, s, e), ws, w)
  {
    if Checked(c, s, e.call) && s.checks[e.call].ws == ws {
      CheckedRoleGrantsNothing(c, s, e.call, ws, w);
    }
  }

  lemma StepKeepsNobody(c: Config, s: State, e: Step, ws: string, w: string)
    requires Scoped(s) && NobodyCan(c, s, ws, w)
    ensures Scoped(Apply(c, s, e)) && NobodyCan(c, Apply(c, s, e), ws, w)
  {
    if e.CheckNext? {
      ChecksKeepNobody(c, s, e, ws, w);
    } else if e.SetRole? || e.ReplaceInvites? || e.SendInvite? {
      GrantsKeepNobody(c, s, e, ws, w);
    }
  }

  /** No run of the routes creates a permission from nothing: what nobody can do in a workspace
      (app-wide roles included), and no open invitation or half-made check leads to, nobody can
      ever do there, however stale the checks behind a later grant or acceptance. */
  lemma {:induction false} NoPermissionFromNothing(c: Config, s: State, es: seq<Step>, ws: string, w: string)
    requires Scoped(s) && NobodyCan(c, s, ws, w)
    ensures Scoped(Exec(c, s, es)) && NobodyCan(c, Exec(c, s, es), ws, w)
    ensures forall subject :: !Can(c.roles, Exec(c, s, es).t.members, subject, ws, w)
  {
    if es != [] {
      NoPermissionFromNothing(c, s, es[..|es| - 1], ws, w);
      StepKeepsNobody(c, Exec(c, s, es[..|es| - 1]), es[|es| - 1], ws, w);
    }
  }

  // ---- When a role may be taken ----

  // Another member of the workspace owns it too.
  predicate OwnedToo(c: Config, members: set<Member>, subject: string, ws: string) {
    exists m :: m in members && m.scope == ws && m.role == c.owner && m.subject != subject
  }

  lemma LastOwnerMeans(c: Config, members: set<Member>, subject: string, ws: string)
    ensures IsLastOwner(c, members, subject, ws) <==>
            Member(subject, ws, c.owner) in members && !OwnedToo(c, members, subject, ws)
  {
    var owners, mine := OwnersOf(c, members, ws), Member(subject, ws, c.owner);
    if mine in members {
      assert c.owner in RolesIn(members, subject, ws) && mine in owners;
      assert |owners - {mine}| == |owners| - 1;
      if OwnedToo(c, members, subject, ws) {
        var m :| m in members && m.scope == ws && m.role == c.owner && m.subject != subject;
        assert m in owners - {mine};
      } else {
        assert forall m :: m in owners ==> m == mine;
        assert owners == {mine};
      }
    }
  }

  // The actor covers every role of the map that the subject holds in the workspace, but one it keeps.
  ghost predicate Outgrows(c: Config, members: set<Member>, actor: string, ws: string, subject: string, kept: string) {
    forall r :: Member(subject, ws, r) in members && r != kept && r in c.roles ==> Covers(c, members, actor, ws, r)
  }

  lemma OutrankedMeans(c: Config, members: set<Member>, actor: string, ws: string, held: set<string>)
    ensures Outranks(c, members, actor, ws, held) <==>
            exists r :: r in held && r in c.roles && !Covers(c, members, actor, ws, r)
  {
    forall r | r in held && r in c.roles
      ensures Holds(c.roles, members, actor, ws, c.roles[r]) <==> Covers(c, members, actor, ws, r)
    {
      HoldingIsCovering(c.roles, members, actor, ws, c.roles[r]);
    }
  }

  lemma RolesMean(members: set<Member>, subject: string, ws: string)
    ensures forall r :: r in RolesIn(members, subject, ws) <==> Member(subject, ws, r) in members
  {
  }

  /** A member is removed exactly when there is one, the actor is that member or covers all its roles, and the
      workspace keeps an owner. */
  lemma RemovalAllowedExactly(c: Config, members: set<Member>, actor: string, ws: string, subject: string)
    ensures RemoveTx(c, members, actor, ws, subject).Ok? <==>
            && (exists r :: Member(subject, ws, r) in members)
            && (subject == actor ||
                forall r :: Member(subject, ws, r) in members && r in c.roles ==> Covers(c, members, actor, ws, r))
            && (Member(subject, ws, c.owner) in members ==> OwnedToo(c, members, subject, ws))
  {
    var current := RolesIn(members, subject, ws);
    RolesMean(members, subject, ws);
    assert current != {} ==> exists r :: r in current;
    OutrankedMeans(c, members, actor, ws, current);
    LastOwnerMeans(c, members, subject, ws);
  }

  /** A role changes exactly when the subject has one, the actor covers all that it loses, and the workspace
      keeps an owner. */
  lemma SetRoleAllowedExactly(c: Config, members: set<Member>, actor: string, ws: string, subject: string, role: string)
    ensures SetRoleTx(c, members, actor, ws, subject, role).Ok? <==>
            && (exists r :: Member(subject, ws, r) in members)
            && Outgrows(c, members, actor, ws, subject, role)
            && (role != c.owner && Member(subject, ws, c.owner) in members ==> OwnedToo(c, members, subject, ws))
  {
    var current := RolesIn(members, subject, ws);
    RolesMean(members, subject, ws);
    assert current != {} ==> exists r :: r in current;
    OutrankedMeans(c, members, actor, ws, current - {role});
    LastOwnerMeans(c, members, subject, ws);
  }

  // ---- How memberships come and go ----

  /** A role is taken from another only by someone who covers it; what else removes memberships is leaving,
      deleting the workspace and deleting the account. */
  lemma TakingNeedsStanding(c: Config, s: State, e: Step, m: Member)
    requires m in s.t.members && m !in Apply(c, s, e).t.members && m.role in c.roles
    ensures match e
            case Remove(actor, ws, subject) =>
              m.subject == subject && m.scope == ws &&
              (subject != actor ==> Covers(c, s.t.members, actor, ws, m.role))
            case SetRole(call, subject) =>
              Checked(c, s, call) && m.subject == subject && m.scope == s.checks[call].ws &&
              Covers(c, s.t.members, s.checks[call].actor, s.checks[call].ws, m.role)
            case Delete(ws) => m.scope == ws
            case DeleteUser(subject) => m.subject == subject
            case _ => false
  {
    match e
    case Remove(actor, ws, subject) => RemovalMeans(c, s.t.members, actor, ws, subject);
    case SetRole(call, subject) =>
      var k := s.checks[call];
      SetRoleMeans(c, s.t.members, k.actor, k.ws, subject, k.role);
    case _ =>
  }

  /** A membership comes from founding the workspace, from a role given after its checks, or from an
      invitation that is open, not expired and sent to that address, and is then closed. */
  lemma MembersComeBy(c: Config, s: State, e: Step, m: Member)
    requires m !in s.t.members && m in Apply(c, s, e).t.members
    ensures match e
            case Create(actor, ws) => m == Member(actor, ws, c.owner) && ws !in s.used
            case SetRole(call, subject) =>
              Checked(c, s, call) && m == Member(subject, s.checks[call].ws, s.checks[call].role)
            case Accept(id, subject, email, now) =>
              && id in s.t.invites && s.t.invites[id].open && now < s.t.invites[id].expires
              && s.t.invites[id].email == email && m == Member(subject, s.t.invites[id].workspace, s.t.invites[id].role)
              && m.role in c.roles && !Apply(c, s, e).t.invites[id].open
            case _ => false
  {
  }

  /** An invitation that is open, not expired, for a role the map names and sent to the address does its work. */
  lemma InvitationsWork(c: Config, s: State, id: string, subject: string, email: string, now: int)
    requires id in s.t.invites && s.t.invites[id].open && now < s.t.invites[id].expires
    requires s.t.invites[id].email == email && s.t.invites[id].role in c.roles
    ensures var u, invite := Apply(c, s, Accept(id, subject, email, now)).t, s.t.invites[id];
            && u.members == s.t.members + {Member(subject, invite.workspace, invite.role)}
            && u.invites == s.t.invites[id := invite.(open := false)] && u.workspaces == s.t.workspaces
  {
  }

  // ---- The last owner ----

  predicate HasOwner(c: Config, t: Tables, ws: string) {
    exists m :: m in t.members && m.scope == ws && m.role == c.owner
  }

  predicate Owned(c: Config, t: Tables) {
    forall ws :: ws in t.workspaces ==> HasOwner(c, t, ws)
  }

  lemma AnotherOwner(c: Config, t: Tables, subject: string, ws: string)
    requires HasOwner(c, t, ws) && !IsLastOwner(c, t.members, subject, ws)
    ensures exists m :: m in t.members && m.scope == ws && m.role == c.owner && m.subject != subject
  {
    var owners := OwnersOf(c, t.members, ws);
    var mine := Member(subject, ws, c.owner);
    if mine in owners {
      assert c.owner in RolesIn(t.members, subject, ws);
      assert |owners - {mine}| == |owners| - 1;
      var other :| other in owners - {mine};
      assert other.subject != subject;
    }
  }

  lemma WithoutKeepsOwner(c: Config, t: Tables, subject: string, ws: string, at: string, more: set<Member>)
    requires HasOwner(c, t, at) && (at == ws ==> !IsLastOwner(c, t.members, subject, ws))
    ensures HasOwner(c, t.(members := Without(t.members, subject, ws) + more), at)
  {
    if at == ws {
      AnotherOwner(c, t, subject, ws);
      var m :| m in t.members && m.scope == ws && m.role == c.owner && m.subject != subject;
      assert m in Without(t.members, subject, ws);
    } else {
      var m :| m in t.members && m.scope == at && m.role == c.owner;
      assert m in Without(t.members, subject, ws);
    }
  }

  // The routes keep every workspace owned; deleting an account keeps it so exactly when each
  // workspace has an owner besides that account.
  lemma StepKeepsOwners(c: Config, s: State, e: Step)
    requires Owned(c, s.t)
    ensures !e.DeleteUser? ==> Owned(c, Apply(c, s, e).t)
    ensures e.DeleteUser? ==> (Owned(c, Apply(c, s, e).t) <==>
              forall ws :: ws in s.t.workspaces ==> OwnedByAnother(c, s.t, ws, e.subject))
  {
    var u := Apply(c, s, e);
    match e
    case SetRole(call, subject) =>
      if Checked(c, s, call) && SetRoleTx(c, s.t.members, s.checks[call].actor, s.checks[call].ws, subject,
          s.checks[call].role).Ok? {
        SetRoleKeepsOwners(c, s.t, s.checks[call].ws, subject, s.checks[call].role);
      }
    case Remove(actor, ws, subject) =>
      if ws in s.t.workspaces && RemoveTx(c, s.t.members, actor, ws, subject).Ok? {
        forall at | at in s.t.workspaces ensures HasOwner(c, u.t, at) {
          WithoutKeepsOwner(c, s.t, subject, ws, at, {});
          assert Without(s.t.members, subject, ws) + {} == Without(s.t.members, subject, ws);
        }
      }
    case Create(actor, ws) =>
      assert ws in u.t.workspaces - s.t.workspaces ==> Member(actor, ws, c.owner) in u.t.members;
      assert s.t.members <= u.t.members;
    case Accept(id, subject, email, now) => assert s.t.members <= u.t.members;
    case Delete(ws) => OtherWorkspacesKeepOwners(c, s.t, ws);
    case DeleteUser(subject) =>
      forall ws | ws in s.t.workspaces
        ensures HasOwner(c, u.t, ws) <==> OwnedByAnother(c, s.t, ws, subject)
      {
      }
    case _ =>
  }

  ghost predicate OwnedByAnother(c: Config, t: Tables, ws: string, subject: string) {
    exists m :: m in t.members && m.scope == ws && m.role == c.owner && m.subject != subject
  }

  lemma OtherWorkspacesKeepOwners(c: Config, t: Tables, ws: string)
    requires Owned(c, t)
    ensures Owned(c, DeleteTx(t, ws))
  {
    forall at | at in t.workspaces && at != ws
      ensures HasOwner(c, DeleteTx(t, ws), at)
    {
      var m :| m in t.members && m.scope == at && m.role == c.owner;
      assert m in DeleteTx(t, ws).members;
    }
  }

  lemma SetRoleKeepsOwners(c: Config, t: Tables, ws: string, subject: string, role: string)
    requires Owned(c, t) && (role == c.owner || !IsLastOwner(c, t.members, subject, ws))
    ensures Owned(c, t.(members := Without(t.members, subject, ws) + {Member(subject, ws, role)}))
  {
    var members := Without(t.members, subject, ws) + {Member(subject, ws, role)};
    forall at | at in t.workspaces
      ensures HasOwner(c, t.(members := members), at)
    {
      if at == ws && role == c.owner {
        assert Member(subject, ws, role) in members;
      } else {
        WithoutKeepsOwner(c, t, subject, ws, at, {Member(subject, ws, role)});
      }
    }
  }

  /** On every run of the routes each existing workspace has a member with the owner role. */
  lemma {:induction false} EveryWorkspaceHasAnOwner(c: Config, s: State, es: seq<Step>)
    requires Owned(c, s.t) && forall i :: 0 <= i < |es| ==> !es[i].DeleteUser?
    ensures Owned(c, Exec(c, s, es).t)
  {
    if es != [] {
      EveryWorkspaceHasAnOwner(c, s, es[..|es| - 1]);
      StepKeepsOwners(c, Exec(c, s, es[..|es| - 1]), es[|es| - 1]);
    }
  }

  /** Deleting the account of a workspace's only owner leaves the workspace without one. */
  lemma DeletedAccountLeavesNoOwner(c: Config, subject: string, ws: string)
    requires ws != APP_WIDE
    ensures var empty := State(Tables({}, {}, map[]), map[], {});
            var s := Apply(c, Apply(c, empty, Create(subject, ws)), DeleteUser(subject));
            ws in s.t.workspaces && !HasOwner(c, s.t, ws)
  {
  }
}
