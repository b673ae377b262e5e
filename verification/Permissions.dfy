/** Roles and the permissions they grant (packs/auth/roles.go). */
module Permissions {

  // A role's permissions: names, "prefix.*", or "*".
  type Roles = map<string, seq<string>>

  datatype Member = Member(subject: string, scope: string, role: string)

  const APP_WIDE := ""

  predicate HasPrefix(s: string, prefix: string) {
    prefix <= s
  }

  predicate HasSuffix(s: string, suffix: string) {
    |suffix| <= |s| && s[|s| - |suffix|..] == suffix
  }

  predicate Grants(p: string, want: string) {
    if p == "*" || p == want then true
    else if HasSuffix(p, ".*") then HasPrefix(want, p[..|p| - 1])
    else false
  }

  /** What each form covers: "*" everything, a name itself, "stem.*" every name under the stem. */
  lemma GrantsMeans(p: string, want: string)
    ensures Grants(p, want) <==>
            p == "*" || p == want || exists stem, rest: string :: p == stem + ".*" && want == stem + "." + rest
  {
    if HasSuffix(p, ".*") {
      var stem := p[..|p| - 2];
      assert p == stem + ".*" && p[..|p| - 1] == stem + ".";
      if HasPrefix(want, stem + ".") {
        assert want == stem + "." + want[|stem| + 1..];
      }
    }
    if stem: string, rest: string :| p == stem + ".*" && want == stem + "." + rest {
      assert p[|p| - 2..] == ".*" && p[..|p| - 1] == stem + ".";
      assert want[..|stem| + 1] == stem + ".";
    }
  }

  lemma GrantsIsTransitive(p: string, q: string, w: string)
    requires Grants(p, q) && Grants(q, w)
    ensures Grants(p, w)
  {
    if p != "*" && p != q && q != w {
      var stem := p[..|p| - 1];
      assert stem[|stem| - 1] == '.' by {
        assert p[|p| - 2..][0] == '.';
      }
      if q != "*" {
        assert q[|q| - 2..][1] == '*';
        assert |stem| < |q|;
        assert stem <= q[..|q| - 1];
      }
    }
  }

  /** One permission grants another exactly when it covers everything the other does. */
  lemma GrantsIsContainment(p: string, q: string)
    ensures Grants(p, q) <==> forall w :: Grants(q, w) ==> Grants(p, w)
  {
    if Grants(p, q) {
      forall w | Grants(q, w) ensures Grants(p, w) {
        GrantsIsTransitive(p, q, w);
      }
    }
    assert Grants(q, q);
  }

  predicate ListGrants(perms: seq<string>, want: string) {
    exists i :: 0 <= i < |perms| && Grants(perms[i], want)
  }

  // A role the map no longer names grants nothing.
  predicate RoleGrants(roles: Roles, role: string, want: string) {
    role in roles && ListGrants(roles[role], want)
  }

  predicate Applies(m: Member, subject: string, scope: string) {
    subject != "" && m.subject == subject && (m.scope == scope || m.scope == APP_WIDE)
  }

  predicate Can(roles: Roles, members: set<Member>, subject: string, scope: string, want: string) {
    exists m :: m in members && Applies(m, subject, scope) && RoleGrants(roles, m.role, want)
  }

  // Every permission of the list is held.
  predicate Holds(roles: Roles, members: set<Member>, subject: string, scope: string, perms: seq<string>) {
    forall i :: 0 <= i < |perms| ==> Can(roles, members, subject, scope, perms[i])
  }

  /** "Nobody hands out more than they have": holding a role's permissions, patterns included, is
      being able to do everything the role lets its holder do. */
  lemma HoldingIsCovering(roles: Roles, members: set<Member>, subject: string, scope: string, perms: seq<string>)
    ensures Holds(roles, members, subject, scope, perms) <==>
            forall w :: ListGrants(perms, w) ==> Can(roles, members, subject, scope, w)
  {
    if Holds(roles, members, subject, scope, perms) {
      forall w | ListGrants(perms, w) ensures Can(roles, members, subject, scope, w) {
        var i :| 0 <= i < |perms| && Grants(perms[i], w);
        CanIsClosed(roles, members, subject, scope, perms[i], w);
      }
    } else {
      var i :| 0 <= i < |perms| && !Can(roles, members, subject, scope, perms[i]);
      assert Grants(perms[i], perms[i]);
      assert ListGrants(perms, perms[i]);
    }
  }

  lemma CanIsClosed(roles: Roles, members: set<Member>, subject: string, scope: string, p: string, w: string)
    requires Can(roles, members, subject, scope, p) && Grants(p, w)
    ensures Can(roles, members, subject, scope, w)
  {
    var m :| m in members && Applies(m, subject, scope) && RoleGrants(roles, m.role, p);
    var j :| 0 <= j < |roles[m.role]| && Grants(roles[m.role][j], p);
    GrantsIsTransitive(roles[m.role][j], p, w);
    assert RoleGrants(roles, m.role, w);
  }

  /** Who holds "stem.*" in the scope or app-wide can do everything under the stem, who holds "*" everything. */
  lemma PatternsReach(roles: Roles, members: set<Member>, m: Member, scope: string, i: nat, stem: string, rest: string)
    requires m in members && m.subject != "" && (m.scope == scope || m.scope == APP_WIDE)
    requires m.role in roles && i < |roles[m.role]|
    ensures roles[m.role][i] == stem + ".*" ==> Can(roles, members, m.subject, scope, stem + "." + rest)
    ensures roles[m.role][i] == "*" ==> Can(roles, members, m.subject, scope, rest)
    ensures Can(roles, members, m.subject, scope, roles[m.role][i])
  {
    var p := roles[m.role][i];
    assert Applies(m, m.subject, scope);
    GrantsMeans(p, p);
    GrantsMeans(p, stem + "." + rest);
    GrantsMeans(p, rest);
  }

  // A role of the subject's, in the scope or app-wide; nobody is no subject.
  predicate HeldBy(m: Member, subject: string, scope: string) {
    subject != "" && m.subject == subject && m.scope in {scope, APP_WIDE}
  }

  // The permission is a plain name.
  predicate Plain(p: string) {
    p != "*" && !HasSuffix(p, ".*")
  }

  /** Who holds plain names only can do those and nothing else; roles the map does not name, and roles held
      elsewhere or by others, give nothing. */
  lemma PlainNamesOnly(roles: Roles, members: set<Member>, subject: string, scope: string, want: string)
    requires forall m, i :: m in members && m.subject == subject && m.role in roles && 0 <= i < |roles[m.role]| ==>
               Plain(roles[m.role][i])
    ensures Can(roles, members, subject, scope, want) <==>
            exists m :: m in members && HeldBy(m, subject, scope) && m.role in roles && want in roles[m.role]
  {
    if Can(roles, members, subject, scope, want) {
      var m :| m in members && Applies(m, subject, scope) && RoleGrants(roles, m.role, want);
      var i :| 0 <= i < |roles[m.role]| && Grants(roles[m.role][i], want);
      PlainIsItself(roles[m.role][i], want);
    }
    if m :| m in members && HeldBy(m, subject, scope) && m.role in roles && want in roles[m.role] {
      var i :| 0 <= i < |roles[m.role]| && roles[m.role][i] == want;
      PatternsReach(roles, members, m, scope, i, "", "");
    }
  }

  lemma PlainIsItself(p: string, want: string)
    requires Plain(p) && Grants(p, want)
    ensures p == want
  {
    GrantsMeans(p, want);
    if stem: string, rest: string :| p == stem + ".*" && want == stem + "." + rest {
      assert p[|p| - 2..] == ".*";
    }
  }
}
