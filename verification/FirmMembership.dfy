/**
 * Firms, memberships, invitations and clients (jurix/security.py).  Users are
 * named by their identity, tokens by their hash; every operation is one
 * database transaction, so a refused operation changes nothing.
 */
module FirmMembership {
  import opened Options

  datatype Role = Admin | Reviewer | Viewer

  datatype Membership = Membership(firm: string, role: Role, active: bool)

  datatype Invitation = Invitation(firm: string, user: string, role: Role, invitedBy: string, expiresAt: int, revoked: bool, used: bool)

  /** The tables.  A user has exactly one membership. */
  datatype Tables = Tables(
    firms: set<string>,
    members: map<string, Membership>,
    invitations: map<string, Invitation>,
    clients: map<string, string>)   // client to firm

  datatype Op =
    | Register(user: string, firm: string, invite: Option<string>, open: bool, now: int)
    | Invite(actor: string, user: string, role: Role, token: string, expiresAt: int)
    | Accept(user: string, token: string, now: int)
    | SetRole(actor: string, user: string, role: Role, active: bool)
    | AddClient(actor: string, client: string)
    | RemoveClient(actor: string, client: string)
    | RevokeInvite(actor: string, token: string)

  // ---- Queries ----

  predicate IsMember(s: Tables, user: string)
  {
    user in s.members && s.members[user].active
  }

  predicate IsActive(s: Tables, user: string, roles: set<Role>)
  {
    IsMember(s, user) && s.members[user].role in roles
  }

  function ActiveAdmins(s: Tables, firm: string): set<string>
  {
    set u | u in s.members && s.members[u] == Membership(firm, Admin, true)
  }

  function ActiveMembers(s: Tables, firm: string): set<string>
  {
    set u | u in s.members && s.members[u].firm == firm && s.members[u].active
  }

  predicate HasClients(s: Tables, firm: string)
  {
    exists c :: c in s.clients && s.clients[c] == firm
  }

  /** The last active admin of a firm may not step down. */
  predicate GuardLastAdmin(s: Tables, member: Membership, newRole: Role, active: bool)
  {
    member.role == Admin && member.active && (newRole != Admin || !active) ==> |ActiveAdmins(s, member.firm)| > 1
  }

  /** An invitation that `user` can still use, issued by someone who is still
      an admin of the firm. */
  predicate Usable(s: Tables, token: string, user: string, now: int)
  {
    && token in s.invitations
    && var i := s.invitations[token];
       && i.user == user && !i.used && !i.revoked && i.expiresAt > now
       && IsActive(s, i.invitedBy, {Admin})
       && s.members[i.invitedBy].firm == i.firm
  }

  predicate MayLeave(s: Tables, user: string, newFirm: string, newRole: Role)
    requires user in s.members
  {
    var m := s.members[user];
    m.firm == newFirm ||
    (!HasClients(s, m.firm) && (ActiveMembers(s, m.firm) - {user} == {} || GuardLastAdmin(s, m, newRole, false)))
  }

  /** Outstanding invitations of `user` to `firm` are revoked. */
  function Revoked(invitations: map<string, Invitation>, user: string, firm: string): map<string, Invitation>
  {
    map t | t in invitations :: var i := invitations[t];
      if i.user == user && i.firm == firm && !i.used then i.(revoked := true) else i
  }

  // ---- Steps ----

  /** Whether an operation goes through. */
  predicate Permitted(s: Tables, op: Op)
  {
    match op
    case Register(user, firm, token, open, now) =>
      && user !in s.members
      && (token.Some? ==> Usable(s, token.value, user, now))
      && (token.None? ==> firm !in s.firms && (open || s.members == map[]))
    case Invite(actor, user, role, token, expiresAt) =>
      && IsActive(s, actor, {Admin})
      && !(IsMember(s, user) && s.members[user].firm == s.members[actor].firm)
      && token !in s.invitations
    case Accept(user, token, now) =>
      && IsMember(s, user)
      && Usable(s, token, user, now)
      && MayLeave(s, user, s.invitations[token].firm, s.invitations[token].role)
    case SetRole(actor, user, role, active) =>
      && IsActive(s, actor, {Admin})
      && user in s.members && s.members[user].firm == s.members[actor].firm
      && GuardLastAdmin(s, s.members[user], role, active)
    case AddClient(actor, client) =>
      IsActive(s, actor, {Admin, Reviewer}) && client !in s.clients
    case RemoveClient(actor, client) =>
      IsActive(s, actor, {Admin}) && client in s.clients && s.clients[client] == s.members[actor].firm
    case RevokeInvite(actor, token) =>
      && IsActive(s, actor, {Admin})
      && token in s.invitations && s.invitations[token].firm == s.members[actor].firm
      && !s.invitations[token].used && !s.invitations[token].revoked
  }

  function Step(s: Tables, op: Op): Tables
  {
    if !Permitted(s, op) then s else
    match op
    case Register(user, firm, None, _, _) =>
      s.(firms := s.firms + {firm}, members := s.members[user := Membership(firm, Admin, true)])
    case Register(user, _, Some(token), _, _) =>
      var i := s.invitations[token];
      s.(members := s.members[user := Membership(i.firm, i.role, true)], invitations := s.invitations[token := i.(used := true)])
    case Invite(actor, user, role, token, expiresAt) =>
      var firm := s.members[actor].firm;
      s.(invitations := Revoked(s.invitations, user, firm)[token := Invitation(firm, user, role, actor, expiresAt, false, false)])
    case Accept(user, token, _) =>
      var i := s.invitations[token];
      s.(members := s.members[user := Membership(i.firm, i.role, true)], invitations := s.invitations[token := i.(used := true)])
    case SetRole(_, user, role, active) =>
      s.(members := s.members[user := s.members[user].(role := role, active := active)])
    case AddClient(actor, client) =>
      s.(clients := s.clients[client := s.members[actor].firm])
    case RemoveClient(_, client) =>
      s.(clients := s.clients - {client})
    case RevokeInvite(_, token) =>
      s.(invitations := s.invitations[token := s.invitations[token].(revoked := true)])
  }

  const EMPTY: Tables := Tables({}, map[], map[], map[])

  function Run(s: Tables, ops: seq<Op>): Tables
  {
    if ops == [] then s else Step(Run(s, ops[..|ops| - 1]), ops[|ops| - 1])
  }

  // ---- The invariant ----

  ghost predicate Administered(s: Tables, firm: string)
  {
    HasClients(s, firm) || ActiveMembers(s, firm) != {} ==> ActiveAdmins(s, firm) != {}
  }

  ghost predicate Inv(s: Tables)
  {
    && (forall f :: Administered(s, f))
    && (forall t :: t in s.invitations ==> s.invitations[t].invitedBy != s.invitations[t].user && s.invitations[t].firm in s.firms)
    && (forall u :: u in s.members ==> s.members[u].firm in s.firms)
    && (forall c :: c in s.clients ==> s.clients[c] in s.firms)
  }

  /** Someone else stays an admin when the guard lets one go. */
  lemma AnotherAdmin(s: Tables, firm: string, user: string) returns (other: string)
    requires |ActiveAdmins(s, firm)| > 1
    ensures other != user && other in ActiveAdmins(s, firm)
  {
    var admins := ActiveAdmins(s, firm);
    var rest := admins - {user};
    assert admins <= rest + {user};
    assert |admins| <= |rest + {user}| by {
      assert rest + {user} == admins + ((rest + {user}) - admins);
    }
    other :| other in rest;
  }

  /** A change of one membership leaves other firms and other admins alone. */
  lemma OneMemberChanged(s: Tables, t: Tables, user: string, firm: string)
    requires forall u :: u != user ==> (u in s.members <==> u in t.members) && (u in s.members ==> s.members[u] == t.members[u])
    ensures ActiveMembers(t, firm) - {user} == ActiveMembers(s, firm) - {user}
    ensures ActiveAdmins(t, firm) - {user} == ActiveAdmins(s, firm) - {user}
  {
  }

  /** A user joins or founds a firm that has an active admin afterwards. */
  lemma JoinKeeps(s: Tables, t: Tables, user: string, admin: string)
    requires Inv(s) && user !in s.members && user in t.members && t.members[user].active
    requires t.members == s.members[user := t.members[user]] && t.clients == s.clients
    requires admin in ActiveAdmins(t, t.members[user].firm)
    ensures forall f :: Administered(t, f)
  {
    forall f
      ensures Administered(t, f)
    {
      OneMemberChanged(s, t, user, f);
      assert Administered(s, f);
      assert HasClients(t, f) <==> HasClients(s, f);
      if f != t.members[user].firm {
        assert ActiveMembers(t, f) == ActiveMembers(s, f);
        assert ActiveAdmins(t, f) == ActiveAdmins(s, f);
      }
    }
  }

  lemma RegisterKeeps(s: Tables, op: Op)
    requires Inv(s) && op.Register? && Permitted(s, op)
    ensures Inv(Step(s, op))
  {
    hide HasClients, Administered;
    var t := Step(s, op);
    if op.invite.Some? {
      assert s.invitations[op.invite.value].invitedBy in ActiveAdmins(t, t.members[op.user].firm);
      JoinKeeps(s, t, op.user, s.invitations[op.invite.value].invitedBy);
    } else {
      assert op.user in ActiveAdmins(t, op.firm);
      JoinKeeps(s, t, op.user, op.user);
    }
  }

  lemma AcceptKeeps(s: Tables, op: Op)
    requires Inv(s) && op.Accept? && Permitted(s, op)
    ensures Inv(Step(s, op))
  {
    var t := Step(s, op);
    var i := s.invitations[op.token];
    var m := s.members[op.user];
    assert i.invitedBy != op.user;
    forall f
      ensures Administered(t, f)
    {
      OneMemberChanged(s, t, op.user, f);
      assert Administered(s, f);
      assert HasClients(t, f) <==> HasClients(s, f);
      if f == i.firm {
        assert i.invitedBy in ActiveAdmins(t, f);
      } else if f == m.firm {
        if ActiveMembers(s, f) - {op.user} != {} {
          var other := AdminRemains(s, op.user, i.role, false);
          assert other in ActiveAdmins(t, f);
        } else {
          assert ActiveMembers(t, f) == {};
        }
      } else {
        assert ActiveMembers(t, f) == ActiveMembers(s, f);
        assert ActiveAdmins(t, f) == ActiveAdmins(s, f);
      }
    }
  }

  /** If the guard lets an active member change, another admin is there, or
      the member stays an admin. */
  lemma AdminRemains(s: Tables, user: string, role: Role, active: bool) returns (other: string)
    requires Inv(s) && IsMember(s, user)
    requires GuardLastAdmin(s, s.members[user], role, active)
    requires role != Admin || !active
    ensures other != user && other in ActiveAdmins(s, s.members[user].firm)
  {
    var f := s.members[user].firm;
    if s.members[user].role == Admin {
      other := AnotherAdmin(s, f, user);
    } else {
      assert Administered(s, f);
      assert user in ActiveMembers(s, f);
      other :| other in ActiveAdmins(s, f);
    }
  }

  lemma SetRoleKeeps(s: Tables, op: Op)
    requires Inv(s) && op.SetRole? && Permitted(s, op)
    ensures Inv(Step(s, op))
  {
    var t := Step(s, op);
    var firm := s.members[op.actor].firm;
    forall f
      ensures Administered(t, f)
    {
      OneMemberChanged(s, t, op.user, f);
      assert Administered(s, f);
      assert HasClients(t, f) <==> HasClients(s, f);
      if f != firm {
        assert ActiveMembers(t, f) == ActiveMembers(s, f);
        assert ActiveAdmins(t, f) == ActiveAdmins(s, f);
      } else if op.actor != op.user {
        assert op.actor in ActiveAdmins(t, f);
      } else if op.role == Admin && op.active {
        assert op.user in ActiveAdmins(t, f);
      } else {
        var other := AdminRemains(s, op.user, op.role, op.active);
        assert other in ActiveAdmins(t, f);
      }
    }
  }

  lemma OthersKeep(s: Tables, op: Op)
    requires Inv(s) && Permitted(s, op)
    requires !op.Register? && !op.Accept? && !op.SetRole?
    ensures Inv(Step(s, op))
  {
    var t := Step(s, op);
    assert t.members == s.members;
    forall f
      ensures Administered(t, f)
    {
      assert ActiveMembers(t, f) == ActiveMembers(s, f);
      assert ActiveAdmins(t, f) == ActiveAdmins(s, f);
      assert Administered(s, f);
      if op.AddClient? && f == s.members[op.actor].firm {
        assert op.actor in ActiveMembers(s, f);
      } else {
        assert HasClients(t, f) ==> HasClients(s, f);
      }
    }
  }

  lemma StepKeeps(s: Tables, op: Op)
    requires Inv(s)
    ensures Inv(Step(s, op))
  {
    if Permitted(s, op) {
      match op {
        case Register(_, _, _, _, _) => RegisterKeeps(s, op);
        case Accept(_, _, _) => AcceptKeeps(s, op);
        case SetRole(_, _, _, _) => SetRoleKeeps(s, op);
        case _ => OthersKeep(s, op);
      }
    }
  }

  /** In every run, a firm with a client or an active member has an active admin. */
  lemma {:induction false} AlwaysAdministered(ops: seq<Op>)
    ensures Inv(Run(EMPTY, ops))
    ensures forall f :: Administered(Run(EMPTY, ops), f)
  {
    if ops != [] {
      AlwaysAdministered(ops[..|ops| - 1]);
      StepKeeps(Run(EMPTY, ops[..|ops| - 1]), ops[|ops| - 1]);
    }
  }

  // ---- Abandoned firms ----

  ghost predicate Abandoned(s: Tables, firm: string)
  {
    firm in s.firms && ActiveMembers(s, firm) == {}
  }

  lemma StaysAbandoned(s: Tables, op: Op, firm: string)
    requires Inv(s) && Abandoned(s, firm)
    ensures Abandoned(Step(s, op), firm)
    ensures !HasClients(s, firm)
  {
    var t := Step(s, op);
    assert Administered(s, firm);
    assert ActiveAdmins(s, firm) <= ActiveMembers(s, firm);
    if Permitted(s, op) && (op.Register? || op.Accept? || op.SetRole?) {
      OneMemberChanged(s, t, op.user, firm);
      if op.SetRole? {
        assert op.actor in ActiveMembers(s, s.members[op.actor].firm);
      } else if op.Accept? || op.invite.Some? {
        var token := if op.Accept? then op.token else op.invite.value;
        assert s.invitations[token].invitedBy in ActiveMembers(s, s.invitations[token].firm);
      }
      assert op.user !in ActiveMembers(t, firm);
      assert ActiveMembers(t, firm) == {};
    } else {
      assert ActiveMembers(t, firm) == ActiveMembers(s, firm);
    }
  }

  /** A firm that was abandoned at some point of a run stays abandoned, and
      never has clients again. */
  lemma {:induction false} AbandonedForever(ops: seq<Op>, k: nat, n: nat, firm: string)
    requires k <= n <= |ops|
    requires Abandoned(Run(EMPTY, ops[..k]), firm)
    ensures Abandoned(Run(EMPTY, ops[..n]), firm)
    ensures !HasClients(Run(EMPTY, ops[..n]), firm)
    decreases n - k
  {
    AlwaysAdministered(ops[..k]);
    if k == n {
      StaysAbandoned(Run(EMPTY, ops[..k]), RevokeInvite("", ""), firm);
    } else {
      StaysAbandoned(Run(EMPTY, ops[..k]), ops[k], firm);
      assert ops[..k + 1][..k] == ops[..k];
      AbandonedForever(ops, k + 1, n, firm);
    }
  }

  // ---- Exactly when the guards refuse ----

  ghost predicate ActiveAdminOf(s: Tables, user: string, firm: string)
  {
    user in s.members && s.members[user] == Membership(firm, Admin, true)
  }

  /** Removing the guarded member would leave an admin exactly when the guard lets it go. */
  lemma AdminsWithout(s: Tables, firm: string, user: string)
    requires user in ActiveAdmins(s, firm)
    ensures |ActiveAdmins(s, firm)| > 1 <==> ActiveAdmins(s, firm) - {user} != {}
  {
    var admins := ActiveAdmins(s, firm);
    assert admins == (admins - {user}) + {user};
    assert |admins| == |admins - {user}| + 1;
  }

  /** A role change by an admin goes through exactly when the firm has an active
      admin afterwards. */
  lemma RoleChangeIff(s: Tables, op: Op)
    requires op.SetRole? && op.actor in s.members && ActiveAdminOf(s, op.actor, s.members[op.actor].firm)
    requires op.user in s.members && s.members[op.user].firm == s.members[op.actor].firm
    ensures Permitted(s, op) <==>
              var t := s.(members := s.members[op.user := Membership(s.members[op.user].firm, op.role, op.active)]);
              ActiveAdmins(t, s.members[op.actor].firm) != {}
  {
    var firm := s.members[op.actor].firm;
    var t := s.(members := s.members[op.user := Membership(firm, op.role, op.active)]);
    OneMemberChanged(s, t, op.user, firm);
    assert op.user in ActiveAdmins(t, firm) <==> op.role == Admin && op.active;
    if op.user in ActiveAdmins(s, firm) {
      AdminsWithout(s, firm, op.user);
    } else {
      assert op.actor in ActiveAdmins(t, firm);
    }
  }

  /** With an open invitation a member may move exactly to their own firm, or
      away from a firm without clients that then has an active admin or no
      active member at all. */
  lemma MoveIff(s: Tables, op: Op)
    requires Inv(s) && op.Accept? && IsMember(s, op.user) && Usable(s, op.token, op.user, op.now)
    ensures Permitted(s, op) <==>
              var firm := s.members[op.user].firm;
              || firm == s.invitations[op.token].firm
              || (!HasClients(s, firm) && (ActiveMembers(s, firm) - {op.user} == {} || ActiveAdmins(s, firm) - {op.user} != {}))
  {
    var firm := s.members[op.user].firm;
    if op.user in ActiveAdmins(s, firm) {
      AdminsWithout(s, firm, op.user);
    } else {
      assert Administered(s, firm) && op.user in ActiveMembers(s, firm);
      assert ActiveAdmins(s, firm) - {op.user} == ActiveAdmins(s, firm);
    }
  }

  // ---- Where roles, invitations and clients come from ----

  /** An open invitation for `user` that carries the membership `m`. */
  ghost predicate Carries(s: Tables, token: string, user: string, now: int, m: Membership)
  {
    && token in s.invitations
    && var i := s.invitations[token];
       && i.user == user && !i.used && !i.revoked && now < i.expiresAt
       && ActiveAdminOf(s, i.invitedBy, i.firm)
       && m == Membership(i.firm, i.role, true)
  }

  /** The ways to a membership: founding the firm, an open invitation, or a role
      change by an active admin of the firm. */
  ghost predicate Grants(s: Tables, op: Op, user: string, m: Membership)
  {
    match op
    case Register(u, firm, None, _, _) => u == user && firm !in s.firms && m == Membership(firm, Admin, true)
    case Register(u, _, Some(token), _, now) => u == user && Carries(s, token, user, now, m)
    case Accept(u, token, now) => u == user && Carries(s, token, user, now, m)
    case SetRole(actor, u, role, active) =>
      && u == user && ActiveAdminOf(s, actor, m.firm)
      && user in s.members && s.members[user].firm == m.firm && m == Membership(m.firm, role, active)
    case _ => false
  }

  lemma MembershipStep(s: Tables, op: Op, user: string)
    requires user in Step(s, op).members
    ensures Grants(s, op, user, Step(s, op).members[user]) || (user in s.members && s.members[user] == Step(s, op).members[user])
  {
  }

  /** In every run, every membership was granted, and has not changed since. */
  lemma {:induction false} EveryRoleGranted(ops: seq<Op>, user: string) returns (k: nat)
    requires user in Run(EMPTY, ops).members
    ensures k < |ops| && Grants(Run(EMPTY, ops[..k]), ops[k], user, Run(EMPTY, ops).members[user])
    ensures HeldSince(ops, k + 1, user, Run(EMPTY, ops).members[user])
  {
    hide Grants, Step;
    var n := |ops| - 1;
    var s := Run(EMPTY, ops[..n]);
    assert ops[..n + 1] == ops;
    MembershipStep(s, ops[n], user);
    if Grants(s, ops[n], user, Run(EMPTY, ops).members[user]) {
      k := n;
    } else {
      k := EveryRoleGranted(ops[..n], user);
      assert ops[..n][..k] == ops[..k] && ops[..n][k] == ops[k];
      forall j | k + 1 <= j <= |ops|
        ensures user in Run(EMPTY, ops[..j]).members && Run(EMPTY, ops[..j]).members[user] == Run(EMPTY, ops).members[user]
      {
        if j <= n {
          assert ops[..n][..j] == ops[..j];
        }
      }
    }
  }

  ghost predicate HeldSince(ops: seq<Op>, k: nat, user: string, m: Membership)
  {
    forall j {:trigger ops[..j]} :: k <= j <= |ops| ==>
      user in Run(EMPTY, ops[..j]).members && Run(EMPTY, ops[..j]).members[user] == m
  }

  /** The step issues the invitation: an active admin of its firm, for someone
      who is not an active member there. */
  ghost predicate Issues(s: Tables, op: Op, token: string, i: Invitation)
  {
    && op == Invite(i.invitedBy, i.user, i.role, token, i.expiresAt)
    && token !in s.invitations
    && ActiveAdminOf(s, i.invitedBy, i.firm) && i.user !in ActiveMembers(s, i.firm)
  }

  /** The same invitation, open for as long as `later` is. */
  predicate ClosesInto(i: Invitation, later: Invitation)
  {
    later == i.(used := later.used, revoked := later.revoked) && (i.used ==> later.used) && (i.revoked ==> later.revoked)
  }

  lemma InvitationStep(s: Tables, op: Op, token: string)
    requires token in Step(s, op).invitations
    ensures var i := Step(s, op).invitations[token];
            if token in s.invitations then ClosesInto(s.invitations[token], i)
            else Issues(s, op, token, i) && !i.used && !i.revoked
  {
  }

  /** In every run, every invitation was issued as it stands. */
  lemma {:induction false} EveryInvitationIssued(ops: seq<Op>, token: string) returns (k: nat)
    requires token in Run(EMPTY, ops).invitations
    ensures k < |ops| && Issues(Run(EMPTY, ops[..k]), ops[k], token, Run(EMPTY, ops).invitations[token])
  {
    hide Step;
    var n := |ops| - 1;
    var s := Run(EMPTY, ops[..n]);
    InvitationStep(s, ops[n], token);
    if token in s.invitations {
      k := EveryInvitationIssued(ops[..n], token);
      assert ops[..n][..k] == ops[..k] && ops[..n][k] == ops[k];
    } else {
      k := n;
    }
  }

  lemma {:induction false} InvitationsOnlyClose(ops: seq<Op>, k: nat, n: nat, token: string)
    requires k <= n <= |ops| && token in Run(EMPTY, ops[..k]).invitations
    ensures token in Run(EMPTY, ops[..n]).invitations
    ensures ClosesInto(Run(EMPTY, ops[..k]).invitations[token], Run(EMPTY, ops[..n]).invitations[token])
    decreases n - k
  {
    hide Step, Run;
    if k < n {
      RunMore(ops, k);
      KeepsInvitations(Run(EMPTY, ops[..k]), ops[k]);
      InvitationStep(Run(EMPTY, ops[..k]), ops[k], token);
      InvitationsOnlyClose(ops, k + 1, n, token);
    }
  }

  lemma RunMore(ops: seq<Op>, k: nat)
    requires k < |ops|
    ensures Run(EMPTY, ops[..k + 1]) == Step(Run(EMPTY, ops[..k]), ops[k])
  {
    assert ops[..k + 1][..k] == ops[..k];
  }

  lemma KeepsInvitations(s: Tables, op: Op)
    ensures s.invitations.Keys <= Step(s, op).invitations.Keys
  {
  }

  /** The token with which an operation goes through, if it needs one. */
  function TokenOf(op: Op): Option<string>
  {
    match op
    case Register(_, _, token, _, _) => token
    case Accept(_, token, _) => Some(token)
    case _ => None
  }

  lemma UsesUp(s: Tables, op: Op)
    requires Permitted(s, op) && TokenOf(op).Some?
    ensures var token := TokenOf(op).value;
            token in s.invitations && !s.invitations[token].used && token in Step(s, op).invitations && Step(s, op).invitations[token].used
  {
  }

  /** An invitation lets nobody in twice. */
  lemma UsedOnce(ops: seq<Op>, j: nat, k: nat)
    requires j < k < |ops| && TokenOf(ops[j]).Some? && TokenOf(ops[k]) == TokenOf(ops[j])
    requires Permitted(Run(EMPTY, ops[..j]), ops[j])
    ensures !Permitted(Run(EMPTY, ops[..k]), ops[k])
  {
    hide Run, Step;
    UsesUp(Run(EMPTY, ops[..j]), ops[j]);
    RunMore(ops, j);
    InvitationsOnlyClose(ops, j + 1, k, TokenOf(ops[j]).value);
    if Permitted(Run(EMPTY, ops[..k]), ops[k]) {
      UsesUp(Run(EMPTY, ops[..k]), ops[k]);
    }
  }

  /** An invitation was used: its user has the membership it carries, and it is used up. */
  ghost predicate Joined(s: Tables, t: Tables, user: string, token: string)
  {
    && token in s.invitations
    && t.members == s.members[user := Membership(s.invitations[token].firm, s.invitations[token].role, true)]
    && t.invitations == s.invitations[token := s.invitations[token].(used := true)]
    && t.firms == s.firms
  }

  /** What a new invitation of `user` to `firm` leaves of an older one. */
  predicate Supersedes(i: Invitation, later: Invitation, user: string, firm: string)
  {
    later == if i.user == user && i.firm == firm && !i.used then i.(revoked := true) else i
  }

  predicate Outstanding(i: Invitation)
  {
    !i.used && !i.revoked
  }

  ghost predicate OneEach(s: Tables)
  {
    forall t, u :: t in s.invitations && u in s.invitations && t != u && Outstanding(s.invitations[t]) && Outstanding(s.invitations[u]) ==>
      s.invitations[t].user != s.invitations[u].user || s.invitations[t].firm != s.invitations[u].firm
  }

  lemma StepOneEach(s: Tables, op: Op)
    requires OneEach(s)
    ensures OneEach(Step(s, op))
  {
  }

  /** In every run a user has at most one outstanding invitation to a firm. */
  lemma {:induction false} OneInvitationEach(ops: seq<Op>)
    ensures OneEach(Run(EMPTY, ops))
  {
    if ops != [] {
      OneInvitationEach(ops[..|ops| - 1]);
      StepOneEach(Run(EMPTY, ops[..|ops| - 1]), ops[|ops| - 1]);
    }
  }

  /** A client appears when an admin or reviewer of its firm adds it, and goes
      when an admin of its firm removes it. */
  ghost predicate AddsTo(s: Tables, op: Op, client: string, firm: string)
  {
    && op.AddClient? && op.client == client && client !in s.clients
    && op.actor in s.members && s.members[op.actor].active && s.members[op.actor].firm == firm && s.members[op.actor].role != Viewer
  }

  lemma ClientStep(s: Tables, op: Op, client: string)
    ensures var t := Step(s, op);
            && (client in s.clients && client in t.clients ==> t.clients[client] == s.clients[client])
            && (client !in s.clients && client in t.clients ==> AddsTo(s, op, client, t.clients[client]))
            && (client in s.clients ==>
                  (client !in t.clients <==> op.RemoveClient? && op.client == client && ActiveAdminOf(s, op.actor, s.clients[client])))
  {
  }

  /** In every run, every client was added to its firm by an active admin or reviewer of it. */
  lemma {:induction false} EveryClientAdded(ops: seq<Op>, client: string) returns (k: nat)
    requires client in Run(EMPTY, ops).clients
    ensures k < |ops| && AddsTo(Run(EMPTY, ops[..k]), ops[k], client, Run(EMPTY, ops).clients[client])
  {
    hide Step;
    var n := |ops| - 1;
    var s := Run(EMPTY, ops[..n]);
    ClientStep(s, ops[n], client);
    if client in s.clients {
      k := EveryClientAdded(ops[..n], client);
      assert ops[..n][..k] == ops[..k] && ops[..n][k] == ops[k];
    } else {
      k := n;
    }
  }

  // ---- The operations on the tables ----

  class FirmStore {
    var firms: set<string>
    var members: map<string, Membership>
    var invitations: map<string, Invitation>
    var clients: map<string, string>

    ghost function State(): Tables
      reads this
    {
      Tables(firms, members, invitations, clients)
    }

    constructor ()
      ensures State() == EMPTY
    {
      firms, members, invitations, clients := {}, map[], map[], map[];
    }

    method Register(user: string, firm: string, invite: Option<string>, open: bool, now: int) returns (ok: bool)
      modifies this
      ensures State() == Step(old(State()), Op.Register(user, firm, invite, open, now))
      ensures ok == Permitted(old(State()), Op.Register(user, firm, invite, open, now))
      ensures invite.None? ==>
                && (ok <==> user !in old(members) && firm !in old(firms) && (open || old(members) == map[]))
                && (ok ==> members == old(members)[user := Membership(firm, Admin, true)] && firms == old(firms) + {firm})
                && invitations == old(invitations)
      ensures invite.Some? ==>
                && (ok <==> user !in old(members) && old(Usable(State(), invite.value, user, now)))
                && (ok ==> Joined(old(State()), State(), user, invite.value))
      ensures clients == old(clients) && (!ok ==> State() == old(State()))
    {
      var firmId, role := firm, Admin;
      if invite.Some? {
        var usable := FindInvitation(invite.value, user, now);
        if !usable {
          return false;
        }
        firmId, role := invitations[invite.value].firm, invitations[invite.value].role;
      } else if !open && members != map[] {
        return false;
      }
      if user in members {
        return false;
      }
      if invite.None? {
        if firm in firms {
          return false;
        }
        firms := firms + {firm};
      } else {
        invitations := invitations[invite.value := invitations[invite.value].(used := true)];
      }
      members := members[user := Membership(firmId, role, true)];
      return true;
    }

    /** The invitation is open, meant for the user, and its issuer is still an
        admin of the firm. */
    method FindInvitation(token: string, user: string, now: int) returns (usable: bool)
      ensures usable == Usable(State(), token, user, now)
      ensures usable <==> token in invitations && invitations[token].user == user &&
                          !invitations[token].used && !invitations[token].revoked && now < invitations[token].expiresAt &&
                          ActiveAdminOf(State(), invitations[token].invitedBy, invitations[token].firm)
    {
      if token !in invitations {
        return false;
      }
      var i := invitations[token];
      if i.user != user || i.used || i.revoked || i.expiresAt <= now {
        return false;
      }
      if i.invitedBy !in members || !members[i.invitedBy].active || members[i.invitedBy].role != Admin {
        return false;
      }
      return members[i.invitedBy].firm == i.firm;
    }

    method InviteMember(actor: string, user: string, role: Role, token: string, expiresAt: int) returns (ok: bool)
      modifies this
      ensures State() == Step(old(State()), Invite(actor, user, role, token, expiresAt))
      ensures ok == Permitted(old(State()), Invite(actor, user, role, token, expiresAt))
      ensures ok <==> token !in old(invitations) && actor in members && ActiveAdminOf(State(), actor, members[actor].firm) &&
                      user !in ActiveMembers(State(), members[actor].firm)
      ensures ok ==> token in invitations && invitations[token] == Invitation(members[actor].firm, user, role, actor, expiresAt, false, false)
      ensures ok ==> forall t :: t in old(invitations) ==> t in invitations && Supersedes(old(invitations)[t], invitations[t], user, members[actor].firm)
      ensures firms == old(firms) && members == old(members) && clients == old(clients) && (!ok ==> State() == old(State()))
    {
      if actor !in members || !members[actor].active || members[actor].role != Admin {
        return false;
      }
      var firm := members[actor].firm;
      if user in members && members[user].firm == firm && members[user].active {
        return false;
      }
      if token in invitations {
        return false;
      }
      invitations := Revoked(invitations, user, firm)[token := Invitation(firm, user, role, actor, expiresAt, false, false)];
      return true;
    }

    method AcceptInvite(user: string, token: string, now: int) returns (ok: bool)
      modifies this
      ensures State() == Step(old(State()), Accept(user, token, now))
      ensures ok == Permitted(old(State()), Accept(user, token, now))
      ensures ok ==> Joined(old(State()), State(), user, token)
      ensures ok ==> old(Usable(State(), token, user, now)) && user in old(members) && old(members)[user].active
      ensures firms == old(firms) && clients == old(clients) && (!ok ==> State() == old(State()))
    {
      if user !in members || !members[user].active {
        return false;
      }
      var member := members[user];
      var usable := FindInvitation(token, user, now);
      if !usable {
        return false;
      }
      var i := invitations[token];
      var tables := Tables(firms, members, invitations, clients);
      if member.firm != i.firm {
        if member.firm in clients.Values {
          assert HasClients(tables, member.firm);
          return false;
        }
        assert !HasClients(tables, member.firm);
        var others := ActiveMembers(tables, member.firm) - {user};
        if others != {} && !GuardLastAdmin(tables, member, i.role, false) {
          return false;
        }
      }
      members := members[user := Membership(i.firm, i.role, true)];
      invitations := invitations[token := i.(used := true)];
      return true;
    }

    method SetRole(actor: string, user: string, role: Role, active: bool) returns (ok: bool)
      modifies this
      ensures State() == Step(old(State()), Op.SetRole(actor, user, role, active))
      ensures ok == Permitted(old(State()), Op.SetRole(actor, user, role, active))
      ensures ok ==> user in old(members) && ActiveAdminOf(old(State()), actor, old(members)[user].firm)
      ensures ok ==> members == old(members)[user := Membership(old(members)[user].firm, role, active)]
      ensures firms == old(firms) && invitations == old(invitations) && clients == old(clients) && (!ok ==> State() == old(State()))
    {
      if actor !in members || !members[actor].active || members[actor].role != Admin {
        return false;
      }
      if user !in members || members[user].firm != members[actor].firm {
        return false;
      }
      if !GuardLastAdmin(Tables(firms, members, invitations, clients), members[user], role, active) {
        return false;
      }
      members := members[user := members[user].(role := role, active := active)];
      return true;
    }

    method AddClient(actor: string, client: string) returns (ok: bool)
      modifies this
      ensures State() == Step(old(State()), Op.AddClient(actor, client))
      ensures ok == Permitted(old(State()), Op.AddClient(actor, client))
      ensures ok <==> client !in old(clients) && actor in members && members[actor].active && members[actor].role != Viewer
      ensures ok ==> clients == old(clients)[client := members[actor].firm]
      ensures firms == old(firms) && members == old(members) && invitations == old(invitations) && (!ok ==> State() == old(State()))
    {
      if actor !in members || !members[actor].active || members[actor].role == Viewer || client in clients {
        return false;
      }
      clients := clients[client := members[actor].firm];
      return true;
    }

    method RemoveClient(actor: string, client: string) returns (ok: bool)
      modifies this
      ensures State() == Step(old(State()), Op.RemoveClient(actor, client))
      ensures ok == Permitted(old(State()), Op.RemoveClient(actor, client))
      ensures ok <==> client in old(clients) && ActiveAdminOf(State(), actor, old(clients)[client])
      ensures clients == if ok then old(clients) - {client} else old(clients)
      ensures firms == old(firms) && members == old(members) && invitations == old(invitations)
    {
      if actor !in members || !members[actor].active || members[actor].role != Admin {
        return false;
      }
      if client !in clients || clients[client] != members[actor].firm {
        return false;
      }
      clients := clients - {client};
      return true;
    }

    method RevokeInvite(actor: string, token: string) returns (ok: bool)
      modifies this
      ensures State() == Step(old(State()), Op.RevokeInvite(actor, token))
      ensures ok == Permitted(old(State()), Op.RevokeInvite(actor, token))
      ensures ok <==> token in old(invitations) && Outstanding(old(invitations)[token]) &&
                      ActiveAdminOf(State(), actor, old(invitations)[token].firm)
      ensures ok ==> invitations == old(invitations)[token := old(invitations)[token].(revoked := true)]
      ensures firms == old(firms) && members == old(members) && clients == old(clients) && (!ok ==> State() == old(State()))
    {
      if actor !in members || !members[actor].active || members[actor].role != Admin {
        return false;
      }
      if token !in invitations || invitations[token].firm != members[actor].firm {
        return false;
      }
      if invitations[token].used || invitations[token].revoked {
        return false;
      }
      invitations := invitations[token := invitations[token].(revoked := true)];
      return true;
    }
  }
}
