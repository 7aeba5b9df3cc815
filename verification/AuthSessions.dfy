// Which of the sessions that the handlers open can be used at once.
module AuthSessions {
  import opened Wrappers
  import opened Tables
  import opened AuthTables
  import opened TokenFamilies
  import opened AuthProtocol
  import opened AuthInvariants
  import opened AuthRuns
  import opened AuthTheorems

  /** The user could act in the workspace, given a verified address. */
  predicate MayAct(s: State, workspace: nat, user: nat) {
    var m := FindMember(s.members, workspace, user);
    && m.Some? && s.members[m.value].status == Active
    && user < |s.users| && s.users[user].active && !s.users[user].deleted
    && UsableWorkspace(s, workspace)
  }

  /** What decides, before the request, whether the session it opens is of use: nothing, except that a verification
      link looks at neither the membership nor the account nor the workspace, and an invitation not at the workspace. */
  predicate OpensUsableSession(s: State, r: Request) {
    match r
    case VerifyEmail(row) =>
      row < |s.verifications| && MayAct(s, s.verifications[row].workspace, s.verifications[row].user)
    case AcceptInvitation(secret, _) =>
      FindInvitation(s, secret).Some? && UsableWorkspace(s, s.invitations[FindInvitation(s, secret).value].workspace)
    case _ => true
  }

  lemma TouchKeepsMember(members: seq<Member>, workspace: nat, user: nat, now: Time)
    ensures FindMember(Touch(members, workspace, user, now), workspace, user) == FindMember(members, workspace, user)
  {
    var touched := Touch(members, workspace, user, now);
    var before, after := FindMember(members, workspace, user), FindMember(touched, workspace, user);
    if before.Some? {
      assert LiveMember(touched[before.value]);
    }
    if after.Some? {
      assert LiveMember(members[after.value]);
    }
  }

  /** A family with an unrevoked, unexpired token of the right owner admits exactly the active members. */
  lemma AliveFamilyAdmitsMembers(s: State, claims: Claims, k: nat)
    requires k < |s.tokens| && KeepsFamilyAlive(s.tokens[k], claims, s.clock)
    ensures var m := ActiveMembership(s, claims.workspace, claims.user);
            && (Authenticate(s, claims).Session? <==> m.Some?)
            && (m.Some? ==> Authenticate(s, claims).role == s.members[m.value].role)
  {
  }

  lemma TouchedMembership(s: State, s': State, workspace: nat, user: nat)
    requires s'.users == s.users && s'.workspaces == s.workspaces && s'.members == Touch(s.members, workspace, user, s.clock)
    ensures var m := ActiveMembership(s, workspace, user);
            ActiveMembership(s', workspace, user) == m && (m.Some? ==> s'.members[m.value].role == s.members[m.value].role)
  {
    TouchKeepsMember(s.members, workspace, user, s.clock);
  }

  /** A new token lets exactly an active member in, with that member's role. */
  lemma IssuedIsUsableByMembers(s: State, user: nat, workspace: nat, remember: bool, family: nat)
    ensures var m := ActiveMembership(s, workspace, user);
            var who := Authenticate(IssueSession(s, user, workspace, remember, family), Claims(user, workspace, family));
            (who.Session? <==> m.Some?) && (m.Some? ==> who.role == s.members[m.value].role)
  {
    var s', claims := IssueSession(s, user, workspace, remember, family), Claims(user, workspace, family);
    assert KeepsFamilyAlive(s'.tokens[|s.tokens|], claims, s'.clock);
    AliveFamilyAdmitsMembers(s', claims, |s.tokens|);
    TouchedMembership(s, s', workspace, user);
  }

  /** So does a new session in a family of its own. */
  lemma OpenedIsUsableByMembers(s: State, user: nat, workspace: nat, remember: bool)
    ensures var m := ActiveMembership(s, workspace, user);
            var who := Authenticate(OpenSession(s, user, workspace, remember), Claims(user, workspace, s.families));
            (who.Session? <==> m.Some?) && (m.Some? ==> who.role == s.members[m.value].role)
  {
    IssuedIsUsableByMembers(s, user, workspace, remember, s.families);
  }

  /** A membership row that is not deleted is the one found. */
  lemma LiveRowIsFound(s: State, m: nat)
    requires PeopleOk(s) && m < |s.members| && LiveMember(s.members[m])
    ensures FindMember(s.members, s.members[m].workspace, s.members[m].user) == Some(m)
  {
    var found := FindMember(s.members, s.members[m].workspace, s.members[m].user);
    assert found.value < m ==> DistinctMembers(s, found.value, m);
  }

  /** Requests whose session opens with an active membership. */
  ghost predicate Usable(s': State, reply: Reply) {
    reply.Session? && Authenticate(s', reply.claims).Session? && Authenticate(s', reply.claims).role == reply.role
  }

  lemma LoginIsUsable(s: State, email: string, matches: bool, remember: bool)
    requires PeopleOk(s) && DoLogin(s, email, matches, remember).1.Session?
    ensures Usable(DoLogin(s, email, matches, remember).0, DoLogin(s, email, matches, remember).1)
  {
    var user := FindUser(s.users, email).value;
    var m := PreferredMembership(s, user, |s.members|).value;
    LiveRowIsFound(s, m);
    OpenedIsUsableByMembers(s, user, s.members[m].workspace, remember);
  }

  lemma RefreshIsUsable(s: State, row: nat)
    requires DoRefresh(s, row).1.Session?
    ensures Usable(DoRefresh(s, row).0, DoRefresh(s, row).1)
  {
    var t, s' := s.tokens[row], DoRefresh(s, row).0;
    var claims := Claims(t.user, t.workspace, t.family);
    assert KeepsFamilyAlive(s'.tokens[|s.tokens|], claims, s'.clock);
    AliveFamilyAdmitsMembers(s', claims, |s.tokens|);
    TouchedMembership(s, s', t.workspace, t.user);
  }

  lemma SwitchIsUsable(s: State, claims: Claims, workspace: nat)
    requires DoSwitchWorkspace(s, claims, workspace).1.Session?
    ensures Usable(DoSwitchWorkspace(s, claims, workspace).0, DoSwitchWorkspace(s, claims, workspace).1)
  {
    var s1 := s.(tokens := Revoke(s.tokens, OfFamily(claims.family), s.clock));
    assert ActiveMembership(s1, workspace, claims.user) == ActiveMembership(s, workspace, claims.user);
    OpenedIsUsableByMembers(s1, claims.user, workspace, FamilyRemembers(s.tokens, claims.family));
  }

  /** The account of a verification link, once the link has been used. */
  lemma VerifiedMembership(s: State, s1: State, workspace: nat, user: nat)
    requires user < |s.users| && s1.users == MarkVerified(s.users, user, s.clock)
    requires s1.members == s.members && s1.workspaces == s.workspaces
    ensures ActiveMembership(s1, workspace, user).Some? <==> MayAct(s, workspace, user)
    ensures MayAct(s, workspace, user) ==> ActiveMembership(s1, workspace, user) == FindMember(s.members, workspace, user)
  {
  }

  lemma RowsOfMember(s: State, workspace: nat, user: nat)
    requires PeopleOk(s) && FindMember(s.members, workspace, user).Some?
    ensures FindRow(s.members, workspace, user) == FindMember(s.members, workspace, user)
  {
    var m, row := FindMember(s.members, workspace, user).value, FindRow(s.members, workspace, user).value;
    assert m < row ==> DistinctMembers(s, m, row);
  }

  lemma VerifyEmailIsUsableIff(s: State, row: nat)
    requires PeopleOk(s) && DoVerifyEmail(s, row).1.Session?
    ensures var (s', reply) := DoVerifyEmail(s, row);
            && (Authenticate(s', reply.claims).Session? <==> OpensUsableSession(s, VerifyEmail(row)))
            && (Authenticate(s', reply.claims).Session? ==> Usable(s', reply))
  {
    var v := s.verifications[row];
    var s1 := s.(users := MarkVerified(s.users, v.user, s.clock),
                 verifications := RevokeVerifications(
                   s.verifications[row := v.(consumedAt := Some(s.clock))], v.user, s.clock));
    VerifiedMembership(s, s1, v.workspace, v.user);
    OpenedIsUsableByMembers(s1, v.user, v.workspace, false);
    if MayAct(s, v.workspace, v.user) {
      RowsOfMember(s, v.workspace, v.user);
    }
  }

  lemma AdmittedIsActive(s: State, row: nat, user: nat)
    requires PeopleOk(s) && row < |s.invitations| && s.invitations[row].status == Pending && user < |s.users|
    requires s.users[user].email == s.invitations[row].email
    requires UsableAccount(s, user)
    ensures var s2, i := Admitted(s, row, user), s.invitations[row];
            var m := ActiveMembership(s2, i.workspace, user);
            && (m.Some? <==> UsableWorkspace(s, i.workspace))
            && (m.Some? ==> s2.members[m.value].role == i.role)
  {
    var s2, i := Admitted(s, row, user), s.invitations[row];
    AdmitMemberKeepsPeople(s, row, user);
    var found := FindRow(s.members, i.workspace, user);
    LiveRowIsFound(s2, if found.Some? then found.value else |s.members|);
  }

  lemma AcceptedAccountIsUsable(s: State, secret: nat, profileValid: bool)
    requires PeopleOk(s) && DoAcceptInvitation(s, secret, profileValid).1.Session?
    ensures FindInvitation(s, secret).Some?
    ensures var (s1, user) := AdmitAccount(s, s.invitations[FindInvitation(s, secret).value].email); UsableAccount(s1, user)
  {
  }

  lemma AcceptIsUsableIff(s: State, secret: nat, profileValid: bool)
    requires PeopleOk(s) && DoAcceptInvitation(s, secret, profileValid).1.Session?
    ensures var (s', reply) := DoAcceptInvitation(s, secret, profileValid);
            && (Authenticate(s', reply.claims).Session? <==> OpensUsableSession(s, AcceptInvitation(secret, profileValid)))
            && (Authenticate(s', reply.claims).Session? ==> Usable(s', reply))
  {
    AcceptInThreeParts(s, secret, profileValid);
    AcceptedAccountIsUsable(s, secret, profileValid);
    var row := FindInvitation(s, secret).value;
    var i := s.invitations[row];
    var (s1, user) := AdmitAccount(s, i.email);
    AdmitAccountKeepsPeople(s, i.email);
    AdmittedIsActive(s1, row, user);
    OpenedIsUsableByMembers(Admitted(s1, row, user), user, i.workspace, false);
  }

  /** The session that a login, a refresh or a switch opens is accepted at once, with the role it was opened with;
      that of a verification link or an invitation exactly under the conditions above. */
  lemma OpenedSessionIsUsableIff(s: State, r: Request)
    requires Reachable(s) && Step(s, r).1.Session?
    ensures var (s', reply) := Step(s, r);
            && (Authenticate(s', reply.claims).Session? <==> OpensUsableSession(s, r))
            && (Authenticate(s', reply.claims).Session? ==> Usable(s', reply))
  {
    ReachableIsSound(s);
    match r
    case VerifyEmail(row) => VerifyEmailIsUsableIff(s, row);
    case Login(email, matches, remember) => LoginIsUsable(s, email, matches, remember);
    case Refresh(row) => RefreshIsUsable(s, row);
    case SwitchWorkspace(claims, workspace) => SwitchIsUsable(s, claims, workspace);
    case AcceptInvitation(secret, valid) => AcceptIsUsableIff(s, secret, valid);
    case _ => NoOtherRequestOpensSessions(s, r);
  }

  /** Whether the session is to be remembered. */
  function Remembers(s: State, r: Request): bool {
    match r
    case Login(_, _, remember) => remember
    case Refresh(row) => row < |s.tokens| && s.tokens[row].remember
    case SwitchWorkspace(claims, _) => exists i | 0 <= i < |s.tokens| :: s.tokens[i].family == claims.family && s.tokens[i].remember
    case _ => false
  }

  /** The token behind the reply: the only new one, owned as the reply claims, unrevoked, and good for 30 days if the
      session is remembered and for 7 if not. Refresh stays in the family of the presented token; others open one. */
  ghost predicate TokenAsReplied(s: State, r: Request, s': State, reply: Reply) {
    && reply.Session? && reply.token == |s.tokens| && |s'.tokens| == |s.tokens| + 1
    && var t := s'.tokens[reply.token];
       && reply.claims == Claims(t.user, t.workspace, t.family) && t.revokedAt.None? && t.replacedBy.None?
       && t.remember == Remembers(s, r)
       && t.expiresAt == s.clock + (if Remembers(s, r) then 30 else 7) * DAY
       && if r.Refresh? then r.token < |s.tokens| && t.family == s.tokens[r.token].family else t.family == s.families
  }

  lemma AcceptedTokenIsAsReplied(s: State, secret: nat, valid: bool)
    requires DoAcceptInvitation(s, secret, valid).1.Session?
    ensures var (s', reply) := DoAcceptInvitation(s, secret, valid); TokenAsReplied(s, AcceptInvitation(secret, valid), s', reply)
  {
    AcceptInThreeParts(s, secret, valid);
  }

  lemma LoginTokenIsAsReplied(s: State, email: string, matches: bool, remember: bool)
    requires DoLogin(s, email, matches, remember).1.Session?
    ensures var (s', reply) := DoLogin(s, email, matches, remember); TokenAsReplied(s, Login(email, matches, remember), s', reply)
  {
  }

  lemma RefreshTokenIsAsReplied(s: State, row: nat)
    requires DoRefresh(s, row).1.Session?
    ensures var (s', reply) := DoRefresh(s, row); TokenAsReplied(s, Refresh(row), s', reply)
  {
  }

  lemma SwitchTokenIsAsReplied(s: State, claims: Claims, workspace: nat)
    requires DoSwitchWorkspace(s, claims, workspace).1.Session?
    ensures var (s', reply) := DoSwitchWorkspace(s, claims, workspace);
            TokenAsReplied(s, SwitchWorkspace(claims, workspace), s', reply)
  {
  }

  lemma VerifiedTokenIsAsReplied(s: State, row: nat)
    requires DoVerifyEmail(s, row).1.Session?
    ensures var (s', reply) := DoVerifyEmail(s, row); TokenAsReplied(s, VerifyEmail(row), s', reply)
  {
  }

  lemma OpenedTokenIsAsReplied(s: State, r: Request)
    requires Step(s, r).1.Session?
    ensures TokenAsReplied(s, r, Step(s, r).0, Step(s, r).1)
  {
    hide TokenAsReplied;
    match r
    case AcceptInvitation(secret, valid) => AcceptedTokenIsAsReplied(s, secret, valid);
    case VerifyEmail(row) => VerifiedTokenIsAsReplied(s, row);
    case Login(email, matches, remember) => LoginTokenIsAsReplied(s, email, matches, remember);
    case Refresh(row) => RefreshTokenIsAsReplied(s, row);
    case SwitchWorkspace(claims, workspace) => SwitchTokenIsAsReplied(s, claims, workspace);
    case _ => NoOtherRequestOpensSessions(s, r);
  }

  lemma NoOtherRequestOpensSessions(s: State, r: Request)
    requires !r.VerifyEmail? && !r.Login? && !r.Refresh? && !r.SwitchWorkspace? && !r.AcceptInvitation?
    ensures !Step(s, r).1.Session?
  {
  }

  /** An account disabled between registration and verification still gets a session, which nothing accepts. */
  lemma VerificationMayOpenUselessSession(email: string)
    ensures var s := Run(INIT, [Register(email), SetAccountActive(0, false)]);
            && Reachable(s) && DoVerifyEmail(s, 0).1.Session?
            && Authenticate(DoVerifyEmail(s, 0).0, DoVerifyEmail(s, 0).1.claims).Refused?
  {
    var first, both := [Register(email)], [Register(email), SetAccountActive(0, false)];
    assert first[..0] == [] && both[..1] == first;
    assert Run(INIT, []) == INIT;
    assert Run(INIT, first) == DoRegister(INIT, email).0;
    var s := Run(INIT, both);
    assert s == After(Run(INIT, first), SetAccountActive(0, false));
    assert Reachable(s);
    ReachableIsSound(s);
    VerifyEmailIsUsableIff(s, 0);
  }
}
