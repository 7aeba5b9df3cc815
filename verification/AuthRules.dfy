// What each auth handler promises its caller, read off the state before it and after it.
module AuthRules {
  import opened Wrappers
  import opened Tables
  import opened AuthTables
  import opened TokenFamilies
  import opened AuthProtocol
  import opened AuthInvariants
  import opened AuthRuns
  import opened AuthTheorems
  import opened AuthSessions

  // ---------- sessions ----------

  /** An address is registered once; until it is verified it cannot log in, and the link that is sent opens its session. */
  ghost predicate RegisterRule(s: State, email: string, s': State, reply: Reply) {
    && (reply.Done? <==> forall u | 0 <= u < |s.users| && s.users[u].email == email :: s.users[u].deleted)
    && (!reply.Done? ==> s' == s)
    && (reply.Done? ==>
          && DoLogin(s', email, true, false).1 == Refused(EmailVerificationRequired)
          && DoVerifyEmail(s', |s.verifications|).1
             == Session(|s.tokens|, Claims(|s.users|, |s.workspaces|, s.families), Admin))
  }

  lemma RegisterFollowsRule(s: State, email: string)
    requires Inv(s)
    ensures RegisterRule(s, email, DoRegister(s, email).0, DoRegister(s, email).1)
  {
    var (s', reply) := DoRegister(s, email);
    if reply.Done? {
      var user := |s.users|;
      assert s'.users[user].email == email && !s'.users[user].deleted;
      assert forall u | 0 <= u < user :: s'.users[u] == s.users[u];
      assert FindUser(s'.users, email) == Some(user);
    }
  }

  /** A link that opens a session verifies the account and leaves it no other link; whether the session is of use was
      decided before. */
  ghost predicate VerifyEmailRule(s: State, row: nat, s': State, reply: Reply) {
    && (!reply.Session? ==> s' == s)
    && (reply.Session? ==>
          && VerifiedUser(s'.users, reply.claims.user) && DoVerifyEmail(s', row).1.Refused?
          && (forall i | 0 <= i < |s'.verifications| && s'.verifications[i].user == reply.claims.user ::
                !Outstanding(s'.verifications[i]))
          && (Authenticate(s', reply.claims).Session? <==> OpensUsableSession(s, VerifyEmail(row))))
  }

  lemma VerifyEmailFollowsRule(s: State, row: nat)
    requires Inv(s)
    ensures VerifyEmailRule(s, row, DoVerifyEmail(s, row).0, DoVerifyEmail(s, row).1)
  {
    if DoVerifyEmail(s, row).1.Session? {
      VerifyEmailIsUsableIff(s, row);
      VerifiedLeavesNoLink(s, row);
    }
  }

  lemma VerifiedLeavesNoLink(s: State, row: nat)
    requires Inv(s) && DoVerifyEmail(s, row).1.Session?
    ensures var (s', reply) := DoVerifyEmail(s, row);
            && VerifiedUser(s'.users, reply.claims.user) && DoVerifyEmail(s', row).1.Refused?
            && (forall i | 0 <= i < |s'.verifications| && s'.verifications[i].user == reply.claims.user ::
                  !Outstanding(s'.verifications[i]))
  {
  }

  /** The answer never tells whether the address is known; if a link is sent it is the only one that works. */
  ghost predicate ResendVerificationRule(s: State, email: string, s': State, reply: Reply) {
    && reply == Done
    && (s' != s ==>
          && FindUser(s.users, email).Some? && DoVerifyEmail(s', |s.verifications|).1.Session?
          && var user := FindUser(s.users, email).value;
             s.users[user].verifiedAt.None?
             && forall i | 0 <= i < |s.verifications| && s.verifications[i].user == user ::
                  i < |s'.verifications| && !Outstanding(s'.verifications[i]))
  }

  lemma ResendVerificationFollowsRule(s: State, email: string)
    requires Inv(s)
    ensures ResendVerificationRule(s, email, DoResendVerification(s, email).0, DoResendVerification(s, email).1)
  {
    var s' := DoResendVerification(s, email).0;
    if s' != s {
      var user := FindUser(s.users, email).value;
      var m := FindFirst(s.members, (m: Member) => m.user == user && LiveMember(m)).value;
      assert MemberOk(s, m);
    }
  }

  /** Only the right password of a verified, active account opens a session, and that session is accepted. */
  ghost predicate LoginRule(s: State, email: string, matches: bool, remember: bool, s': State, reply: Reply) {
    && (!reply.Session? ==> s' == s)
    && (reply.Session? ==>
          && matches && UsableAccount(s, reply.claims.user) && s.users[reply.claims.user].email == email
          && Usable(s', reply) && TokenAsReplied(s, Login(email, matches, remember), s', reply))
  }

  lemma LoginFollowsRule(s: State, email: string, matches: bool, remember: bool)
    requires Inv(s)
    ensures LoginRule(s, email, matches, remember, DoLogin(s, email, matches, remember).0, DoLogin(s, email, matches, remember).1)
  {
    if DoLogin(s, email, matches, remember).1.Session? {
      LoginIsUsable(s, email, matches, remember);
      LoginTokenIsAsReplied(s, email, matches, remember);
    }
  }

  /** A rotation yields a session that is accepted, and the same request sent again at once changes nothing; a token
      used again later shuts its whole family; every other refusal leaves all other tokens alone. */
  ghost predicate RefreshRule(s: State, row: nat, s': State, reply: Reply) {
    && (reply.Session? ==>
          && row < |s.tokens| && row < |s'.tokens| && s'.tokens[row].replacedBy == Some(reply.token)
          && DoRefresh(s', row) == (s', Refused(RefreshAlreadyRotated))
          && Usable(s', reply) && TokenAsReplied(s, Refresh(row), s', reply))
    && (reply == Refused(RefreshReuseDetected) ==> row < |s.tokens| && Shut(s', s.tokens[row].family))
    && (!reply.Session? && reply != Refused(RefreshReuseDetected) ==>
          && s' == s.(tokens := s'.tokens) && |s'.tokens| == |s.tokens|
          && forall i | 0 <= i < |s.tokens| && i != row :: s'.tokens[i] == s.tokens[i])
  }

  lemma ReuseShutsFamily(s: State, row: nat)
    requires Inv(s) && DoRefresh(s, row).1 == Refused(RefreshReuseDetected)
    ensures row < |s.tokens| && Shut(DoRefresh(s, row).0, s.tokens[row].family)
  {
    RevokeKillsFamily(s.tokens, s.families, OfFamily(s.tokens[row].family), s.clock, row);
    DeadIsShut(DoRefresh(s, row).0, s.tokens[row].family);
  }

  lemma RotatedIsWithinGrace(s: State, row: nat)
    requires DoRefresh(s, row).1.Session?
    ensures var (s', reply) := DoRefresh(s, row);
            && row < |s.tokens| && row < |s'.tokens| && s'.tokens[row].replacedBy == Some(reply.token)
            && DoRefresh(s', row) == (s', Refused(RefreshAlreadyRotated))
  {
  }

  lemma RefreshFollowsRule(s: State, row: nat)
    requires Inv(s)
    ensures RefreshRule(s, row, DoRefresh(s, row).0, DoRefresh(s, row).1)
  {
    var reply := DoRefresh(s, row).1;
    if reply.Session? {
      RotatedIsWithinGrace(s, row);
      RefreshIsUsable(s, row);
      RefreshTokenIsAsReplied(s, row);
      hide *;
    } else if reply == Refused(RefreshReuseDetected) {
      ReuseShutsFamily(s, row);
    }
  }

  ghost predicate LogoutRule(s: State, claims: Claims, s': State, reply: Reply) {
    if reply.Done? then Shut(s', claims.family) else s' == s
  }

  lemma LogoutFollowsRule(s: State, claims: Claims)
    requires Inv(s)
    ensures LogoutRule(s, claims, DoLogout(s, claims).0, DoLogout(s, claims).1)
  {
    if DoLogout(s, claims).1.Done? {
      AuthenticatedFamilyDies(s, claims);
      DeadIsShut(DoLogout(s, claims).0, claims.family);
    }
  }

  lemma AuthenticatedFamilyDies(s: State, claims: Claims)
    requires Inv(s) && Authenticate(s, claims).Session?
    ensures claims.family < s.families && Dead(Revoke(s.tokens, OfFamily(claims.family), s.clock), claims.family)
  {
    var row := Authenticate(s, claims).token;
    assert RowOk(s.tokens, s.families, s.clock, row);
    RevokeKillsFamily(s.tokens, s.families, OfFamily(claims.family), s.clock, row);
  }

  /** The session that asked is shut, and the one in the other workspace is accepted for the same user. */
  ghost predicate SwitchRule(s: State, claims: Claims, workspace: nat, s': State, reply: Reply) {
    && (!reply.Session? ==> s' == s)
    && (reply.Session? ==>
          && Shut(s', claims.family) && Usable(s', reply)
          && reply.claims.user == claims.user && reply.claims.workspace == workspace
          && TokenAsReplied(s, SwitchWorkspace(claims, workspace), s', reply))
  }

  lemma SwitchShutsOldFamily(s: State, claims: Claims, workspace: nat)
    requires Inv(s) && DoSwitchWorkspace(s, claims, workspace).1.Session?
    ensures Shut(DoSwitchWorkspace(s, claims, workspace).0, claims.family)
  {
    var s' := DoSwitchWorkspace(s, claims, workspace).0;
    AuthenticatedFamilyDies(s, claims);
    assert Dead(s'.tokens, claims.family);
    DeadIsShut(s', claims.family);
  }

  lemma SwitchFollowsRule(s: State, claims: Claims, workspace: nat)
    requires Inv(s)
    ensures SwitchRule(s, claims, workspace, DoSwitchWorkspace(s, claims, workspace).0, DoSwitchWorkspace(s, claims, workspace).1)
  {
    if DoSwitchWorkspace(s, claims, workspace).1.Session? {
      SwitchShutsOldFamily(s, claims, workspace);
      SwitchIsUsable(s, claims, workspace);
      SwitchTokenIsAsReplied(s, claims, workspace);
      hide Shut, Usable, TokenAsReplied, Inv;
    }
  }

  // ---------- invitations ----------

  /** The link leads to this invitation, which is pending and good for seven days from now. */
  predicate OpenFor(s: State, row: nat, link: nat) {
    && FindInvitation(s, link) == Some(row) && s.invitations[row].status == Pending
    && s.invitations[row].expiresAt == s.clock + 7 * DAY
  }

  /** A link drawn fresh leads to the one invitation that carries it. */
  lemma NewLinkIsFound(s: State, s': State, row: nat)
    requires PeopleOk(s) && PeopleOk(s') && row < |s'.invitations| && s'.invitations[row].secret == s.secrets
    requires |s'.invitations| <= |s.invitations| || row == |s.invitations| == |s'.invitations| - 1
    requires forall i: nat | i < |s.invitations| && i < |s'.invitations| && i != row :: s'.invitations[i] == s.invitations[i]
    ensures FindInvitation(s', s.secrets) == Some(row)
  {
    assert InvitationOk(s', row);
    forall i: nat | i < |s'.invitations| && i != row ensures s'.invitations[i].secret != s.secrets {
      assert InvitationOk(s, i);
      assert s'.invitations[i] == s.invitations[i];
    }
  }

  /** Only an admin invites, nobody who is in the workspace, and nobody twice at a time. */
  ghost predicate CreateInvitationRule(s: State, claims: Claims, email: string, role: Role, s': State, reply: Reply) {
    if !reply.Done? then s' == s
    else
      var row := |s.invitations|;
      && IsAdmin(s, claims) && OpenFor(s', row, s.secrets) && s'.invitations[row].role == role
      && (forall m | 0 <= m < |s.members| :: !MemberWithEmail(s, s.members[m], claims.workspace, email))
      && (forall i | 0 <= i < |s'.invitations| :: PendingFor(s'.invitations[i], claims.workspace, email) <==> i == row)
  }

  lemma CreateInvitationFollowsRule(s: State, claims: Claims, email: string, role: Role)
    requires Inv(s)
    ensures CreateInvitationRule(s, claims, email, role, DoCreateInvitation(s, claims, email, role).0,
                                 DoCreateInvitation(s, claims, email, role).1)
  {
    if DoCreateInvitation(s, claims, email, role).1.Done? {
      CreateInvitationKeepsPeople(s, claims, email, role);
      NewLinkIsFound(s, DoCreateInvitation(s, claims, email, role).0, |s.invitations|);
    }
  }

  /** Only an admin of the workspace sends a pending invitation again; the old link is dead, the new one open. */
  ghost predicate ResendInvitationRule(s: State, claims: Claims, row: nat, s': State, reply: Reply) {
    if !reply.Done? then s' == s
    else
      && IsAdmin(s, claims) && PendingIn(s, row, claims.workspace)
      && Spent(s', s.invitations[row].secret) && OpenFor(s', row, s.secrets)
      && s'.invitations[row].email == s.invitations[row].email && s'.invitations[row].role == s.invitations[row].role
  }

  lemma ResendInvitationFollowsRule(s: State, claims: Claims, row: nat)
    requires Inv(s)
    ensures ResendInvitationRule(s, claims, row, DoResendInvitation(s, claims, row).0, DoResendInvitation(s, claims, row).1)
  {
    if DoResendInvitation(s, claims, row).1.Done? {
      InvitationRequestsSpendTheLink(s, claims, row, false);
      ResendInvitationKeepsPeople(s, claims, row);
      NewLinkIsFound(s, DoResendInvitation(s, claims, row).0, row);
    }
  }

  ghost predicate RevokeInvitationRule(s: State, claims: Claims, row: nat, s': State, reply: Reply) {
    if !reply.Done? then s' == s
    else IsAdmin(s, claims) && PendingIn(s, row, claims.workspace) && Spent(s', s.invitations[row].secret)
  }

  lemma RevokeInvitationFollowsRule(s: State, claims: Claims, row: nat)
    requires Inv(s)
    ensures RevokeInvitationRule(s, claims, row, DoRevokeInvitation(s, claims, row).0, DoRevokeInvitation(s, claims, row).1)
  {
    if DoRevokeInvitation(s, claims, row).1.Done? {
      InvitationRequestsSpendTheLink(s, claims, row, false);
    }
  }

  /** The invited address was in nobody's hands in the workspace; now its account is an active member with the role
      offered, and the link is dead. */
  ghost predicate AcceptInvitationRule(s: State, secret: nat, valid: bool, s': State, reply: Reply) {
    && (!reply.Session? ==> s' == s)
    && (reply.Session? ==>
          && FindInvitation(s, secret).Some?
          && var i, user := s.invitations[FindInvitation(s, secret).value], reply.claims.user;
             && i.status == Pending && s.clock <= i.expiresAt && reply.claims.workspace == i.workspace
             && user < |s'.users| && s'.users[user].email == i.email
             && (forall m | 0 <= m < |s.members| :: !MemberWithEmail(s, s.members[m], i.workspace, i.email))
             && JoinedAs(s', i.workspace, user, i.role) && Spent(s', secret))
  }

  predicate JoinedAs(s: State, workspace: nat, user: nat, role: Role) {
    var m := FindMember(s.members, workspace, user);
    m.Some? && s.members[m.value].status == Active && s.members[m.value].role == role
  }

  lemma AdmittedJoins(s: State, row: nat, user: nat)
    requires PeopleOk(s) && row < |s.invitations| && s.invitations[row].status == Pending
    requires user < |s.users| && s.users[user].email == s.invitations[row].email
    ensures JoinedAs(Admitted(s, row, user), s.invitations[row].workspace, user, s.invitations[row].role)
  {
    var s2, i := Admitted(s, row, user), s.invitations[row];
    AdmitMemberKeepsPeople(s, row, user);
    var found := FindRow(s.members, i.workspace, user);
    LiveRowIsFound(s2, if found.Some? then found.value else |s.members|);
  }

  lemma AcceptedHasJoined(s: State, secret: nat, valid: bool)
    requires Inv(s) && DoAcceptInvitation(s, secret, valid).1.Session?
    ensures var (s', reply) := DoAcceptInvitation(s, secret, valid);
            && FindInvitation(s, secret).Some?
            && var i, user := s.invitations[FindInvitation(s, secret).value], reply.claims.user;
               && i.status == Pending && s.clock <= i.expiresAt && reply.claims.workspace == i.workspace
               && user < |s'.users| && s'.users[user].email == i.email && JoinedAs(s', i.workspace, user, i.role)
  {
    AcceptInThreeParts(s, secret, valid);
    var row := FindInvitation(s, secret).value;
    var i := s.invitations[row];
    var (s1, user) := AdmitAccount(s, i.email);
    AdmitAccountKeepsPeople(s, i.email);
    AdmittedJoins(s1, row, user);
    TouchKeepsMember(Admitted(s1, row, user).members, i.workspace, user, s.clock);
  }

  lemma AcceptInvitationFollowsRule(s: State, secret: nat, valid: bool)
    requires Inv(s)
    ensures AcceptInvitationRule(s, secret, valid, DoAcceptInvitation(s, secret, valid).0, DoAcceptInvitation(s, secret, valid).1)
  {
    if DoAcceptInvitation(s, secret, valid).1.Session? {
      AcceptedHasJoined(s, secret, valid);
      var row := FindInvitation(s, secret).value;
      forall m | 0 <= m < |s.members|
        ensures !MemberWithEmail(s, s.members[m], s.invitations[row].workspace, s.invitations[row].email)
      {
        assert InvitesOutsider(s, row, m);
      }
      InvitationRequestsSpendTheLink(s, Claims(0, 0, 0), row, valid);
      hide JoinedAs, Spent, Inv, MemberWithEmail;
    }
  }

  // ---------- members ----------

  /** No session of this member is accepted. */
  ghost predicate MemberShut(s: State, workspace: nat, user: nat) {
    forall i | 0 <= i < |s.tokens| && s.tokens[i].workspace == workspace && s.tokens[i].user == user :: Shut(s, s.tokens[i].family)
  }

  predicate OnlyAdmin(s: State, workspace: nat, row: nat) {
    forall m | 0 <= m < |s.members| && s.members[m].workspace == workspace && ActiveAdmin(s.members[m]) :: m == row
  }

  lemma RevokedMemberIsShut(s: State, s': State, workspace: nat, user: nat)
    requires Inv(s) && s' == s.(members := s'.members, tokens := Revoke(s.tokens, OfMember(workspace, user), s.clock))
    ensures MemberShut(s', workspace, user)
  {
    forall i | 0 <= i < |s'.tokens| && s'.tokens[i].workspace == workspace && s'.tokens[i].user == user
      ensures Shut(s', s'.tokens[i].family)
    {
      RevokeKillsFamily(s.tokens, s.families, OfMember(workspace, user), s.clock, i);
      DeadIsShut(s', s'.tokens[i].family);
    }
  }

  /** Only an admin of the workspace edits a member, and that member alone; the only admin left is refused, so that
      the workspace has one afterwards; a member who is suspended is logged out everywhere in it. */
  ghost predicate UpdateMemberRule(s: State, claims: Claims, row: nat, role: Option<Role>, status: Option<MemberStatus>,
                                   s': State, reply: Reply)
  {
    && (!reply.Done? ==> s' == s)
    && (reply == Refused(LastAdmin) ==> OnlyAdmin(s, claims.workspace, row))
    && (reply.Done? ==>
          && IsAdmin(s, claims) && MemberIn(s, row, claims.workspace) && |s'.members| == |s.members|
          && (forall m | 0 <= m < |s.members| && m != row :: s'.members[m] == s.members[m])
          && (role.Some? ==> s'.members[row].role == role.value) && (status.Some? ==> s'.members[row].status == status.value)
          && HasAdmin(s'.members, claims.workspace)
          && (s'.members[row].status != Active ==> MemberShut(s', claims.workspace, s.members[row].user)))
  }

  lemma LastAdminIsOnly(s: State, workspace: nat, row: nat)
    requires CountActiveAdmins(s.members, workspace, row) == 0
    ensures OnlyAdmin(s, workspace, row)
  {
    CountFindsAdmin(s.members, workspace, row);
  }

  lemma WorkspaceStillHasAdmin(s: State, claims: Claims, s': State)
    requires Inv(s) && IsAdmin(s, claims) && PeopleOk(s') && s'.workspaces == s.workspaces
    ensures HasAdmin(s'.members, claims.workspace)
  {
    AuthenticatedIsActive(s, claims);
  }

  lemma UpdateMemberFollowsRule(s: State, claims: Claims, row: nat, role: Option<Role>, status: Option<MemberStatus>)
    requires Inv(s)
    ensures UpdateMemberRule(s, claims, row, role, status, DoUpdateMember(s, claims, row, role, status).0,
                             DoUpdateMember(s, claims, row, role, status).1)
  {
    var (s', reply) := DoUpdateMember(s, claims, row, role, status);
    if reply == Refused(LastAdmin) {
      LastAdminIsOnly(s, claims.workspace, row);
    } else if reply.Done? {
      UpdateMemberKeepsPeople(s, claims, row, role, status);
      WorkspaceStillHasAdmin(s, claims, s');
      if s'.members[row].status != Active {
        RevokedMemberIsShut(s, s', claims.workspace, s.members[row].user);
      }
    }
  }

  /** Only an admin of the workspace removes a member, never its only admin; the member is logged out everywhere in it. */
  ghost predicate RemoveMemberRule(s: State, claims: Claims, row: nat, s': State, reply: Reply) {
    && (!reply.Done? ==> s' == s)
    && (reply == Refused(LastAdmin) ==> OnlyAdmin(s, claims.workspace, row))
    && (reply.Done? ==>
          && IsAdmin(s, claims) && MemberIn(s, row, claims.workspace) && |s'.members| == |s.members|
          && (forall m | 0 <= m < |s.members| && m != row :: s'.members[m] == s.members[m])
          && FindMember(s'.members, claims.workspace, s.members[row].user).None?
          && HasAdmin(s'.members, claims.workspace)
          && MemberShut(s', claims.workspace, s.members[row].user))
  }

  lemma RemovedIsGone(s: State, row: nat, member: Member)
    requires PeopleOk(s) && row < |s.members| && member == s.members[row].(deletedAt := Some(s.clock))
    ensures FindMember(s.members[row := member], s.members[row].workspace, s.members[row].user).None?
  {
    forall m: nat | m < |s.members| && m != row
      ensures s.members[m].workspace != s.members[row].workspace || s.members[m].user != s.members[row].user
    {
      assert if m < row then DistinctMembers(s, m, row) else DistinctMembers(s, row, m);
    }
  }

  lemma RemoveMemberFollowsRule(s: State, claims: Claims, row: nat)
    requires Inv(s)
    ensures RemoveMemberRule(s, claims, row, DoRemoveMember(s, claims, row).0, DoRemoveMember(s, claims, row).1)
  {
    var (s', reply) := DoRemoveMember(s, claims, row);
    if reply == Refused(LastAdmin) {
      LastAdminIsOnly(s, claims.workspace, row);
    } else if reply.Done? {
      RemoveMemberKeepsPeople(s, claims, row);
      WorkspaceStillHasAdmin(s, claims, s');
      RemovedIsGone(s, row, s'.members[row]);
      RevokedMemberIsShut(s, s', claims.workspace, s.members[row].user);
    }
  }
}
