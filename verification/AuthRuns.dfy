// Every request keeps the invariants and undoes nothing; hence so does every run.
module AuthRuns {
  import opened Wrappers
  import opened Tables
  import opened AuthTables
  import opened TokenFamilies
  import opened AuthProtocol
  import opened AuthInvariants

  /** One admissible transition. */
  ghost predicate Sound(s: State, s': State) {
    Inv(s') && StateLater(s, s')
  }

  // ---------- statements shared by several handlers ----------

  lemma StillVerified(tokens: seq<Token>, users: seq<User>, users': seq<User>)
    requires OwnersVerified(tokens, users)
    requires |users| <= |users'| && forall u | 0 <= u < |users| :: UserLater(users[u], users'[u])
    ensures OwnersVerified(tokens, users')
  {
    forall i | 0 <= i < |tokens| ensures VerifiedUser(users', tokens[i].user) {
      assert VerifiedUser(users, tokens[i].user);
      assert UserLater(users[tokens[i].user], users'[tokens[i].user]);
    }
  }

  lemma RevokeVerificationsKeeps(rows: seq<Verification>, users: nat, user: nat, now: Time)
    requires VerificationsOk(rows, users)
    ensures var after := RevokeVerifications(rows, user, now);
            && VerificationsOk(after, users)
            && (forall i | 0 <= i < |rows| :: VerificationLater(rows[i], after[i]))
            && (forall i | 0 <= i < |rows| && after[i].user == user :: !Outstanding(after[i]))
  {
    var after := RevokeVerifications(rows, user, now);
    forall i: nat, j: nat | i < j < |after| ensures DistinctOutstanding(after, i, j) {
      assert DistinctOutstanding(rows, i, j);
    }
  }

  /** Rows for which no other row is outstanding may be appended. */
  lemma AppendVerificationKeeps(rows: seq<Verification>, users: nat, v: Verification, users': nat)
    requires VerificationsOk(rows, users) && users <= users' && v.user < users'
    requires forall i | 0 <= i < |rows| && rows[i].user == v.user :: !Outstanding(rows[i])
    ensures VerificationsOk(rows + [v], users')
  {
    forall i: nat, j: nat | i < j < |rows + [v]| ensures DistinctOutstanding(rows + [v], i, j) {
      assert j < |rows| ==> DistinctOutstanding(rows, i, j);
    }
  }

  /** Requests that only revoke refresh tokens. */
  lemma RevokeIsSound(s: State, which: Selector)
    requires Inv(s)
    ensures Sound(s, s.(tokens := Revoke(s.tokens, which, s.clock)))
  {
    var s' := s.(tokens := Revoke(s.tokens, which, s.clock));
    RevokeKeepsChains(s.tokens, s.families, which, s.clock);
    forall i | 0 <= i < |s'.tokens| ensures VerifiedUser(s'.users, s'.tokens[i].user) {
      assert VerifiedUser(s.users, s.tokens[i].user);
    }
    assert forall m | 0 <= m < |s.members| :: SameStanding(s.members[m], s'.members[m]);
    SamePeopleOk(s, s');
  }

  lemma OpenSessionIsSound(s: State, user: nat, workspace: nat, remember: bool)
    requires Inv(s) && VerifiedUser(s.users, user)
    ensures Sound(s, OpenSession(s, user, workspace, remember))
  {
    var s' := OpenSession(s, user, workspace, remember);
    OpenKeepsChains(s.tokens, s.families, user, workspace, remember, s.clock);
    forall i | 0 <= i < |s'.tokens| ensures VerifiedUser(s'.users, s'.tokens[i].user) {
      assert i < |s.tokens| ==> VerifiedUser(s.users, s.tokens[i].user);
    }
    assert forall m | 0 <= m < |s.members| :: SameStanding(s.members[m], s'.members[m]);
    SamePeopleOk(s, s');
  }

  // ---------- one lemma per handler ----------

  lemma RegisterIsSound(s: State, email: string)
    requires Inv(s)
    ensures Sound(s, DoRegister(s, email).0)
  {
    var s' := DoRegister(s, email).0;
    RegisterKeepsPeople(s, email);
    if s' != s {
      StillVerified(s.tokens, s.users, s'.users);
      AppendVerificationKeeps(s.verifications, |s.users|, s'.verifications[|s.verifications|], |s'.users|);
    }
  }

  lemma MarkVerifiedIsLater(users: seq<User>, user: nat, now: Time)
    requires user < |users|
    ensures var users' := MarkVerified(users, user, now);
            |users'| == |users| && VerifiedUser(users', user) && forall u | 0 <= u < |users| :: UserLater(users[u], users'[u])
  {
  }

  lemma VerifyEmailIsSound(s: State, row: nat)
    requires Inv(s)
    ensures Sound(s, DoVerifyEmail(s, row).0)
  {
    hide PeopleOk;
    var s' := DoVerifyEmail(s, row).0;
    if DoVerifyEmail(s, row).1.Session? {
      var v := s.verifications[row];
      var consumed := s.verifications[row := v.(consumedAt := Some(s.clock))];
      forall i: nat, j: nat | i < j < |consumed| ensures DistinctOutstanding(consumed, i, j) {
        assert DistinctOutstanding(s.verifications, i, j);
      }
      RevokeVerificationsKeeps(consumed, |s.users|, v.user, s.clock);
      MarkVerifiedIsLater(s.users, v.user, s.clock);
      var s1 := s.(users := MarkVerified(s.users, v.user, s.clock),
                   verifications := RevokeVerifications(consumed, v.user, s.clock));
      StillVerified(s.tokens, s.users, s1.users);
      assert forall m | 0 <= m < |s.members| :: SameStanding(s.members[m], s1.members[m]);
      SamePeopleOk(s, s1);
      forall i | 0 <= i < |s.verifications| ensures VerificationLater(s.verifications[i], s1.verifications[i]) {
        assert VerificationLater(consumed[i], s1.verifications[i]);
      }
      assert Sound(s, s1);
      OpenSessionIsSound(s1, v.user, v.workspace, false);
      StateLaterIsTransitive(s, s1, s');
    }
  }

  lemma ResendVerificationIsSound(s: State, email: string)
    requires Inv(s)
    ensures Sound(s, DoResendVerification(s, email).0)
  {
    var s' := DoResendVerification(s, email).0;
    if s' != s {
      var user := FindUser(s.users, email).value;
      RevokeVerificationsKeeps(s.verifications, |s.users|, user, s.clock);
      AppendVerificationKeeps(RevokeVerifications(s.verifications, user, s.clock), |s.users|,
                              s'.verifications[|s.verifications|], |s.users|);
      assert forall m | 0 <= m < |s.members| :: SameStanding(s.members[m], s'.members[m]);
      SamePeopleOk(s, s');
    }
  }

  lemma LoginOpensAtMostOneSession(s: State, email: string, passwordMatches: bool, remember: bool)
    returns (user: nat, workspace: nat)
    ensures var s' := DoLogin(s, email, passwordMatches, remember).0;
            s' == s || (VerifiedUser(s.users, user) && s' == OpenSession(s, user, workspace, remember))
  {
    user, workspace := 0, 0;
    if DoLogin(s, email, passwordMatches, remember).1.Session? {
      var claims := DoLogin(s, email, passwordMatches, remember).1.claims;
      user, workspace := claims.user, claims.workspace;
    }
  }

  lemma StayingIsSound(s: State)
    requires Inv(s)
    ensures Sound(s, s)
  {
  }

  lemma LoginIsSound(s: State, email: string, passwordMatches: bool, remember: bool)
    requires Inv(s)
    ensures Sound(s, DoLogin(s, email, passwordMatches, remember).0)
  {
    var user, workspace := LoginOpensAtMostOneSession(s, email, passwordMatches, remember);
    StayingIsSound(s);
    if VerifiedUser(s.users, user) {
      OpenSessionIsSound(s, user, workspace, remember);
    }
  }

  lemma RotationIsSound(s: State, row: nat)
    requires Inv(s) && row < |s.tokens| && ClassifiedActive(s.tokens[row])
    ensures var t := s.tokens[row];
            Sound(s, s.(tokens := Rotated(s.tokens, row, s.clock), members := Touch(s.members, t.workspace, t.user, s.clock)))
  {
    var t := s.tokens[row];
    var s' := s.(tokens := Rotated(s.tokens, row, s.clock), members := Touch(s.members, t.workspace, t.user, s.clock));
    RotateKeepsChains(s.tokens, s.families, row, s.clock);
    forall i | 0 <= i < |s'.tokens| ensures VerifiedUser(s'.users, s'.tokens[i].user) {
      assert VerifiedUser(s.users, t.user);
      assert i < |s.tokens| ==> VerifiedUser(s.users, s.tokens[i].user);
    }
    assert forall m | 0 <= m < |s.members| :: SameStanding(s.members[m], s'.members[m]);
    SamePeopleOk(s, s');
  }

  lemma RefreshIsSound(s: State, row: nat)
    requires Inv(s)
    ensures Sound(s, DoRefresh(s, row).0)
  {
    if row < |s.tokens| {
      RevokeIsSound(s, OfRow(row));
      RevokeIsSound(s, OfFamily(s.tokens[row].family));
      if ClassifiedActive(s.tokens[row]) {
        RotationIsSound(s, row);
      }
    }
  }

  lemma LogoutIsSound(s: State, claims: Claims)
    requires Inv(s)
    ensures Sound(s, DoLogout(s, claims).0)
  {
    RevokeIsSound(s, OfFamily(claims.family));
  }

  lemma SwitchWorkspaceIsSound(s: State, claims: Claims, workspace: nat)
    requires Inv(s)
    ensures Sound(s, DoSwitchWorkspace(s, claims, workspace).0)
  {
    var (s', reply) := DoSwitchWorkspace(s, claims, workspace);
    if reply.Session? {
      var s1 := s.(tokens := Revoke(s.tokens, OfFamily(claims.family), s.clock));
      RevokeIsSound(s, OfFamily(claims.family));
      OpenSessionIsSound(s1, claims.user, workspace, FamilyRemembers(s.tokens, claims.family));
      StateLaterIsTransitive(s, s1, s');
    }
  }

  lemma InvitationEditIsSound(s: State, s': State)
    requires Inv(s) && PeopleOk(s')
    requires s' == s.(invitations := s'.invitations, secrets := s'.secrets) && s.secrets <= s'.secrets
    requires |s.invitations| <= |s'.invitations|
    requires forall i | 0 <= i < |s.invitations| :: InvitationLater(s.invitations[i], s'.invitations[i], s.secrets)
    requires forall i | |s.invitations| <= i < |s'.invitations| :: s.secrets <= s'.invitations[i].secret
    ensures Sound(s, s')
  {
  }

  lemma CreateInvitationIsSound(s: State, claims: Claims, email: string, role: Role)
    requires Inv(s)
    ensures Sound(s, DoCreateInvitation(s, claims, email, role).0)
  {
    CreateInvitationKeepsPeople(s, claims, email, role);
    InvitationEditIsSound(s, DoCreateInvitation(s, claims, email, role).0);
  }

  lemma ResendInvitationIsSound(s: State, claims: Claims, row: nat)
    requires Inv(s)
    ensures Sound(s, DoResendInvitation(s, claims, row).0)
  {
    ResendInvitationKeepsPeople(s, claims, row);
    InvitationEditIsSound(s, DoResendInvitation(s, claims, row).0);
  }

  lemma RevokeInvitationIsSound(s: State, claims: Claims, row: nat)
    requires Inv(s)
    ensures Sound(s, DoRevokeInvitation(s, claims, row).0)
  {
    RevokeInvitationKeepsPeople(s, claims, row);
    InvitationEditIsSound(s, DoRevokeInvitation(s, claims, row).0);
  }

  lemma AdmitAccountIsSound(s: State, email: string)
    requires Inv(s)
    ensures Sound(s, AdmitAccount(s, email).0)
  {
    AdmitAccountKeepsPeople(s, email);
    StillVerified(s.tokens, s.users, AdmitAccount(s, email).0.users);
  }

  lemma AdmittedIsSound(s: State, row: nat, user: nat)
    requires Inv(s) && row < |s.invitations| && s.invitations[row].status == Pending
    requires user < |s.users| && s.users[user].email == s.invitations[row].email
    ensures Sound(s, Admitted(s, row, user))
  {
    AdmitMemberKeepsPeople(s, row, user);
  }

  /** Accepting is: admit the account, admit the member and close the invitation, open a session. */
  lemma AcceptInThreeParts(s: State, secret: nat, profileValid: bool)
    requires DoAcceptInvitation(s, secret, profileValid).1.Session?
    ensures var row := FindInvitation(s, secret);
            && row.Some? && s.invitations[row.value].status == Pending
            && s.invitations[row.value].secret == secret
            && var (s1, user) := AdmitAccount(s, s.invitations[row.value].email);
               s1.invitations == s.invitations
               && DoAcceptInvitation(s, secret, profileValid).0
                  == OpenSession(Admitted(s1, row.value, user), user, s.invitations[row.value].workspace, false)
  {
  }

  lemma AcceptInvitationIsSound(s: State, secret: nat, profileValid: bool)
    requires Inv(s)
    ensures Sound(s, DoAcceptInvitation(s, secret, profileValid).0)
  {
    if DoAcceptInvitation(s, secret, profileValid).1.Session? {
      AcceptInThreeParts(s, secret, profileValid);
      AcceptedIsSound(s, FindInvitation(s, secret).value);
    }
  }

  lemma AcceptedIsSound(s: State, row: nat)
    requires Inv(s) && row < |s.invitations| && s.invitations[row].status == Pending
    ensures var (s1, user) := AdmitAccount(s, s.invitations[row].email);
            s1.invitations == s.invitations
            && Sound(s, OpenSession(Admitted(s1, row, user), user, s.invitations[row].workspace, false))
  {
    var email := s.invitations[row].email;
    var (s1, user) := AdmitAccount(s, email);
    AdmitAccountKeepsPeople(s, email);
    AdmitAccountIsSound(s, email);
    var s2 := Admitted(s1, row, user);
    AdmittedIsSound(s1, row, user);
    SoundIsTransitive(s, s1, s2);
    assert VerifiedUser(s2.users, user);
    OpenSessionIsSound(s2, user, s.invitations[row].workspace, false);
    SoundIsTransitive(s, s2, OpenSession(s2, user, s.invitations[row].workspace, false));
  }

  lemma SoundIsTransitive(a: State, b: State, c: State)
    requires Sound(a, b) && Sound(b, c)
    ensures Sound(a, c)
  {
    StateLaterIsTransitive(a, b, c);
  }

  lemma UpdateMemberIsSound(s: State, claims: Claims, row: nat, role: Option<Role>, status: Option<MemberStatus>)
    requires Inv(s)
    ensures Sound(s, DoUpdateMember(s, claims, row, role, status).0)
  {
    hide RequireAdmin, PeopleOk, SessionsOk, StateLater, CountActiveAdmins;
    StayingIsSound(s);
    UpdateMemberKeepsPeople(s, claims, row, role, status);
    if DoUpdateMember(s, claims, row, role, status).1.Done? {
      MemberEditIsSound(s, DoUpdateMember(s, claims, row, role, status).0, OfMember(claims.workspace, s.members[row].user));
    }
  }

  lemma RemoveMemberIsSound(s: State, claims: Claims, row: nat)
    requires Inv(s)
    ensures Sound(s, DoRemoveMember(s, claims, row).0)
  {
    hide RequireAdmin, PeopleOk, SessionsOk, StateLater, CountActiveAdmins;
    StayingIsSound(s);
    RemoveMemberKeepsPeople(s, claims, row);
    if DoRemoveMember(s, claims, row).1.Done? {
      MemberEditIsSound(s, DoRemoveMember(s, claims, row).0, OfMember(claims.workspace, s.members[row].user));
    }
  }

  lemma MemberEditIsSound(s: State, s': State, which: Selector)
    requires Inv(s) && PeopleOk(s') && s' == s.(members := s'.members, tokens := s'.tokens)
    requires |s'.members| == |s.members| && forall m | 0 <= m < |s.members| :: MemberLater(s.members[m], s'.members[m])
    requires s'.tokens == s.tokens || s'.tokens == Revoke(s.tokens, which, s.clock)
    ensures Sound(s, s')
  {
    RevokeIsSound(s, which);
  }

  /** Edits outside every table but users and workspaces. */
  lemma EditIsSound(s: State, s': State)
    requires Inv(s) && s' == s.(clock := s'.clock, users := s'.users, workspaces := s'.workspaces)
    requires s.clock <= s'.clock && Chained(s.tokens, s.families, s'.clock)
    requires |s'.workspaces| == |s.workspaces| && |s'.users| == |s.users|
    requires forall u | 0 <= u < |s.users| :: UserLater(s.users[u], s'.users[u])
    ensures Sound(s, s')
  {
    StillVerified(s.tokens, s.users, s'.users);
    assert forall m | 0 <= m < |s.members| :: SameStanding(s.members[m], s'.members[m]);
    SamePeopleOk(s, s');
  }

  // ---------- steps and runs ----------

  lemma StepIsSound(s: State, r: Request)
    requires Inv(s)
    ensures Sound(s, After(s, r))
  {
    hide Inv, Sound;
    match r
    case Register(email) => RegisterIsSound(s, email);
    case VerifyEmail(row) => VerifyEmailIsSound(s, row);
    case ResendVerification(email) => ResendVerificationIsSound(s, email);
    case Login(email, matches, remember) => LoginIsSound(s, email, matches, remember);
    case Refresh(row) => RefreshIsSound(s, row);
    case Logout(claims) => LogoutIsSound(s, claims);
    case SwitchWorkspace(claims, workspace) => SwitchWorkspaceIsSound(s, claims, workspace);
    case CreateInvitation(claims, email, role) => CreateInvitationIsSound(s, claims, email, role);
    case ResendInvitation(claims, row) => ResendInvitationIsSound(s, claims, row);
    case RevokeInvitation(claims, row) => RevokeInvitationIsSound(s, claims, row);
    case AcceptInvitation(secret, valid) => AcceptInvitationIsSound(s, secret, valid);
    case UpdateMember(claims, row, role, status) => UpdateMemberIsSound(s, claims, row, role, status);
    case RemoveMember(claims, row) => RemoveMemberIsSound(s, claims, row);
    case _ => EnvironmentIsSound(s, r);
  }

  predicate FromEnvironment(r: Request) {
    r.Tick? || r.SetAccountActive? || r.DeleteAccount? || r.DeleteWorkspace?
  }

  lemma EnvironmentIsSound(s: State, r: Request)
    requires Inv(s) && FromEnvironment(r)
    ensures Sound(s, After(s, r))
  {
    if r.Tick? {
      TickKeepsChains(s.tokens, s.families, s.clock, s.clock + r.elapsed);
    }
    EditIsSound(s, After(s, r));
  }

  lemma {:induction false} RunIsSound(s: State, requests: seq<Request>)
    requires Inv(s)
    ensures Sound(s, Run(s, requests))
  {
    if requests != [] {
      var last := |requests| - 1;
      var before := Run(s, requests[..last]);
      RunIsSound(s, requests[..last]);
      StepIsSound(before, requests[last]);
      StateLaterIsTransitive(s, before, Run(s, requests));
    }
  }
}
